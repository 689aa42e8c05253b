/** What the search for the transactions of a compact block finds when short ids may collide. */
module BlockSearch {
  import opened CompactBlocks
  import opened Options

  /** The short id of the transaction stands for the position. */
  predicate IsMatch(m: map<ShortId, nat>, short: Shorten, tx: Tx, p: nat) {
    short(tx.whash) in m && m[short(tx.whash)] == p
  }

  /** The transactions that match a position, in order. */
  function Matching(m: map<ShortId, nat>, short: Shorten, txs: seq<Tx>, p: nat): seq<Tx> {
    if txs == [] then []
    else
      var n := |txs| - 1;
      Matching(m, short, txs[..n], p) + if IsMatch(m, short, txs[n], p) then [txs[n]] else []
  }

  predicate AllSame(txs: seq<Tx>) {
    forall i :: 0 <= i < |txs| ==> txs[i].whash == txs[0].whash
  }

  /** What a position holds after transactions of the mempool and extra ones matched it: the first of them, unless two
      of the mempool did or two have different hashes. It is then given up for good. */
  predicate FoundAt(base: Option<Tx>, inPool: seq<Tx>, inExtra: seq<Tx>, slot: Option<Tx>, have: bool) {
    var all := inPool + inExtra;
    && (have <==> all != [])
    && slot == if all == [] then base else if |inPool| <= 1 && AllSame(all) then Some(all[0]) else None
  }

  function Taken(s: Scan): set<nat>
    requires |s.have| == |s.slots|
  {
    set p: nat | p < |s.slots| && s.have[p] && s.slots[p].Some?
  }

  /** The state after the given transactions were looked at, from a count of `count`. */
  ghost predicate Seen(m: map<ShortId, nat>, short: Shorten, base: Slots, count: int, pool: seq<Tx>, extra: seq<Tx>,
                       s: Scan) {
    && |s.slots| == |s.have| == |base| && s.count == count + |Taken(s)|
    && forall p :: 0 <= p < |base| ==>
         FoundAt(base[p], Matching(m, short, pool, p), Matching(m, short, extra, p), s.slots[p], s.have[p])
  }

  lemma MatchingNext(m: map<ShortId, nat>, short: Shorten, txs: seq<Tx>, tx: Tx, p: nat)
    ensures var before := Matching(m, short, txs, p);
            Matching(m, short, txs + [tx], p) == if IsMatch(m, short, tx, p) then before + [tx] else before
  {
    assert (txs + [tx])[..|txs|] == txs;
  }

  /** One more match of a position, in the mempool or among the extra ones. */
  lemma FoundNext(isExtra: bool, base: Option<Tx>, inPool: seq<Tx>, inExtra: seq<Tx>, slot: Option<Tx>, have: bool,
                  tx: Tx)
    requires FoundAt(base, inPool, inExtra, slot, have) && (isExtra || inExtra == [])
    ensures var gone := have && slot.Some? && (!isExtra || slot.value.whash != tx.whash);
            FoundAt(base, if isExtra then inPool else inPool + [tx], if isExtra then inExtra + [tx] else inExtra,
                    if !have then Some(tx) else if gone then None else slot, true)
  {
    var all := inPool + inExtra;
    var next := (if isExtra then inPool else inPool + [tx]) + (if isExtra then inExtra + [tx] else inExtra);
    assert next == all + [tx];
    if all != [] {
      assert next[0] == all[0] && next[|all|] == tx;
      if AllSame(next) {
        forall i | 0 <= i < |all| ensures all[i].whash == all[0].whash { assert next[i] == all[i]; }
      }
    }
  }

  lemma TakenStep(s: Scan, t: Scan, p: nat)
    requires |s.have| == |s.slots| == |t.slots| == |t.have| && p < |s.slots|
    requires forall k :: 0 <= k < |s.slots| && k != p ==> t.slots[k] == s.slots[k] && t.have[k] == s.have[k]
    ensures |Taken(t)| - |Taken(s)| == (if p in Taken(t) then 1 else 0) - (if p in Taken(s) then 1 else 0)
  {
    forall k | k != p ensures k in Taken(t) <==> k in Taken(s) {
    }
    Apart(Taken(s), Taken(t), p);
  }

  lemma Apart(a: set<nat>, b: set<nat>, p: nat)
    requires forall k :: k != p ==> (k in a <==> k in b)
    ensures |b| - |a| == (if p in b then 1 else 0) - (if p in a then 1 else 0)
  {
    assert a - {p} == b - {p};
    assert p in a ==> a == (a - {p}) + {p};
    assert p in b ==> b == (b - {p}) + {p};
    assert p !in a ==> a == a - {p};
    assert p !in b ==> b == b - {p};
  }

  lemma StepSeen(isExtra: bool, m: map<ShortId, nat>, short: Shorten, base: Slots, count: int, pool: seq<Tx>,
                 extra: seq<Tx>, s: Scan, tx: Tx)
    requires ScanShape(m, s) && Seen(m, short, base, count, pool, extra, s) && (isExtra || extra == [])
    ensures Seen(m, short, base, count, if isExtra then pool else pool + [tx], if isExtra then extra + [tx] else extra,
                 StepOf(isExtra, m, short, s, tx))
  {
    hide Matching, FoundAt, Taken;
    var t := StepOf(isExtra, m, short, s, tx);
    var pool', extra' := if isExtra then pool else pool + [tx], if isExtra then extra + [tx] else extra;
    forall p | 0 <= p < |base|
      ensures FoundAt(base[p], Matching(m, short, pool', p), Matching(m, short, extra', p), t.slots[p], t.have[p])
    {
      var inPool, inExtra := Matching(m, short, pool, p), Matching(m, short, extra, p);
      MatchingNext(m, short, if isExtra then extra else pool, tx, p);
      if IsMatch(m, short, tx, p) {
        if !isExtra { NoneMatching(m, short, p); }
        FoundNext(isExtra, base[p], inPool, inExtra, s.slots[p], s.have[p], tx);
      }
    }
    if short(tx.whash) in m {
      CountStep(s, t, m[short(tx.whash)]);
    }
  }

  lemma NoneMatching(m: map<ShortId, nat>, short: Shorten, p: nat)
    ensures Matching(m, short, [], p) == []
  {
  }

  lemma CountStep(s: Scan, t: Scan, p: nat)
    requires |s.have| == |s.slots| == |t.slots| == |t.have| && p < |s.slots|
    requires || t == s
             || (!s.have[p] && t.slots[p].Some? && t == Scan(s.slots[p := t.slots[p]], s.have[p := true], s.count + 1))
             || (s.have[p] && s.slots[p].Some? && t == Scan(s.slots[p := None], s.have, s.count - 1))
    ensures t.count - s.count == |Taken(t)| - |Taken(s)|
  {
    if t != s { TakenStep(s, t, p); }
  }

  /** A scan looks at the first transactions, up to the point where as many positions are taken as there are short ids
      or to the end. */
  lemma {:induction false} ScanSeen(isExtra: bool, m: map<ShortId, nat>, short: Shorten, base: Slots, count: int,
                                    pool: seq<Tx>, extra: seq<Tx>, s: Scan, txs: seq<Tx>) returns (n: nat)
    requires ScanShape(m, s) && Seen(m, short, base, count, pool, extra, s) && (isExtra || extra == [])
    ensures n <= |txs|
    ensures var r := ScanAll(isExtra, m, short, s, txs);
            && Seen(m, short, base, count, if isExtra then pool else pool + txs[..n],
                    if isExtra then extra + txs[..n] else extra, r)
            && (n < |txs| ==> r.count == |m|)
    decreases txs
  {
    hide Seen, StepOf;
    if txs == [] {
      n := 0;
      assert pool + txs[..0] == pool && extra + txs[..0] == extra;
    } else {
      var s1 := StepOf(isExtra, m, short, s, txs[0]);
      var pool1, extra1 := if isExtra then pool else pool + [txs[0]], if isExtra then extra + [txs[0]] else extra;
      StepSeen(isExtra, m, short, base, count, pool, extra, s, txs[0]);
      if s1.count == |m| {
        n := 1;
        assert txs[..1] == [txs[0]];
      } else {
        var k := ScanSeen(isExtra, m, short, base, count, pool1, extra1, s1, txs[1..]);
        n := k + 1;
        assert txs[..n] == [txs[0]] + txs[1..][..k];
        assert pool + txs[..n] == pool + [txs[0]] + txs[1..][..k];
        assert extra + txs[..n] == extra + [txs[0]] + txs[1..][..k];
      }
    }
  }

  lemma SeenNothing(m: map<ShortId, nat>, short: Shorten, base: Slots, count: int)
    ensures Seen(m, short, base, count, [], [], Scan(base, seq(|base|, _ => false), count))
  {
    var s := Scan(base, seq(|base|, _ => false), count);
    assert Taken(s) == {};
  }

  /** What the whole search leaves, whatever collides: at each position what the transactions that were looked at make
      of it; the extra ones are cut short only when every short id has its transaction. */
  lemma SearchFinds(m: map<ShortId, nat>, short: Shorten, base: Slots, pool: seq<Tx>, extra: seq<Tx>, count: int)
    returns (i: nat, j: nat)
    requires forall k :: k in m ==> m[k] < |base|
    ensures i <= |pool| && j <= |extra|
    ensures var r := Searched(base, m, short, pool, extra, count);
            && Seen(m, short, base, count, pool[..i], extra[..j], r)
            && (j < |extra| ==> r.count == |m|)
            && (i < |pool| ==> exists s :: Seen(m, short, base, count, pool[..i], [], s) && s.count == |m|)
  {
    hide ScanAll, Seen;
    var s := Scan(base, seq(|base|, _ => false), count);
    SeenNothing(m, short, base, count);
    i := ScanSeen(false, m, short, base, count, [], [], s, pool);
    assert [] + pool[..i] == pool[..i];
    j := ScanSeen(true, m, short, base, count, pool[..i], [], ScanAll(false, m, short, s, pool), extra);
    assert [] + extra[..j] == extra[..j];
  }
}
