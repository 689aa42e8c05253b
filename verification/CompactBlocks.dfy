/** Compact blocks on values: laying out the message, finding its transactions, filling the block. */
module CompactBlocks {
  import opened Options

  datatype ShortId = ShortId(v: int)

  datatype Tx = Tx(whash: int, body: int, isNull: bool)

  datatype Prefilled = Prefilled(index: nat, tx: Tx)

  type Slots = seq<Option<Tx>>

  const MAX_INDEX := 0xffff

  // ---------------------------------------------------------------- the layout

  /** Puts the prefilled transactions where their running index says; fails on a null transaction, on an
      index beyond 16 bits, and where some position before it could not be covered by a short id. */
  function PlaceFrom(pre: seq<Prefilled>, shorts: nat, i: nat, last: int, slots: Slots): (r: Option<Slots>)
    requires i <= |pre| && -1 <= last && |slots| == shorts + |pre|
    ensures r.Some? ==> |r.value| == |slots|
    decreases |pre| - i
  {
    if i == |pre| then Some(slots)
    else if pre[i].tx.isNull then None
    else
      var at := last + pre[i].index + 1;
      if at > MAX_INDEX || at > shorts + i then None
      else PlaceFrom(pre, shorts, i + 1, at, slots[at := Some(pre[i].tx)])
  }

  function Blank(n: nat): (r: Slots)
    ensures |r| == n && forall k :: 0 <= k < n ==> r[k] == None
  {
    seq(n, _ => None)
  }

  function Layout(pre: seq<Prefilled>, shorts: nat): Option<Slots> {
    PlaceFrom(pre, shorts, 0, -1, Blank(shorts + |pre|))
  }

  /** The positions without a transaction, in order. */
  function Empty(slots: Slots): (r: seq<nat>)
    ensures |r| <= |slots| && forall i :: 0 <= i < |r| ==> r[i] < |slots| && slots[r[i]] == None
  {
    if slots == [] then []
    else
      var n := |slots| - 1;
      if slots[n].None? then Empty(slots[..n]) + [n] else Empty(slots[..n])
  }

  lemma {:induction false} EmptyAll(slots: Slots)
    ensures forall k :: 0 <= k < |slots| && slots[k].None? ==> k in Empty(slots)
    ensures forall i, j :: 0 <= i < j < |Empty(slots)| ==> Empty(slots)[i] < Empty(slots)[j]
  {
    if slots != [] {
      var n := |slots| - 1;
      EmptyAll(slots[..n]);
      forall k | 0 <= k < |slots| && slots[k].None? ensures k in Empty(slots) {
        if k < n { assert slots[..n][k].None?; }
      }
    }
  }

  /** Filling an empty position leaves one fewer. */
  lemma {:induction false} EmptyFewer(slots: Slots, k: nat, tx: Tx)
    requires k < |slots| && slots[k].None?
    ensures |Empty(slots[k := Some(tx)])| == |Empty(slots)| - 1
  {
    var n := |slots| - 1;
    var next := slots[k := Some(tx)];
    if k < n {
      EmptyFewer(slots[..n], k, tx);
      assert next[..n] == slots[..n][k := Some(tx)];
    } else {
      assert next[..n] == slots[..n];
    }
  }

  lemma {:induction false} EmptyBlank(n: nat)
    ensures |Empty(Blank(n))| == n
  {
    if n > 0 {
      EmptyBlank(n - 1);
      assert Blank(n)[..n - 1] == Blank(n - 1);
    }
  }

  /** After the prefilled ones there is exactly one empty position for every short id. */
  lemma {:induction false} PlaceCounts(pre: seq<Prefilled>, shorts: nat, i: nat, last: int, slots: Slots)
    requires i <= |pre| && -1 <= last && |slots| == shorts + |pre|
    requires (forall k :: last < k < |slots| ==> slots[k].None?) && |Empty(slots)| == |slots| - i
    ensures var r := PlaceFrom(pre, shorts, i, last, slots);
            r.Some? ==> |Empty(r.value)| == shorts
    decreases |pre| - i
  {
    if i < |pre| && !pre[i].tx.isNull {
      var at := last + pre[i].index + 1;
      if at <= MAX_INDEX && at <= shorts + i {
        EmptyFewer(slots, at, pre[i].tx);
        PlaceCounts(pre, shorts, i + 1, at, slots[at := Some(pre[i].tx)]);
      }
    }
  }

  lemma LayoutCounts(pre: seq<Prefilled>, shorts: nat)
    ensures Layout(pre, shorts).Some? ==>
              |Layout(pre, shorts).value| == shorts + |pre| && |Empty(Layout(pre, shorts).value)| == shorts
  {
    EmptyBlank(shorts + |pre|);
    PlaceCounts(pre, shorts, 0, -1, Blank(shorts + |pre|));
  }

  // ---------------------------------------------------------------- short ids

  /** Which position each of the first `n` short ids stands for; a repeated one for its last. */
  function Ids(ids: seq<ShortId>, at: seq<nat>, n: nat): (m: map<ShortId, nat>)
    requires n <= |ids| && n <= |at|
    ensures |m| <= n
  {
    if n == 0 then map[]
    else
      var m := Ids(ids, at, n - 1);
      CardAfter(m, ids[n - 1], at[n - 1]);
      m[ids[n - 1] := at[n - 1]]
  }

  lemma CardAfter(m: map<ShortId, nat>, k: ShortId, v: nat)
    ensures |m[k := v]| == |m| + if k in m then 0 else 1
  {
    assert m[k := v].Keys == m.Keys + {k};
    if k in m { assert m.Keys + {k} == m.Keys; }
  }

  /** With as many entries as short ids no two are equal, and each stands for its own position. */
  lemma {:induction false} IdsDistinct(ids: seq<ShortId>, at: seq<nat>, n: nat)
    requires n <= |ids| && n <= |at|
    ensures |Ids(ids, at, n)| == n <==> Distinct(ids[..n])
    ensures |Ids(ids, at, n)| == n ==>
              forall i :: 0 <= i < n ==> ids[i] in Ids(ids, at, n) && Ids(ids, at, n)[ids[i]] == at[i]
    ensures forall k :: k in Ids(ids, at, n) <==> k in ids[..n]
  {
    if n > 0 {
      IdsDistinct(ids, at, n - 1);
      CardAfter(Ids(ids, at, n - 1), ids[n - 1], at[n - 1]);
      assert ids[..n] == ids[..n - 1] + [ids[n - 1]];
      DistinctNext(ids, n);
    }
  }

  predicate Distinct<T(==)>(s: seq<T>) {
    forall i, j :: 0 <= i < j < |s| ==> s[i] != s[j]
  }

  lemma DistinctNext(ids: seq<ShortId>, n: nat)
    requires 0 < n <= |ids|
    ensures Distinct(ids[..n]) <==> Distinct(ids[..n - 1]) && ids[n - 1] !in ids[..n - 1]
  {
    var s := ids[..n];
    assert ids[..n - 1] == s[..n - 1];
    if Distinct(s[..n - 1]) && s[n - 1] !in s[..n - 1] {
      forall i, j | 0 <= i < j < |s| ensures s[i] != s[j] {
        if j < n - 1 { assert s[..n - 1][i] != s[..n - 1][j]; } else { assert s[..n - 1][i] in s[..n - 1]; }
      }
    }
    if Distinct(s) {
      assert forall i :: 0 <= i < n - 1 ==> s[i] != s[n - 1];
    }
  }

  // ---------------------------------------------------------------- looking for transactions

  type Shorten = int -> ShortId

  /** The positions, which of them a known transaction was matched to, and how many are taken that way. */
  datatype Scan = Scan(slots: Slots, have: seq<bool>, count: int)

  ghost predicate ScanShape(m: map<ShortId, nat>, s: Scan) {
    |s.have| == |s.slots| && forall k :: k in m ==> m[k] < |s.slots|
  }

  /** A transaction of the mempool: the first match takes the position, a second one gives it up. */
  function PoolStep(m: map<ShortId, nat>, short: Shorten, s: Scan, tx: Tx): (r: Scan)
    requires ScanShape(m, s)
    ensures ScanShape(m, r) && |r.slots| == |s.slots|
  {
    var id := short(tx.whash);
    if id !in m then s
    else
      var p := m[id];
      if !s.have[p] then Scan(s.slots[p := Some(tx)], s.have[p := true], s.count + 1)
      else if s.slots[p].Some? then Scan(s.slots[p := None], s.have, s.count - 1)
      else s
  }

  /** An extra transaction: as before, but the same transaction again changes nothing. */
  function ExtraStep(m: map<ShortId, nat>, short: Shorten, s: Scan, tx: Tx): (r: Scan)
    requires ScanShape(m, s)
    ensures ScanShape(m, r) && |r.slots| == |s.slots|
  {
    var id := short(tx.whash);
    if id !in m then s
    else
      var p := m[id];
      if !s.have[p] then Scan(s.slots[p := Some(tx)], s.have[p := true], s.count + 1)
      else if s.slots[p].Some? && s.slots[p].value.whash != tx.whash then Scan(s.slots[p := None], s.have, s.count - 1)
      else s
  }

  function StepOf(extra: bool, m: map<ShortId, nat>, short: Shorten, s: Scan, tx: Tx): (r: Scan)
    requires ScanShape(m, s)
    ensures ScanShape(m, r) && |r.slots| == |s.slots|
  {
    if extra then ExtraStep(m, short, s, tx) else PoolStep(m, short, s, tx)
  }

  /** Goes through the transactions until every short id is matched. */
  function ScanAll(extra: bool, m: map<ShortId, nat>, short: Shorten, s: Scan, txs: seq<Tx>): (r: Scan)
    requires ScanShape(m, s)
    ensures ScanShape(m, r) && |r.slots| == |s.slots|
    decreases txs
  {
    if txs == [] then s
    else
      var s1 := StepOf(extra, m, short, s, txs[0]);
      if s1.count == |m| then s1 else ScanAll(extra, m, short, s1, txs[1..])
  }

  // ---------------------------------------------------------------- what a message says about a block

  /** The message describes the block: prefilled transactions are its own, short ids those of the rest. */
  ghost predicate Describes(block: seq<Tx>, base: Slots, ids: seq<ShortId>, short: Shorten) {
    && |base| == |block| && |Empty(base)| == |ids|
    && (forall k :: 0 <= k < |base| && base[k].Some? ==> base[k] == Some(block[k]))
    && (forall i :: 0 <= i < |ids| ==> ids[i] == short(block[Empty(base)[i]].whash))
  }

  /** No other known transaction has the short id of a transaction that is not prefilled. */
  ghost predicate CollisionFree(block: seq<Tx>, base: Slots, txs: seq<Tx>, short: Shorten)
    requires |base| == |block|
  {
    forall t, k :: 0 <= t < |txs| && 0 <= k < |block| && base[k].None? ==>
      short(txs[t].whash) == short(block[k].whash) ==> txs[t] == block[k]
  }

  /** Every position is empty or holds the transaction of the block. */
  ghost predicate Agrees(block: seq<Tx>, slots: Slots) {
    |slots| == |block| && forall k :: 0 <= k < |slots| ==> slots[k] == None || slots[k] == Some(block[k])
  }

  /** The map leads every short id to the position of the transaction it belongs to. */
  ghost predicate Leads(block: seq<Tx>, base: Slots, m: map<ShortId, nat>, short: Shorten) {
    && |base| == |block|
    && (forall id :: id in m ==> m[id] < |block| && base[m[id]].None? && short(block[m[id]].whash) == id)
    && (forall k :: 0 <= k < |block| && base[k].None? ==> short(block[k].whash) in m && m[short(block[k].whash)] == k)
  }

  lemma IdsLead(block: seq<Tx>, base: Slots, ids: seq<ShortId>, short: Shorten)
    requires Describes(block, base, ids, short) && Distinct(ids)
    ensures Leads(block, base, Ids(ids, Empty(base), |ids|), short) && |Ids(ids, Empty(base), |ids|)| == |ids|
  {
    var at := Empty(base);
    var m := Ids(ids, at, |ids|);
    assert ids[..|ids|] == ids;
    IdsDistinct(ids, at, |ids|);
    EmptyAll(base);
    forall id | id in m ensures m[id] < |block| && base[m[id]].None? && short(block[m[id]].whash) == id {
      var i :| 0 <= i < |ids| && ids[i] == id;
    }
    forall k | 0 <= k < |block| && base[k].None? ensures short(block[k].whash) in m && m[short(block[k].whash)] == k {
      var i :| 0 <= i < |at| && at[i] == k;
      assert ids[i] == short(block[k].whash);
    }
  }

  lemma StepAgrees(extra: bool, block: seq<Tx>, base: Slots, m: map<ShortId, nat>, short: Shorten, s: Scan, tx: Tx)
    requires ScanShape(m, s) && Agrees(block, s.slots) && Leads(block, base, m, short) &&
             CollisionFree(block, base, [tx], short)
    ensures Agrees(block, StepOf(extra, m, short, s, tx).slots)
  {
    var id := short(tx.whash);
    if id in m { assert [tx][0] == block[m[id]]; }
  }

  /** Whatever is known and scanned, no position ever holds a wrong transaction. */
  lemma {:induction false} ScanAgrees(extra: bool, block: seq<Tx>, base: Slots, m: map<ShortId, nat>, short: Shorten,
                                      s: Scan, txs: seq<Tx>)
    requires ScanShape(m, s) && Agrees(block, s.slots) && Leads(block, base, m, short) &&
             CollisionFree(block, base, txs, short)
    ensures Agrees(block, ScanAll(extra, m, short, s, txs).slots)
    decreases txs
  {
    hide StepOf, Leads;
    if txs != [] {
      assert |base| == |block| by { LeadsShape(block, base, m, short); }
      assert CollisionFree(block, base, [txs[0]], short);
      StepAgrees(extra, block, base, m, short, s, txs[0]);
      ScanAgrees(extra, block, base, m, short, StepOf(extra, m, short, s, txs[0]), txs[1..]);
    }
  }

  lemma LeadsShape(block: seq<Tx>, base: Slots, m: map<ShortId, nat>, short: Shorten)
    requires Leads(block, base, m, short)
    ensures |base| == |block|
  {
  }

  // ---------------------------------------------------------------- filling the block

  /** The transactions of the block for the empty positions, in order. */
  function Missing(block: seq<Tx>, slots: Slots): seq<Tx>
    requires |block| == |slots|
  {
    if slots == [] then []
    else (if slots[0].None? then [block[0]] else []) + Missing(block[1..], slots[1..])
  }

  /** The block with the empty positions filled from the front of the list; fails if that runs out. */
  function Filled(slots: Slots, missing: seq<Tx>): Option<(seq<Tx>, seq<Tx>)> {
    if slots == [] then Some(([], missing))
    else if slots[0].Some? then
      var r := Filled(slots[1..], missing);
      if r.None? then None else Some(([slots[0].value] + r.value.0, r.value.1))
    else if missing == [] then None
    else
      var r := Filled(slots[1..], missing[1..]);
      if r.None? then None else Some(([missing[0]] + r.value.0, r.value.1))
  }

  /** Filling what agrees with a block by what it misses gives the block, with nothing left over. */
  lemma {:induction false} FillsBack(block: seq<Tx>, slots: Slots)
    requires Agrees(block, slots)
    ensures Filled(slots, Missing(block, slots)) == Some((block, []))
  {
    if slots != [] {
      FillsBack(block[1..], slots[1..]);
      assert block == [block[0]] + block[1..];
      var rest := Missing(block[1..], slots[1..]);
      assert [] + rest == rest && ([block[0]] + rest)[1..] == rest;
    }
  }

  lemma {:induction false} EmptyFront(slots: Slots)
    requires slots != []
    ensures |Empty(slots)| == |Empty(slots[1..])| + if slots[0].None? then 1 else 0
  {
    var n := |slots| - 1;
    if n > 0 {
      EmptyFront(slots[..n]);
      assert slots[1..][..n - 1] == slots[..n][1..];
    } else {
      assert slots[..0] == [] && slots[1..] == [];
    }
  }

  /** Filling succeeds exactly if the list is long enough. Positions that are taken stay, each empty one gets the next
      of the list, and what is not needed is left over. */
  lemma {:induction false} FilledExact(slots: Slots, missing: seq<Tx>)
    ensures var r := Filled(slots, missing);
            && (r.Some? <==> |Empty(slots)| <= |missing|)
            && (r.Some? ==>
                  && |r.value.0| == |slots| && r.value.1 == missing[|Empty(slots)|..]
                  && forall k :: 0 <= k < |slots| ==> FilledAt(slots, missing, k, r.value.0[k]))
  {
    hide Empty;
    if slots == [] {
      EmptyNone();
    } else {
      var rest := if slots[0].Some? then missing else if missing == [] then [] else missing[1..];
      EmptyFront(slots);
      FilledExact(slots[1..], rest);
      var r := Filled(slots, missing);
      if r.Some? {
        forall k | 0 <= k < |slots| ensures FilledAt(slots, missing, k, r.value.0[k]) {
          if k == 0 {
            assert slots[..0] == [];
            EmptyNone();
          } else {
            assert FilledAt(slots[1..], rest, k - 1, r.value.0[k]);
            EmptyFront(slots[..k]);
            assert slots[..k][1..] == slots[1..][..k - 1];
          }
        }
      }
    }
  }

  ghost predicate FilledAt(slots: Slots, missing: seq<Tx>, k: nat, tx: Tx)
    requires k < |slots|
  {
    if slots[k].Some? then tx == slots[k].value
    else |Empty(slots[..k])| < |missing| && tx == missing[|Empty(slots[..k])|]
  }

  lemma EmptyNone()
    ensures Empty([]) == []
  {
  }

  // ---------------------------------------------------------------- which transactions are found

  /** Exactly the prefilled and the seen transactions are in place. */
  ghost predicate Exact(block: seq<Tx>, base: Slots, s: Scan, seen: set<Tx>) {
    && |s.slots| == |s.have| == |base| == |block|
    && (forall k :: 0 <= k < |block| ==>
        s.slots[k] == if base[k].Some? || block[k] in seen then Some(block[k]) else None)
    && (forall k :: 0 <= k < |block| ==> s.have[k] == (base[k].None? && block[k] in seen))
    && s.count == |Empty(base)| - |Empty(s.slots)|
  }

  /** A transaction of the mempool not seen before, or any extra one, is put in place if the block has it. */
  lemma StepExact(extra: bool, block: seq<Tx>, base: Slots, m: map<ShortId, nat>, short: Shorten, s: Scan,
                  seen: set<Tx>, tx: Tx)
    requires ScanShape(m, s) && Exact(block, base, s, seen) && Leads(block, base, m, short)
    requires CollisionFree(block, base, [tx], short) && (extra || tx !in seen)
    ensures Exact(block, base, StepOf(extra, m, short, s, tx), seen + {tx})
  {
    hide Empty;
    var id := short(tx.whash);
    if id in m {
      var p := m[id];
      assert [tx][0] == block[p];
      if !s.have[p] { EmptyFewer(s.slots, p, tx); }
    }
  }

  /** When as many are matched as there are short ids, nothing is left to find. */
  lemma NothingLeft(block: seq<Tx>, base: Slots, s: Scan, seen: set<Tx>, more: set<Tx>)
    requires Exact(block, base, s, seen) && s.count == |Empty(base)|
    ensures Exact(block, base, s, seen + more)
  {
    EmptyAll(s.slots);
    assert Empty(s.slots) == [];
    assert forall k :: 0 <= k < |block| ==> s.slots[k].Some?;
  }

  function SetOf(txs: seq<Tx>): set<Tx> {
    set x | x in txs
  }

  /** A scan finds exactly the transactions of the block that are there, also when it stops early. */
  lemma {:induction false} ScanExact(extra: bool, block: seq<Tx>, base: Slots, m: map<ShortId, nat>, short: Shorten,
                                     s: Scan, seen: set<Tx>, txs: seq<Tx>)
    requires ScanShape(m, s) && Exact(block, base, s, seen) && Leads(block, base, m, short) && |m| == |Empty(base)|
    requires CollisionFree(block, base, txs, short)
    requires extra || (Distinct(txs) && forall t :: 0 <= t < |txs| ==> txs[t] !in seen)
    ensures Exact(block, base, ScanAll(extra, m, short, s, txs), seen + SetOf(txs))
    decreases txs
  {
    hide StepOf, Leads, Exact, Empty;
    if txs == [] {
      assert seen + SetOf(txs) == seen;
    } else {
      assert |base| == |block| by { LeadsShape(block, base, m, short); }
      assert CollisionFree(block, base, [txs[0]], short);
      StepExact(extra, block, base, m, short, s, seen, txs[0]);
      var s1 := StepOf(extra, m, short, s, txs[0]);
      assert seen + {txs[0]} + SetOf(txs[1..]) == seen + SetOf(txs);
      if s1.count == |m| {
        NothingLeft(block, base, s1, seen + {txs[0]}, SetOf(txs[1..]));
      } else {
        ScanExact(extra, block, base, m, short, s1, seen + {txs[0]}, txs[1..]);
      }
    }
  }

  /** What both scans leave, from the layout of the message. */
  function Searched(base: Slots, m: map<ShortId, nat>, short: Shorten, pool: seq<Tx>, extra: seq<Tx>,
                    count: int): (r: Scan)
    requires forall k :: k in m ==> m[k] < |base|
    ensures |r.slots| == |base|
  {
    var s := Scan(base, seq(|base|, _ => false), count);
    ScanAll(true, m, short, ScanAll(false, m, short, s, pool), extra)
  }

  lemma SearchedAgrees(block: seq<Tx>, base: Slots, ids: seq<ShortId>, short: Shorten, pool: seq<Tx>, extra: seq<Tx>,
                       count: int)
    requires Describes(block, base, ids, short) && Distinct(ids)
    requires CollisionFree(block, base, pool, short) && CollisionFree(block, base, extra, short)
    ensures var m := Ids(ids, Empty(base), |ids|);
            (forall k :: k in m ==> m[k] < |base|) && Agrees(block, Searched(base, m, short, pool, extra, count).slots)
  {
    hide ScanAll, Ids, Empty;
    IdsLead(block, base, ids, short);
    var m := Ids(ids, Empty(base), |ids|);
    var s := Scan(base, seq(|base|, _ => false), count);
    ScanAgrees(false, block, base, m, short, s, pool);
    ScanAgrees(true, block, base, m, short, ScanAll(false, m, short, s, pool), extra);
  }

  /** With a mempool without repetitions, a position is filled exactly when its transaction is prefilled, in
      the mempool or among the extra ones. */
  lemma SearchedExact(block: seq<Tx>, base: Slots, ids: seq<ShortId>, short: Shorten, pool: seq<Tx>, extra: seq<Tx>)
    requires Describes(block, base, ids, short) && Distinct(ids) && Distinct(pool)
    requires CollisionFree(block, base, pool, short) && CollisionFree(block, base, extra, short)
    ensures var m := Ids(ids, Empty(base), |ids|);
            && (forall k :: k in m ==> m[k] < |base|)
            && forall k :: 0 <= k < |block| ==>
                 (Searched(base, m, short, pool, extra, 0).slots[k].Some? <==>
                  base[k].Some? || block[k] in pool || block[k] in extra)
  {
    hide ScanAll, Ids, Empty;
    IdsLead(block, base, ids, short);
    var m := Ids(ids, Empty(base), |ids|);
    var s := Scan(base, seq(|base|, _ => false), 0);
    ScanExact(false, block, base, m, short, s, {}, pool);
    ScanExact(true, block, base, m, short, ScanAll(false, m, short, s, pool), {} + SetOf(pool), extra);
  }

  // ---------------------------------------------------------------- the message of a sender

  /** A sender prefills the first transaction and names the others by their short ids. */
  function SentIds(block: seq<Tx>, short: Shorten): seq<ShortId>
    requires block != []
  {
    seq(|block| - 1, i requires 0 <= i < |block| - 1 => short(block[i + 1].whash))
  }
}
