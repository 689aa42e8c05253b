/** A block under reconstruction as an object. */
module PartialBlock {
  import opened BlockLayout
  import opened CompactBlocks
  import opened Options

  const MAX_BLOCK_WEIGHT := 4000000
  const MIN_TRANSACTION_WEIGHT := 40

  /** A compact block message. No header stands for a null one. */
  datatype Message = Message(header: Option<int>, ids: seq<ShortId>, pre: seq<Prefilled>, sig: int)

  datatype Status = Ok | Invalid | Failed | CheckFailed

  /** The verdict of the checks on the whole block. */
  datatype Verdict = Passes | Mutated | Fails

  predicate Refused(msg: Message) {
    || msg.header.None? || (msg.ids == [] && msg.pre == [])
    || |msg.ids| + |msg.pre| > MAX_BLOCK_WEIGHT / MIN_TRANSACTION_WEIGHT
    || !Placeable(msg.pre, |msg.ids|)
  }

  /** The positions are what the layout of the message and the search leave. */
  ghost predicate IsSearched(msg: Message, short: Shorten, pool: seq<Tx>, extra: seq<Tx>, count: int, slots: Slots) {
    var base := Layout(msg.pre, |msg.ids|);
    && base.Some? && |Empty(base.value)| == |msg.ids|
    && var m := Ids(msg.ids, Empty(base.value), |msg.ids|);
       (forall k :: k in m ==> m[k] < |base.value|) && slots == Searched(base.value, m, short, pool, extra, count).slots
  }

  class Partial {
    var header: Option<int>
    var sig: int
    var slots: Slots
    var prefilledCount: nat
    var mempoolCount: int

    constructor ()
      ensures header == None && slots == [] && mempoolCount == 0
    {
      header := None;
      sig := 0;
      slots := [];
      prefilledCount := 0;
      mempoolCount := 0;
    }

    /** Lays out the message and looks for its transactions. The wire format admits at most 65535 of them.
        `crowded` says where the hash table of short ids turns out too uneven. */
    method InitData(msg: Message, short: Shorten, pool: seq<Tx>, extra: seq<Tx>, crowded: nat -> bool)
      returns (status: Status)
      requires |msg.ids| + |msg.pre| <= MAX_INDEX
      modifies this
      ensures status == Invalid <==> Refused(msg) || old(header).Some? || old(slots) != []
      ensures status == Failed <==>
                status != Invalid && (!Distinct(msg.ids) || exists i :: 0 <= i < |msg.ids| && crowded(i))
      ensures status == Ok || status == Invalid || status == Failed
      ensures status == Ok ==> header == msg.header && sig == msg.sig && prefilledCount == |msg.pre|
      ensures status == Ok ==> IsSearched(msg, short, pool, extra, old(mempoolCount), slots)
    {
      hide Placeable, PlacedUpTo, Empty, Ids, Searched, Distinct, Layout;
      if msg.header.None? || (msg.ids == [] && msg.pre == []) {
        return Invalid;
      }
      if |msg.ids| + |msg.pre| > MAX_BLOCK_WEIGHT / MIN_TRANSACTION_WEIGHT {
        return Invalid;
      }
      if header.Some? || slots != [] {
        return Invalid;
      }
      header := msg.header;
      sig := msg.sig;
      var placed := PlacePrefilled(msg);
      if !placed {
        return Invalid;
      }
      prefilledCount := |msg.pre|;
      LayoutCounts(msg.pre, |msg.ids|);
      var ids := IndexIds(msg, crowded);
      if ids.None? {
        return Failed;
      }
      IdsInRange(msg.ids, Empty(slots), |msg.ids|, |slots|);
      Search(ids.value, short, pool, extra);
      status := Ok;
    }

    method PlacePrefilled(msg: Message) returns (ok: bool)
      modifies this`slots
      ensures ok <==> Placeable(msg.pre, |msg.ids|)
      ensures ok ==> IsLaidOut(msg.pre, |msg.ids|, slots) && Some(slots) == Layout(msg.pre, |msg.ids|)
    {
      hide Placeable, PlacedUpTo;
      LayoutExact(msg.pre, |msg.ids|);
      slots := Blank(|msg.ids| + |msg.pre|);
      var last := -1;
      var i := 0;
      while i < |msg.pre|
        invariant 0 <= i <= |msg.pre| && -1 <= last && |slots| == |msg.ids| + |msg.pre|
        invariant PlaceFrom(msg.pre, |msg.ids|, i, last, slots) == Layout(msg.pre, |msg.ids|)
      {
        if msg.pre[i].tx.isNull {
          return false;
        }
        last := last + msg.pre[i].index + 1;
        if last > MAX_INDEX {
          return false;
        }
        if last > |msg.ids| + i {
          return false;
        }
        slots := slots[last := Some(msg.pre[i].tx)];
        i := i + 1;
      }
      ok := true;
    }

    /** Gives every short id the next empty position; the positions never run out and fit 16 bits. */
    method FillIds(msg: Message, crowded: nat -> bool) returns (ok: bool, m: map<ShortId, nat>)
      requires |slots| == |msg.ids| + |msg.pre| <= MAX_INDEX && |Empty(slots)| == |msg.ids|
      ensures ok <==> forall i :: 0 <= i < |msg.ids| ==> !crowded(i)
      ensures ok ==> m == Ids(msg.ids, Empty(slots), |msg.ids|)
    {
      hide Ids, Empty, Reaches;
      ghost var at := Empty(slots);
      ReachesFirst(slots);
      m := map[];
      IdsNext(msg.ids, at, 0);
      var offset := 0;
      var i := 0;
      while i < |msg.ids|
        invariant 0 <= i <= |msg.ids| && m == Ids(msg.ids, at, i) && offset >= 0
        invariant Reaches(slots, i, i + offset)
        invariant forall j :: 0 <= j < i ==> !crowded(j)
      {
        var p := NextSlot(i + offset, i);
        offset := p - i;
        assert p <= MAX_INDEX;
        IdsNext(msg.ids, at, i + 1);
        m := m[msg.ids[i] := p];
        if crowded(i) {
          return false, m;
        }
        ReachesNext(slots, i);
        i := i + 1;
      }
      ok := true;
    }

    /** The positions of the short ids, unless two are equal. */
    method IndexIds(msg: Message, crowded: nat -> bool) returns (r: Option<map<ShortId, nat>>)
      requires |slots| == |msg.ids| + |msg.pre| <= MAX_INDEX && |Empty(slots)| == |msg.ids|
      ensures r.None? <==> !Distinct(msg.ids) || exists i :: 0 <= i < |msg.ids| && crowded(i)
      ensures r.Some? ==> r.value == Ids(msg.ids, Empty(slots), |msg.ids|)
    {
      hide Ids, Empty, Distinct;
      var ok, m := FillIds(msg, crowded);
      if !ok {
        return None;
      }
      assert msg.ids[..|msg.ids|] == msg.ids;
      IdsDistinct(msg.ids, Empty(slots), |msg.ids|);
      if |m| != |msg.ids| {
        return None;
      }
      r := Some(m);
    }

    /** Skips the positions that are taken. */
    method NextSlot(from: nat, ghost i: nat) returns (p: nat)
      requires i < |Empty(slots)| && Reaches(slots, i, from)
      ensures from <= p == Empty(slots)[i]
    {
      hide Empty;
      p := from;
      while slots[p].Some?
        invariant from <= p <= Empty(slots)[i]
        decreases Empty(slots)[i] - p
      {
        p := p + 1;
      }
      NextEmpty(slots, i, p);
    }

    /** Looks through the mempool and then the extra transactions, stopping once all are found. */
    method Search(m: map<ShortId, nat>, short: Shorten, pool: seq<Tx>, extra: seq<Tx>)
      requires forall k :: k in m ==> m[k] < |slots|
      modifies this`slots, this`mempoolCount
      ensures slots == Searched(old(slots), m, short, pool, extra, old(mempoolCount)).slots
      ensures mempoolCount == Searched(old(slots), m, short, pool, extra, old(mempoolCount)).count
    {
      var have := seq(|slots|, _ => false);
      have := ScanList(false, m, short, have, pool);
      have := ScanList(true, m, short, have, extra);
    }

    method ScanList(isExtra: bool, m: map<ShortId, nat>, short: Shorten, have0: seq<bool>, txs: seq<Tx>)
      returns (have: seq<bool>)
      requires ScanShape(m, Scan(slots, have0, mempoolCount))
      modifies this`slots, this`mempoolCount
      ensures Scan(slots, have, mempoolCount) ==
              ScanAll(isExtra, m, short, Scan(old(slots), have0, old(mempoolCount)), txs)
    {
      have := have0;
      ghost var start := Scan(slots, have, mempoolCount);
      var i := 0;
      while i < |txs|
        invariant 0 <= i <= |txs| && ScanShape(m, Scan(slots, have, mempoolCount))
        invariant ScanAll(isExtra, m, short, Scan(slots, have, mempoolCount), txs[i..]) ==
                  ScanAll(isExtra, m, short, start, txs)
      {
        ghost var s := Scan(slots, have, mempoolCount);
        var tx := txs[i];
        var id := short(tx.whash);
        if id in m {
          var p := m[id];
          if !have[p] {
            slots := slots[p := Some(tx)];
            have := have[p := true];
            mempoolCount := mempoolCount + 1;
          } else if slots[p].Some? && (!isExtra || slots[p].value.whash != tx.whash) {
            slots := slots[p := None];
            mempoolCount := mempoolCount - 1;
          }
        }
        assert Scan(slots, have, mempoolCount) == StepOf(isExtra, m, short, s, tx);
        assert txs[i..][0] == tx && txs[i..][1..] == txs[i + 1..];
        if mempoolCount == |m| {
          return;
        }
        i := i + 1;
      }
    }

    /** Whether a position need not be asked for. */
    method IsTxAvailable(index: nat) returns (r: bool)
      requires header.Some? ==> index < |slots|
      ensures r <==> header.Some? && index !in Empty(slots)
    {
      EmptyAll(slots);
      r := header.Some? && slots[index].Some?;
    }

    /** Fills the empty positions with the given transactions, in order, and uses the object up. */
    method FillBlock(missing: seq<Tx>, verdict: Verdict) returns (status: Status, block: seq<Tx>)
      modifies this
      ensures old(header).None? ==> status == Invalid
      ensures old(header).Some? ==>
                match Filled(old(slots), missing)
                case None => status == Invalid
                case Some((txs, rest)) =>
                  && header == None && slots == [] && block == txs
                  && status == if rest != [] then Invalid
                      else match verdict { case Passes => Ok case Mutated => Failed case Fails => CheckFailed }
    {
      block := [];
      if header.None? {
        return Invalid, [];
      }
      ghost var was := slots;
      var offset := 0;
      var i := 0;
      assert was[0..] == was && missing[0..] == missing;
      PrependNone(Filled(was, missing));
      while i < |slots|
        invariant 0 <= i <= |slots| == |was| && 0 <= offset <= |missing| && slots[i..] == was[i..]
        invariant Filled(was, missing) == Prepend(block, Filled(was[i..], missing[offset..]))
      {
        assert was[i..][1..] == was[i + 1..] && slots[i] == was[i];
        if slots[i].None? {
          if |missing| <= offset {
            return Invalid, block;
          }
          assert missing[offset..][1..] == missing[offset + 1..];
          PrependOne(block, missing[offset], Filled(was[i + 1..], missing[offset + 1..]));
          block := block + [missing[offset]];
          offset := offset + 1;
        } else {
          PrependOne(block, slots[i].value, Filled(was[i + 1..], missing[offset..]));
          block := block + [slots[i].value];
          slots := slots[i := None];
        }
        i := i + 1;
      }
      header := None;
      slots := [];
      if |missing| != offset {
        return Invalid, block;
      }
      status := match verdict { case Passes => Ok case Mutated => Failed case Fails => CheckFailed };
    }
  }

  function Prepend(block: seq<Tx>, r: Option<(seq<Tx>, seq<Tx>)>): Option<(seq<Tx>, seq<Tx>)> {
    if r.None? then None else Some((block + r.value.0, r.value.1))
  }

  lemma PrependNone(r: Option<(seq<Tx>, seq<Tx>)>)
    ensures Prepend([], r) == r
  {
    if r.Some? { assert [] + r.value.0 == r.value.0; }
  }

  lemma PrependOne(block: seq<Tx>, tx: Tx, r: Option<(seq<Tx>, seq<Tx>)>)
    ensures Prepend(block, if r.None? then None else Some(([tx] + r.value.0, r.value.1))) == Prepend(block + [tx], r)
  {
    if r.Some? { assert block + ([tx] + r.value.0) == (block + [tx]) + r.value.0; }
  }

  /** From a position on, the next empty one is the `i`-th. */
  ghost predicate Reaches(slots: Slots, i: nat, from: nat) {
    i < |Empty(slots)| ==> from <= Empty(slots)[i] && (i > 0 ==> Empty(slots)[i - 1] < from)
  }

  lemma ReachesFirst(slots: Slots)
    ensures Reaches(slots, 0, 0)
  {
  }

  lemma ReachesNext(slots: Slots, i: nat)
    requires i < |Empty(slots)|
    ensures Reaches(slots, i + 1, Empty(slots)[i] + 1)
  {
    EmptyAll(slots);
  }

  /** The first empty position that is not before the `i`-th one is the `i`-th. */
  lemma NextEmpty(slots: Slots, i: nat, p: nat)
    requires i < |Empty(slots)| && p < |slots| && slots[p].None? && p <= Empty(slots)[i] &&
             (i > 0 ==> Empty(slots)[i - 1] < p)
    ensures p == Empty(slots)[i]
  {
    EmptyAll(slots);
    var at := Empty(slots);
    var j :| 0 <= j < |at| && at[j] == p;
    assert j <= i && (i > 0 ==> i - 1 < j);
  }

  lemma IdsNext(ids: seq<ShortId>, at: seq<nat>, n: nat)
    requires n <= |ids| && n <= |at|
    ensures Ids(ids, at, n) == if n == 0 then map[] else Ids(ids, at, n - 1)[ids[n - 1] := at[n - 1]]
  {
  }

  lemma {:induction false} IdsInRange(ids: seq<ShortId>, at: seq<nat>, n: nat, size: nat)
    requires n <= |ids| && n <= |at| && forall i :: 0 <= i < |at| ==> at[i] < size
    ensures forall k :: k in Ids(ids, at, n) ==> Ids(ids, at, n)[k] < size
  {
    if n > 0 { IdsInRange(ids, at, n - 1, size); }
  }

  /** From message to block: whatever positions are prefilled, if no known transaction collides with the others,
      a reconstruction that is handed just the missing transactions gives the block, unless short ids are equal, the
      hash table is uneven or the block fails its own checks. */
  method Reconstruct(block: seq<Tx>, marked: set<nat>, header: int, sig: int, short: Shorten, pool: seq<Tx>,
                     extra: seq<Tx>, crowded: nat -> bool, verdict: Verdict)
    returns (status: Status, result: seq<Tx>)
    requires 0 < |block| <= MAX_INDEX && forall k :: k in marked && k < |block| ==> !block[k].isNull
    requires CollisionFree(block, Known(block, marked), pool, short)
    requires CollisionFree(block, Known(block, marked), extra, short)
    ensures status == Ok ==> result == block
    ensures status == Ok <==> Distinct(Named(block, marked, short)) && verdict == Passes &&
                              forall i :: 0 <= i < |Named(block, marked, short)| ==> !crowded(i)
  {
    hide Searched, Layout, Ids, Empty, Describes, CollisionFree, Agrees, Named, Prefills, Known, Placeable, Distinct;
    AnyDescribes(block, marked, short);
    var msg := Message(Some(header), Named(block, marked, short), Prefills(block, marked), sig);
    var partial := new Partial();
    status := partial.InitData(msg, short, pool, extra, crowded);
    result := [];
    if status == Ok {
      SearchedAgrees(block, Known(block, marked), msg.ids, short, pool, extra, 0);
      AgreesShape(block, partial.slots);
      FillsBack(block, partial.slots);
      status, result := partial.FillBlock(Missing(block, partial.slots), verdict);
    }
  }

  lemma AgreesShape(block: seq<Tx>, slots: Slots)
    requires Agrees(block, slots)
    ensures |block| == |slots|
  {
  }
}
