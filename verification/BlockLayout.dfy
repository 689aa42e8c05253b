/** Where the prefilled transactions of a compact block go, and the message that prefills any positions of a block. */
module BlockLayout {
  import opened CompactBlocks
  import opened Options

  // ---------------------------------------------------------------- positions of a message

  /** The first `n` indexes with one added to each. */
  function IndexSum(pre: seq<Prefilled>, n: nat): nat
    requires n <= |pre|
  {
    if n == 0 then 0 else IndexSum(pre, n - 1) + pre[n - 1].index + 1
  }

  /** The position of a prefilled transaction: its index counts the positions since the one before. */
  function PositionOf(pre: seq<Prefilled>, i: nat): nat
    requires i < |pre|
  {
    IndexSum(pre, i) + pre[i].index
  }

  /** No prefilled transaction is null, has a position beyond 16 bits, or leaves a gap before it that the short ids
      cannot fill. */
  predicate Placeable(pre: seq<Prefilled>, shorts: nat) {
    forall i :: 0 <= i < |pre| ==> Fits(pre, shorts, i)
  }

  predicate Fits(pre: seq<Prefilled>, shorts: nat, i: nat)
    requires i < |pre|
  {
    !pre[i].tx.isNull && PositionOf(pre, i) <= 0xffff && PositionOf(pre, i) <= shorts + i
  }

  /** Each prefilled transaction is at its position, and every other position is empty. */
  ghost predicate IsLaidOut(pre: seq<Prefilled>, shorts: nat, slots: Slots) {
    |slots| == shorts + |pre| && PlacedUpTo(pre, |pre|, slots)
  }

  /** The first `n` prefilled transactions are in place. */
  ghost predicate PlacedUpTo(pre: seq<Prefilled>, n: nat, slots: Slots)
    requires n <= |pre|
  {
    && (forall i :: 0 <= i < n ==> PositionOf(pre, i) < |slots| && slots[PositionOf(pre, i)] == Some(pre[i].tx))
    && (forall k :: 0 <= k < |slots| && slots[k].Some? ==> exists i :: 0 <= i < n && PositionOf(pre, i) == k)
  }

  lemma {:induction false} PositionsRise(pre: seq<Prefilled>, i: nat, n: nat)
    requires i < n < |pre|
    ensures PositionOf(pre, i) < PositionOf(pre, n)
  {
    if i < n - 1 { PositionsRise(pre, i, n - 1); }
  }

  lemma PlacedNext(pre: seq<Prefilled>, n: nat, slots: Slots)
    requires n < |pre| && PlacedUpTo(pre, n, slots) && PositionOf(pre, n) < |slots|
    ensures PlacedUpTo(pre, n + 1, slots[PositionOf(pre, n) := Some(pre[n].tx)])
  {
    hide PositionOf;
    var at := PositionOf(pre, n);
    var next := slots[at := Some(pre[n].tx)];
    forall i | 0 <= i < n ensures PositionOf(pre, i) != at { PositionsRise(pre, i, n); }
    forall k | 0 <= k < |next| && next[k].Some? ensures exists i :: 0 <= i < n + 1 && PositionOf(pre, i) == k {
      if k == at {
        assert PositionOf(pre, n) == k;
      } else {
        var i :| 0 <= i < n && PositionOf(pre, i) == k;
        assert i < n + 1;
      }
    }
  }

  lemma PlaceOne(pre: seq<Prefilled>, shorts: nat, i: nat, slots: Slots)
    requires i < |pre| && |slots| == shorts + |pre|
    ensures var r := PlaceFrom(pre, shorts, i, IndexSum(pre, i) - 1, slots);
            var at := PositionOf(pre, i);
            && IndexSum(pre, i + 1) - 1 == at
            && r == if !Fits(pre, shorts, i) then None
                    else PlaceFrom(pre, shorts, i + 1, at, slots[at := Some(pre[i].tx)])
  {
  }

  lemma {:induction false} PlaceExact(pre: seq<Prefilled>, shorts: nat, i: nat, slots: Slots)
    requires i <= |pre| && |slots| == shorts + |pre| && PlacedUpTo(pre, i, slots)
    ensures var r := PlaceFrom(pre, shorts, i, IndexSum(pre, i) - 1, slots);
            && (r.Some? <==> forall j :: i <= j < |pre| ==> Fits(pre, shorts, j))
            && (r.Some? ==> |r.value| == |slots| && PlacedUpTo(pre, |pre|, r.value))
    decreases |pre| - i
  {
    hide IndexSum, PositionOf, PlacedUpTo, Fits;
    if i < |pre| {
      hide PlaceFrom;
      PlaceOne(pre, shorts, i, slots);
      if Fits(pre, shorts, i) {
        FitsInside(pre, shorts, i);
        PlacedNext(pre, i, slots);
        PlaceExact(pre, shorts, i + 1, slots[PositionOf(pre, i) := Some(pre[i].tx)]);
      }
    }
  }

  lemma FitsInside(pre: seq<Prefilled>, shorts: nat, i: nat)
    requires i < |pre| && Fits(pre, shorts, i)
    ensures PositionOf(pre, i) < shorts + |pre|
  {
  }

  /** The layout of a message: when there is one, and what is where. */
  lemma LayoutExact(pre: seq<Prefilled>, shorts: nat)
    ensures Layout(pre, shorts).Some? <==> Placeable(pre, shorts)
    ensures Layout(pre, shorts).Some? ==> IsLaidOut(pre, shorts, Layout(pre, shorts).value)
  {
    hide PositionOf, Fits, PlaceFrom;
    assert IndexSum(pre, 0) == 0;
    PlaceExact(pre, shorts, 0, Blank(shorts + |pre|));
  }

  // ---------------------------------------------------------------- a message for any positions

  /** The positions below `n` that are in the set, or those that are not, in order. */
  function Listed(marked: set<nat>, inside: bool, n: nat): seq<nat> {
    if n == 0 then [] else Listed(marked, inside, n - 1) + if n - 1 in marked <==> inside then [n - 1] else []
  }

  ghost predicate IsListed(marked: set<nat>, inside: bool, n: nat, r: seq<nat>) {
    && Rises(r, n)
    && (forall i :: 0 <= i < |r| ==> (r[i] in marked <==> inside))
    && (forall k :: 0 <= k < n && (k in marked <==> inside) ==> k in r)
  }

  predicate Rises(at: seq<nat>, n: nat) {
    (forall i :: 0 <= i < |at| ==> at[i] < n) && forall i, j :: 0 <= i < j < |at| ==> at[i] < at[j]
  }

  lemma ListedOne(marked: set<nat>, inside: bool, n: nat, r: seq<nat>)
    requires n > 0 && IsListed(marked, inside, n - 1, r)
    ensures IsListed(marked, inside, n, r + if n - 1 in marked <==> inside then [n - 1] else [])
  {
    var next := r + if n - 1 in marked <==> inside then [n - 1] else [];
    forall k | 0 <= k < n && (k in marked <==> inside) ensures k in next {
      if k < n - 1 { assert k in r; }
    }
  }

  lemma {:induction false} ListedIs(marked: set<nat>, inside: bool, n: nat)
    ensures IsListed(marked, inside, n, Listed(marked, inside, n)) && Rises(Listed(marked, inside, n), n)
  {
    hide IsListed;
    if n == 0 {
      ListedNone(marked, inside);
    } else {
      ListedIs(marked, inside, n - 1);
      ListedOne(marked, inside, n, Listed(marked, inside, n - 1));
    }
    ListedRises(marked, inside, n, Listed(marked, inside, n));
  }

  lemma ListedNone(marked: set<nat>, inside: bool)
    ensures IsListed(marked, inside, 0, [])
  {
  }

  lemma ListedRises(marked: set<nat>, inside: bool, n: nat, r: seq<nat>)
    requires IsListed(marked, inside, n, r)
    ensures Rises(r, n)
  {
  }

  /** The transactions at the positions, each with its distance to the one before, less one. */
  function PrefillsAt(block: seq<Tx>, at: seq<nat>): seq<Prefilled>
    requires Rises(at, |block|)
  {
    seq(|at|, i requires 0 <= i < |at| => Prefilled(if i == 0 then at[0] else at[i] - at[i - 1] - 1, block[at[i]]))
  }

  function Prefills(block: seq<Tx>, marked: set<nat>): seq<Prefilled> {
    ListedIs(marked, true, |block|);
    PrefillsAt(block, Listed(marked, true, |block|))
  }

  /** The short ids of the transactions at the other positions, in order. */
  function Named(block: seq<Tx>, marked: set<nat>, short: Shorten): seq<ShortId> {
    ListedIs(marked, false, |block|);
    var rest := Listed(marked, false, |block|);
    seq(|rest|, i requires 0 <= i < |rest| => short(block[rest[i]].whash))
  }

  /** The block with only the marked positions known. */
  function Known(block: seq<Tx>, marked: set<nat>): (r: Slots)
    ensures |r| == |block|
  {
    seq(|block|, k requires 0 <= k < |block| => if k in marked then Some(block[k]) else None)
  }

  lemma {:induction false} ListedSizes(marked: set<nat>, n: nat)
    ensures |Listed(marked, true, n)| + |Listed(marked, false, n)| == n
  {
    if n > 0 { ListedSizes(marked, n - 1); }
  }

  lemma {:induction false} SumIsPosition(block: seq<Tx>, at: seq<nat>, n: nat)
    requires Rises(at, |block|)
    requires n <= |at|
    ensures IndexSum(PrefillsAt(block, at), n) == if n == 0 then 0 else at[n - 1] + 1
  {
    if n > 0 { SumIsPosition(block, at, n - 1); }
  }

  lemma {:induction false} RoomAbove(at: seq<nat>, i: nat, n: nat)
    requires i < |at| && Rises(at, n)
    ensures at[i] + |at| - i <= n
    decreases |at| - i
  {
    if i + 1 < |at| { RoomAbove(at, i + 1, n); }
  }

  lemma {:induction false} KnownEmpty(block: seq<Tx>, marked: set<nat>)
    ensures Empty(Known(block, marked)) == Listed(marked, false, |block|)
  {
    if block != [] {
      var n := |block| - 1;
      KnownEmpty(block[..n], marked);
      assert Known(block, marked)[..n] == Known(block[..n], marked);
    }
  }

  lemma PositionIs(block: seq<Tx>, at: seq<nat>, i: nat)
    requires Rises(at, |block|) && i < |at|
    ensures PositionOf(PrefillsAt(block, at), i) == at[i] && PrefillsAt(block, at)[i].tx == block[at[i]]
  {
    hide IndexSum;
    SumIsPosition(block, at, i);
  }

  lemma KnownLaidOut(block: seq<Tx>, marked: set<nat>, at: seq<nat>, slots: Slots)
    requires IsListed(marked, true, |block|, at) && |slots| == |block|
    requires PlacedUpTo(PrefillsAt(block, at), |at|, slots)
    ensures slots == Known(block, marked)
  {
    hide PositionOf;
    var pre := PrefillsAt(block, at);
    forall k | 0 <= k < |block| ensures slots[k] == Known(block, marked)[k] {
      hide PrefillsAt;
      if k in marked {
        var i :| 0 <= i < |at| && at[i] == k;
        PositionIs(block, at, i);
      } else if slots[k].Some? {
        var i :| 0 <= i < |at| && PositionOf(pre, i) == k;
        PositionIs(block, at, i);
      }
    }
  }

  lemma PrefillsFit(block: seq<Tx>, marked: set<nat>, at: seq<nat>)
    requires |block| <= 0x10000 && IsListed(marked, true, |block|, at) && |at| <= |block|
    requires forall k :: k in marked && k < |block| ==> !block[k].isNull
    ensures Placeable(PrefillsAt(block, at), |block| - |at|)
  {
    hide PositionOf;
    var pre, shorts := PrefillsAt(block, at), |block| - |at|;
    forall i | 0 <= i < |pre| ensures Fits(pre, shorts, i) {
      PositionIs(block, at, i);
      RoomAbove(at, i, |block|);
    }
  }

  /** Whatever positions are prefilled, the message is accepted, its layout holds the transactions of the block at
      exactly those positions, and it describes the block. */
  lemma AnyDescribes(block: seq<Tx>, marked: set<nat>, short: Shorten)
    requires |block| <= 0x10000 && forall k :: k in marked && k < |block| ==> !block[k].isNull
    ensures var pre, ids := Prefills(block, marked), Named(block, marked, short);
            && |pre| + |ids| == |block| && Placeable(pre, |ids|)
            && Layout(pre, |ids|) == Some(Known(block, marked))
            && Describes(block, Known(block, marked), ids, short)
  {
    hide Layout, PositionOf, Placeable, PlacedUpTo, PrefillsAt, IsListed, Rises;
    var at := Listed(marked, true, |block|);
    ListedIs(marked, true, |block|);
    var pre, shorts := Prefills(block, marked), |Named(block, marked, short)|;
    ListedSizes(marked, |block|);
    PrefillsSize(block, at);
    PrefillsFit(block, marked, at);
    LayoutExact(pre, shorts);
    KnownLaidOut(block, marked, at, Layout(pre, shorts).value);
    NamedDescribes(block, marked, short);
  }

  lemma PrefillsSize(block: seq<Tx>, at: seq<nat>)
    requires Rises(at, |block|)
    ensures |PrefillsAt(block, at)| == |at|
  {
  }

  lemma NamedDescribes(block: seq<Tx>, marked: set<nat>, short: Shorten)
    ensures Describes(block, Known(block, marked), Named(block, marked, short), short)
  {
    hide Listed, Empty;
    ListedIs(marked, false, |block|);
    KnownEmpty(block, marked);
  }

  // ---------------------------------------------------------------- the message of a sender

  lemma {:induction false} FirstListed(n: nat)
    requires n > 0
    ensures Listed({0}, true, n) == [0] && Listed({0}, false, n) == seq(n - 1, i => i + 1)
  {
    if n > 1 { FirstListed(n - 1); }
  }

  /** The message a sender makes of a block is the one that prefills the first position, and describes it. */
  lemma SentDescribes(block: seq<Tx>, short: Shorten)
    requires 0 < |block| <= 0x10000 && !block[0].isNull
    ensures Prefills(block, {0}) == [Prefilled(0, block[0])] && Named(block, {0}, short) == SentIds(block, short)
    ensures Placeable([Prefilled(0, block[0])], |block| - 1)
    ensures Layout([Prefilled(0, block[0])], |block| - 1) == Some(Known(block, {0}))
    ensures Describes(block, Known(block, {0}), SentIds(block, short), short)
  {
    hide Layout, Placeable, Known, Describes;
    AnyDescribes(block, {0}, short);
    FirstListed(|block|);
    assert Prefills(block, {0}) == [Prefilled(0, block[0])];
    assert Named(block, {0}, short) == SentIds(block, short);
  }
}
