/** A block on its way to a peer: announced in compact form, completed by one request, and rebuilt. */
module BlockRelay {
  import opened BlockLayout
  import opened CompactBlocks
  import opened Difference
  import opened Options
  import opened PartialBlock

  /** The message of a sender: the first transaction, and short ids for the others. */
  method Announce(block: seq<Tx>, header: int, sig: int, short: Shorten) returns (msg: Message)
    requires block != []
    ensures msg == Message(Some(header), SentIds(block, short), [Prefilled(0, block[0])], sig)
  {
    var ids := [];
    var i := 1;
    while i < |block|
      invariant 1 <= i <= |block| && ids == SentIds(block, short)[..i - 1]
    {
      ids := ids + [short(block[i].whash)];
      i := i + 1;
    }
    msg := Message(Some(header), ids, [Prefilled(0, block[0])], sig);
  }

  /** The positions a receiver asks for: exactly the empty ones, in order. */
  method Request(partial: Partial, count: nat) returns (indexes: seq<nat>)
    requires partial.header.Some? && count == |partial.slots|
    ensures indexes == Empty(partial.slots)
  {
    indexes := [];
    var i := 0;
    while i < count
      invariant 0 <= i <= count && indexes == Empty(partial.slots[..i])
    {
      var have := partial.IsTxAvailable(i);
      EmptyAll(partial.slots);
      assert partial.slots[..i + 1][..i] == partial.slots[..i];
      if !have {
        indexes := indexes + [i];
      }
      i := i + 1;
    }
    assert partial.slots[..count] == partial.slots;
  }

  /** What a sender returns for a request; one that goes beyond the block is refused. */
  method Answer(block: seq<Tx>, indexes: seq<nat>) returns (r: Option<seq<Tx>>)
    ensures r.Some? <==> forall i :: 0 <= i < |indexes| ==> indexes[i] < |block|
    ensures r.Some? ==> r.value == Picked(block, indexes)
  {
    var txs := [];
    var i := 0;
    while i < |indexes|
      invariant 0 <= i <= |indexes| && forall j :: 0 <= j < i ==> indexes[j] < |block|
      invariant txs == Picked(block, indexes[..i])
    {
      if indexes[i] >= |block| {
        return None;
      }
      assert indexes[..i + 1][..i] == indexes[..i];
      txs := txs + [block[indexes[i]]];
      i := i + 1;
    }
    assert indexes[..i] == indexes;
    r := Some(txs);
  }

  function Picked(block: seq<Tx>, indexes: seq<nat>): (r: seq<Tx>)
    requires forall i :: 0 <= i < |indexes| ==> indexes[i] < |block|
    ensures |r| == |indexes|
  {
    if indexes == [] then []
    else Picked(block, indexes[..|indexes| - 1]) + [block[indexes[|indexes| - 1]]]
  }

  /** What is picked at the empty positions is what is missing. */
  lemma {:induction false} PickedIsMissing(block: seq<Tx>, slots: Slots)
    requires |block| == |slots|
    ensures Picked(block, Empty(slots)) == Missing(block, slots)
  {
    if slots != [] {
      var n := |slots| - 1;
      PickedIsMissing(block[..n], slots[..n]);
      PickedPrefix(block, n, Empty(slots[..n]));
      MissingLast(block, slots);
      if slots[n].None? { assert Empty(slots)[..|Empty(slots)| - 1] == Empty(slots[..n]); }
    }
  }

  lemma {:induction false} PickedPrefix(block: seq<Tx>, n: nat, indexes: seq<nat>)
    requires n <= |block| && forall i :: 0 <= i < |indexes| ==> indexes[i] < n
    ensures Picked(block[..n], indexes) == Picked(block, indexes)
  {
    if indexes != [] { PickedPrefix(block, n, indexes[..|indexes| - 1]); }
  }

  lemma {:induction false} MissingLast(block: seq<Tx>, slots: Slots)
    requires |block| == |slots| > 0
    ensures var n := |slots| - 1;
            Missing(block, slots) == Missing(block[..n], slots[..n]) + if slots[n].None? then [block[n]] else []
  {
    var n := |slots| - 1;
    if n > 0 {
      MissingLast(block[1..], slots[1..]);
      assert block[1..][..n - 1] == block[..n][1..] && slots[1..][..n - 1] == slots[..n][1..];
    }
  }

  /** A request can be written and read back: its positions rise and fit 16 bits. */
  lemma {:induction false} RisingFrom(vs: seq<nat>, from: nat, max: nat)
    requires max < U64 - 1 && (vs != [] ==> from <= vs[0]) && forall i :: 0 <= i < |vs| ==> vs[i] <= max
    requires forall i, j :: 0 <= i < j < |vs| ==> vs[i] < vs[j]
    ensures Rising(vs, from, max)
  {
    if vs != [] { RisingFrom(vs[1..], vs[0] + 1, max); }
  }

  /** The sender's message is not refused. */
  lemma NotRefused(block: seq<Tx>, header: int, sig: int, short: Shorten)
    requires block != [] && !block[0].isNull && |block| <= MAX_INDEX
    ensures !Refused(Message(Some(header), SentIds(block, short), [Prefilled(0, block[0])], sig))
  {
    SentDescribes(block, short);
  }

  /** Which positions a receiver has to ask for: with a mempool without repetitions, exactly those of
      transactions that it does not know and that were not prefilled. */
  lemma AskedExactly(block: seq<Tx>, base: Slots, ids: seq<ShortId>, short: Shorten, pool: seq<Tx>, extra: seq<Tx>,
                     slots: Slots, k: nat)
    requires Describes(block, base, ids, short) && Distinct(ids) && Distinct(pool) && k < |block|
    requires CollisionFree(block, base, pool, short) && CollisionFree(block, base, extra, short)
    requires var m := Ids(ids, Empty(base), |ids|);
             (forall k :: k in m ==> m[k] < |base|) && slots == Searched(base, m, short, pool, extra, 0).slots
    ensures k in Empty(slots) <==> base[k].None? && block[k] !in pool && block[k] !in extra
  {
    hide Searched, Ids, CollisionFree;
    SearchedExact(block, base, ids, short, pool, extra);
    EmptyAll(slots);
  }

  /** From sender to receiver: the block arrives as it was, or reconstruction fails for one of the reasons
      that are left: equal short ids, an uneven hash table, or a block that fails its own checks. */
  method Relay(block: seq<Tx>, header: int, sig: int, short: Shorten, pool: seq<Tx>, extra: seq<Tx>,
               crowded: nat -> bool, verdict: Verdict) returns (status: Status, result: seq<Tx>)
    requires block != [] && !block[0].isNull && |block| <= MAX_INDEX
    requires CollisionFree(block, Known(block, {0}), pool, short)
    requires CollisionFree(block, Known(block, {0}), extra, short)
    ensures status == Ok ==> result == block
    ensures status == Ok <==> Distinct(SentIds(block, short)) && verdict == Passes &&
                              forall i :: 0 <= i < |block| - 1 ==> !crowded(i)
  {
    hide Searched, Layout, Ids, Empty, CollisionFree, Agrees, Missing, Distinct;
    var msg := Announce(block, header, sig, short);
    NotRefused(block, header, sig, short);
    SentDescribes(block, short);
    var partial := new Partial();
    status := partial.InitData(msg, short, pool, extra, crowded);
    result := [];
    if status == Ok {
      SearchedAgrees(block, Known(block, {0}), msg.ids, short, pool, extra, 0);
      AgreesShape(block, partial.slots);
      FillsBack(block, partial.slots);
      var indexes := Request(partial, |block|);
      var missing := Complete(block, partial.slots, indexes);
      status, result := partial.FillBlock(missing, verdict);
    }
  }

  /** The request travels to the sender and the answer back. */
  method Complete(block: seq<Tx>, ghost slots: Slots, indexes: seq<nat>) returns (missing: seq<Tx>)
    requires |block| == |slots| <= MAX_INDEX && indexes == Empty(slots)
    ensures missing == Missing(block, slots)
  {
    EmptyAll(slots);
    RisingFrom(indexes, 0, MAX_INDEX);
    var received := WriteAndRead(indexes, MAX_INDEX);
    var answer := Answer(block, received.value);
    PickedIsMissing(block, slots);
    missing := answer.value;
  }
}
