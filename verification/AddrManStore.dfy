/** Writing and reading the file of the address manager, entry by entry. */
module AddrManStore {
  import opened AddrManCheck
  import opened AddrManFile
  import opened AddrManObject
  import opened AddrManReload
  import opened AddrManRuns
  import opened AddrManSpec
  import opened Options

  // ---------------------------------------------------------------- references as stored

  /** The references of one stored bucket; indices out of range are skipped. */
  function RowRefs(bucket: int, row: seq<int>, nNew: int): seq<Ref> {
    if row == [] then [] else
      var k := row[|row| - 1];
      RowRefs(bucket, row[..|row| - 1], nNew) + (if 0 <= k < nNew then [Ref(bucket, k)] else [])
  }

  function AllRefs(buckets: seq<seq<int>>, nNew: int): seq<Ref> {
    if buckets == [] then [] else
      AllRefs(buckets[..|buckets| - 1], nNew) + RowRefs(|buckets| - 1, buckets[|buckets| - 1], nNew)
  }

  // ---------------------------------------------------------------- writing

  /** What `f` must be to hold the state `s`; `all` is the order in which entries were written. */
  ghost predicate Saved(p: Params, s: State, f: File, all: seq<NodeId>) {
    && 0 <= s.nNew && Listed(s, all, s.nNew) && |all| == s.nNew + s.nTried
    && f.format == FILE_FORMAT && f.compat == INCOMPATIBILITY_BASE + FILE_FORMAT
    && f.key == s.key && f.nNew == s.nNew && f.nTried == s.nTried
    && f.bucketField == Mark(p.newBuckets) && f.asmap == p.asmapChecksum
    && f.news == Recs(s, all, s.nNew, 0, s.nNew)
    && f.trieds == Recs(s, all, s.nNew, s.nNew, |all|)
    && |f.buckets| == p.newBuckets
    && SavedRefs(p, s, all, s.nNew, AllRefs(f.buckets, s.nNew))
  }

  /** `refs` names each slot of `part` once. */
  ghost predicate Covers(p: Params, s: State, all: seq<NodeId>, n: nat, refs: seq<Ref>, part: map<Slot, NodeId>)
    requires Listed(s, all, n)
  {
    && (forall i :: 0 <= i < |refs| ==> RefOk(p, s, all, n, refs[i]) && RefTarget(p, s, all, n, refs[i]) in part)
    && (forall i, j :: 0 <= i < j < |refs| ==> RefTarget(p, s, all, n, refs[i]) != RefTarget(p, s, all, n, refs[j]))
    && (forall sl :: sl in part ==> exists i :: 0 <= i < |refs| && RefTarget(p, s, all, n, refs[i]) == sl)
  }

  lemma CoversAll(p: Params, s: State, all: seq<NodeId>, n: nat, refs: seq<Ref>)
    requires Listed(s, all, n) && Covers(p, s, all, n, refs, s.newTab)
    ensures SavedRefs(p, s, all, n, refs)
  {
    hide RefTarget;
  }

  lemma CoversNext(p: Params, s: State, all: seq<NodeId>, n: nat, refs: seq<Ref>, part: map<Slot, NodeId>, sl: Slot,
                   k: int)
    requires NewOk(p, s.key, s.info, s.newTab, {}) && Listed(s, all, n) && Covers(p, s, all, n, refs, part)
    requires sl in s.newTab && sl !in part && 0 <= k < n && all[k] == s.newTab[sl]
    ensures Covers(p, s, all, n, refs + [Ref(sl.bucket, k)], part[sl := s.newTab[sl]])
  {
    var r := Ref(sl.bucket, k);
    assert RefTarget(p, s, all, n, r) == sl;
    hide RefTarget, Listed, NewOk, SlotsOf;
    var refs' := refs + [r];
    var next := part[sl := s.newTab[sl]];
    forall x | x in next ensures exists i :: 0 <= i < |refs'| && RefTarget(p, s, all, n, refs'[i]) == x {
      if x == sl {
        assert refs'[|refs|] == r;
      } else {
        var i :| 0 <= i < |refs| && RefTarget(p, s, all, n, refs[i]) == x;
        assert refs'[i] == refs[i];
      }
    }
  }

  /** An enumeration of the entries, as an iteration over the map gives one. */
  method Enumerate(m: AddrMan) returns (order: seq<NodeId>)
    ensures forall id :: id in order <==> id in m.mapInfo
    ensures forall i, j :: 0 <= i < j < |order| ==> order[i] != order[j]
  {
    order := [];
    var rest := m.mapInfo.Keys;
    while rest != {}
      invariant forall id :: id in m.mapInfo <==> id in order || id in rest
      invariant forall id :: id in order ==> id !in rest
      invariant forall i, j :: 0 <= i < j < |order| ==> order[i] != order[j]
      decreases |rest|
    {
      var id :| id in rest;
      assert forall i :: 0 <= i < |order| ==> order[i] in order;
      order := order + [id];
      rest := rest - {id};
    }
  }

  /** The positions in the file of the entries written so far. */
  ghost predicate Indexed(written: seq<NodeId>, index: map<NodeId, int>) {
    forall j :: 0 <= j < |written| ==> written[j] in index && index[written[j]] == j
  }

  /** `written` is the part of `order` that satisfies `inTried == tried`, in order. */
  ghost predicate Filtered(info: map<NodeId, AddrInfo>, order: seq<NodeId>, tried: bool, written: seq<NodeId>) {
    && (forall id :: id in written <==> id in order && id in info && info[id].inTried == tried)
    && (forall i, j :: 0 <= i < j < |written| ==> written[i] != written[j])
  }

  lemma FilterNext(info: map<NodeId, AddrInfo>, order: seq<NodeId>, tried: bool, written: seq<NodeId>, k: nat)
    requires k < |order| && (forall i, j :: 0 <= i < j < |order| ==> order[i] != order[j])
    requires Filtered(info, order[..k], tried, written) && order[k] in info
    ensures Filtered(info, order[..k + 1], tried,
                     if info[order[k]].inTried == tried then written + [order[k]] else written)
  {
    assert order[..k + 1] == order[..k] + [order[k]];
    assert order[k] !in order[..k];
    assert forall i :: 0 <= i < |written| ==> written[i] in written;
  }

  ghost function RecordsOf(info: map<NodeId, AddrInfo>, ids: seq<NodeId>): seq<Record> {
    if ids == [] then [] else
      RecordsOf(info, ids[..|ids| - 1]) +
      (if ids[|ids| - 1] in info then [RecordOf(info[ids[|ids| - 1]])] else [])
  }

  lemma RecordsNext(info: map<NodeId, AddrInfo>, ids: seq<NodeId>, id: NodeId)
    requires id in info
    ensures RecordsOf(info, ids + [id]) == RecordsOf(info, ids) + [RecordOf(info[id])]
  {
    assert (ids + [id])[..|ids|] == ids;
  }

  method SaveNews(m: AddrMan, order: seq<NodeId>)
    returns (news: seq<Record>, index: map<NodeId, int>, ghost written: seq<NodeId>)
    requires Inv(m.p, m.View(), {}, {})
    requires (forall id :: id in order <==> id in m.mapInfo)
    requires forall i, j :: 0 <= i < j < |order| ==> order[i] != order[j]
    ensures Filtered(m.mapInfo, order, false, written) && Indexed(written, index)
    ensures news == RecordsOf(m.mapInfo, written)
  {
    hide Inv, Filtered, RecordsOf, Table;
    news, index, written := [], map[], [];
    ghost var s := m.View();
    FilterStart(m.mapInfo, order, false);
    var k := 0;
    while k < |order|
      invariant 0 <= k <= |order| && Filtered(m.mapInfo, order[..k], false, written)
      invariant Indexed(written, index) && news == RecordsOf(m.mapInfo, written) && |news| == |written|
      invariant forall id :: id in index ==> id in order[..k]
    {
      var id := order[k];
      assert order[k] in order && order[..k + 1] == order[..k] + [id];
      FilterNext(m.mapInfo, order, false, written, k);
      assert id !in order[..k];
      index := index[id := |news|];
      RefCountSign(m.p, s, id);
      if m.mapInfo[id].refCount != 0 {
        RecordsNext(m.mapInfo, written, id);
        news := news + [RecordOf(m.mapInfo[id])];
        written := written + [id];
      }
      k := k + 1;
    }
    assert order[..k] == order;
  }

  lemma FilterStart(info: map<NodeId, AddrInfo>, order: seq<NodeId>, tried: bool)
    ensures Filtered(info, order[..0], tried, []) && RecordsOf(info, []) == []
  {
  }

  lemma RefCountSign(p: Params, s: State, id: NodeId)
    requires Inv(p, s, {}, {}) && id in s.info
    ensures s.info[id].refCount != 0 <==> !s.info[id].inTried
  {
    hide RandomOk, IdsOk, CountsOk, LooseOk;
  }

  method SaveTrieds(m: AddrMan, order: seq<NodeId>) returns (trieds: seq<Record>, ghost written: seq<NodeId>)
    requires (forall id :: id in order <==> id in m.mapInfo)
    requires forall i, j :: 0 <= i < j < |order| ==> order[i] != order[j]
    ensures Filtered(m.mapInfo, order, true, written)
    ensures trieds == RecordsOf(m.mapInfo, written)
  {
    hide Filtered, RecordsOf;
    trieds, written := [], [];
    FilterStart(m.mapInfo, order, true);
    var k := 0;
    while k < |order|
      invariant 0 <= k <= |order| && Filtered(m.mapInfo, order[..k], true, written)
      invariant trieds == RecordsOf(m.mapInfo, written)
    {
      var id := order[k];
      assert id in order;
      FilterNext(m.mapInfo, order, true, written, k);
      if m.mapInfo[id].inTried {
        RecordsNext(m.mapInfo, written, id);
        trieds := trieds + [RecordOf(m.mapInfo[id])];
        written := written + [id];
      }
      k := k + 1;
    }
    assert order[..k] == order;
  }

  lemma ListedIs(s: State, order: seq<NodeId>, a: seq<NodeId>, b: seq<NodeId>)
    requires forall id :: id in order <==> id in s.info
    requires Filtered(s.info, order, false, a) && Filtered(s.info, order, true, b)
    ensures Listed(s, a + b, |a|)
  {
    var all := a + b;
    assert forall j :: 0 <= j < |a| ==> all[j] in a;
    assert forall j :: |a| <= j < |all| ==> all[j] in b;
    assert forall id :: id in a || id in b ==> id in all;
  }

  lemma {:induction false} RecordsAre(s: State, all: seq<NodeId>, n: nat, lo: nat, hi: nat)
    requires Listed(s, all, n) && lo <= hi <= |all|
    ensures RecordsOf(s.info, all[lo..hi]) == Recs(s, all, n, lo, hi)
  {
    if lo < hi {
      RecordsAre(s, all, n, lo, hi - 1);
      assert all[lo..hi][..hi - lo - 1] == all[lo..hi - 1];
    }
  }

  /** As many new entries were written as the counters say, and as many tried ones. */
  lemma WrittenSizes(p: Params, s: State, order: seq<NodeId>, a: seq<NodeId>, b: seq<NodeId>)
    requires Inv(p, s, {}, {}) && forall id :: id in order <==> id in s.info
    requires Filtered(s.info, order, false, a) && Filtered(s.info, order, true, b)
    ensures |a| == s.nNew && |b| == s.nTried
  {
    hide RandomOk, IdsOk, TriedOk, NewOk, CountsOk, LooseOk;
    SizesOk(p, s);
    assert forall id :: id in a <==> id in NewIds(p, s.info, {}, None);
    assert forall id :: id in b <==> id in TriedIds(p, s.info, None);
    SeqSize(a, NewIds(p, s.info, {}, None));
    SeqSize(b, TriedIds(p, s.info, None));
  }

  lemma {:induction false} SeqSize<T>(a: seq<T>, s: set<T>)
    requires (forall x :: x in a <==> x in s) && forall i, j :: 0 <= i < j < |a| ==> a[i] != a[j]
    ensures |a| == |s|
    decreases |a|
  {
    if a == [] {
      assert s == {};
    } else {
      var x := a[|a| - 1];
      var b := a[..|a| - 1];
      assert a == b + [x];
      assert x !in b;
      SeqSize(b, s - {x});
    }
  }

  lemma RowNext(bucket: int, row: seq<int>, k: int, nNew: int)
    ensures RowRefs(bucket, row + [k], nNew) ==
            RowRefs(bucket, row, nNew) + (if 0 <= k < nNew then [Ref(bucket, k)] else [])
  {
    assert (row + [k])[..|row|] == row;
  }

  lemma BucketsNext(buckets: seq<seq<int>>, row: seq<int>, nNew: int)
    ensures AllRefs(buckets + [row], nNew) == AllRefs(buckets, nNew) + RowRefs(|buckets|, row, nNew)
  {
    assert (buckets + [row])[..|buckets|] == buckets;
  }

  method SaveBuckets(m: AddrMan, index: map<NodeId, int>, ghost all: seq<NodeId>, ghost n: nat)
    returns (buckets: seq<seq<int>>)
    requires m.Shape() && Inv(m.p, m.View(), {}, {}) && Listed(m.View(), all, n) && Indexed(all[..n], index)
    ensures |buckets| == m.p.newBuckets && SavedRefs(m.p, m.View(), all, n, AllRefs(buckets, n))
  {
    hide Inv, Listed, Covers, Table, Part, SavedRefs;
    ghost var s := m.View();
    ghost var tab := Table(m.vvNew);
    buckets := [];
    PartEnds(m.vvNew, 0);
    CoversStart(m.p, s, all, n);
    while |buckets| < m.p.newBuckets
      invariant |buckets| <= m.p.newBuckets
      invariant Covers(m.p, s, all, n, AllRefs(buckets, n), Part(tab, |buckets|, 0))
    {
      var b := |buckets|;
      var row: seq<int> := [];
      var i := 0;
      assert AllRefs(buckets, n) + RowRefs(b, row, n) == AllRefs(buckets, n);
      while i < m.p.bucketSize
        invariant 0 <= i <= m.p.bucketSize && |buckets| == b
        invariant Covers(m.p, s, all, n, AllRefs(buckets, n) + RowRefs(b, row, n), Part(tab, b, i))
      {
        Occupied(m.vvNew, Slot(b, i));
        PartNext(tab, b, i);
        if m.vvNew[b, i] != EMPTY {
          var id := NodeId(m.vvNew[b, i]);
          IndexOf(m.p, s, all, n, index, Slot(b, i));
          CoversLater(m.p, s, all, n, AllRefs(buckets, n), b, row, Part(tab, b, i), Slot(b, i), index[id]);
          row := row + [index[id]];
        }
        i := i + 1;
      }
      PartEnds(m.vvNew, b);
      BucketsNext(buckets, row, n);
      buckets := buckets + [row];
    }
    PartEnds(m.vvNew, |buckets|);
    CoversAll(m.p, s, all, n, AllRefs(buckets, n));
  }

  lemma CoversStart(p: Params, s: State, all: seq<NodeId>, n: nat)
    requires Listed(s, all, n)
    ensures Covers(p, s, all, n, [], map[])
  {
  }

  /** The index of the occupant of a slot of the new table is that of a new entry. */
  lemma IndexOf(p: Params, s: State, all: seq<NodeId>, n: nat, index: map<NodeId, int>, sl: Slot)
    requires Inv(p, s, {}, {}) && Listed(s, all, n) && Indexed(all[..n], index) && sl in s.newTab
    ensures var id := s.newTab[sl]; id in index && 0 <= index[id] < n && all[index[id]] == id
  {
    hide RandomOk, IdsOk, TriedOk, CountsOk, LooseOk;
    var id := s.newTab[sl];
    assert id in s.info && !s.info[id].inTried;
    var j :| 0 <= j < |all| && all[j] == id;
    assert all[..n][j] == id;
  }

  lemma CoversLater(p: Params, s: State, all: seq<NodeId>, n: nat, done: seq<Ref>, b: int, row: seq<int>,
                    part: map<Slot, NodeId>, sl: Slot, k: int)
    requires Inv(p, s, {}, {}) && Listed(s, all, n) && Covers(p, s, all, n, done + RowRefs(b, row, n), part)
    requires sl in s.newTab && sl !in part && 0 <= k < n && all[k] == s.newTab[sl] && sl.bucket == b
    ensures Covers(p, s, all, n, done + RowRefs(b, row + [k], n), part[sl := s.newTab[sl]])
  {
    hide RandomOk, IdsOk, TriedOk, CountsOk, LooseOk, NewOk, Covers, Listed;
    var none: set<NodeId> := {};
    assert none + none == none;
    RowNext(b, row, k, n);
    CoversNext(p, s, all, n, done + RowRefs(b, row, n), part, sl, k);
    assert done + RowRefs(b, row + [k], n) == done + RowRefs(b, row, n) + [Ref(b, k)];
  }

  /** The file of an address manager. */
  method Serialize(m: AddrMan) returns (f: File, ghost all: seq<NodeId>)
    requires m.Shape() && Inv(m.p, m.View(), {}, {})
    ensures Saved(m.p, m.View(), f, all)
    ensures exists order :: Saved(m.p, m.View(), f, order)
  {
    hide Inv, Filtered, RecordsOf, Table, Listed, Recs, SavedRefs, AllRefs;
    ghost var s := m.View();
    var order := Enumerate(m);
    var news, index, a := SaveNews(m, order);
    var trieds, b := SaveTrieds(m, order);
    all := a + b;
    WrittenSizes(m.p, s, order, a, b);
    ListedIs(s, order, a, b);
    assert all[..|a|] == a && all[0..|a|] == a && all[|a|..|all|] == b;
    RecordsAre(s, all, |a|, 0, |a|);
    RecordsAre(s, all, |a|, |a|, |all|);
    var buckets := SaveBuckets(m, index, all, |a|);
    f := File(FILE_FORMAT, INCOMPATIBILITY_BASE + FILE_FORMAT, m.nKey, m.nNew, m.nTried, Mark(m.p.newBuckets),
              news, trieds, buckets, m.p.asmapChecksum);
  }
}
