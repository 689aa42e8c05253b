/** The run-time consistency check of the address manager: which states it accepts, exactly, and how
    that compares with the invariant. */
module AddrManCheck {
  import opened AddrManObject
  import opened AddrManOps
  import opened AddrManRuns
  import opened AddrManSpec
  import opened AddrManSteps
  import opened Options

  predicate EntryChecked(i: AddrInfo, id: NodeId, ids: map<Service, NodeId>, random: seq<NodeId>) {
    && (if i.inTried then i.lastSuccess != 0 && i.refCount == 0
        else 0 < i.refCount <= NEW_BUCKETS_PER_ADDRESS)
    && i.addr in ids && ids[i.addr] == id
    && 0 <= i.randomPos < |random| && random[i.randomPos] == id
    && 0 <= i.lastTry && 0 <= i.lastSuccess
  }

  function Nets(p: Params, info: map<NodeId, AddrInfo>): set<Network> {
    set id | id in info :: p.network(info[id].addr)
  }

  ghost predicate EntriesChecked(s: State) {
    forall id :: id in s.info ==> EntryChecked(s.info[id], id, s.ids, s.random)
  }

  /** Every occupied tried slot holds a tried entry in its slot, and no tried entry is missing. */
  ghost predicate TriedChecked(p: Params, s: State) {
    && (forall sl :: sl in s.triedTab ==> SeatedRight(p, s.key, s.info, sl, s.triedTab[sl]))
    && (forall id :: id in s.info && s.info[id].inTried ==> Holds(s.triedTab, id))
  }

  ghost predicate Holds(tab: map<Slot, NodeId>, id: NodeId) {
    exists sl :: sl in tab && tab[sl] == id
  }

  ghost predicate NewChecked(p: Params, s: State) {
    && (forall sl :: sl in s.newTab ==> PlacedRight(p, s.key, s.info, sl, s.newTab[sl]))
    && (forall id :: id in s.info && !s.info[id].inTried ==> |SlotsOf(s.newTab, id)| == s.info[id].refCount)
  }

  predicate SeatedRight(p: Params, key: int, info: map<NodeId, AddrInfo>, sl: Slot, id: NodeId) {
    id in info && info[id].inTried && sl == TriedSlot(p, key, info[id].addr)
  }

  predicate PlacedRight(p: Params, key: int, info: map<NodeId, AddrInfo>, sl: Slot, id: NodeId) {
    id in info && !info[id].inTried && sl == NewSlotIn(p, key, info[id].addr, sl.bucket)
  }

  /** The check compares the number of networks and the counters that exist; it does not ask whether
      every network with entries has a counter. */
  ghost predicate NetsChecked(p: Params, s: State) {
    && |Nets(p, s.info)| <= |s.counts|
    && forall net :: net in s.counts ==> s.counts[net] == TrueCount(p, s.info, net)
  }

  function TrueCount(p: Params, info: map<NodeId, AddrInfo>, net: Network): Count {
    Count(|NewIds(p, info, {}, Some(net))|, |TriedIds(p, info, Some(net))|)
  }

  /** The states for which the check returns 0. */
  ghost predicate Checked(p: Params, s: State) {
    && |s.random| == s.nTried + s.nNew
    && EntriesChecked(s)
    && |TriedIds(p, s.info, None)| == s.nTried && |NewIds(p, s.info, {}, None)| == s.nNew
    && TriedChecked(p, s)
    && NewChecked(p, s)
    && s.key != 0
    && NetsChecked(p, s)
  }

  // ---------------------------------------------------------------- what each code stands for

  ghost predicate TriedFault(p: Params, s: State, code: int) {
    match code
    case -11 => exists sl :: sl in s.triedTab && (!IsTried(s.info, s.triedTab[sl]) || Twice(s.triedTab, sl))
    case -17 => exists sl :: sl in s.triedTab && IsTried(s.info, s.triedTab[sl]) &&
                             TriedSlot(p, s.key, s.info[s.triedTab[sl]].addr).bucket != sl.bucket
    case -18 => exists sl :: sl in s.triedTab && IsTried(s.info, s.triedTab[sl]) &&
                             TriedSlot(p, s.key, s.info[s.triedTab[sl]].addr).bucket == sl.bucket &&
                             TriedSlot(p, s.key, s.info[s.triedTab[sl]].addr).pos != sl.pos
    case -13 => AllSeated(p, s) && exists id :: IsTried(s.info, id) && !Holds(s.triedTab, id)
    case _ => false
  }

  ghost predicate Twice(tab: map<Slot, NodeId>, sl: Slot)
    requires sl in tab
  {
    exists x :: x in tab && x != sl && tab[x] == tab[sl]
  }

  ghost predicate AllSeated(p: Params, s: State) {
    forall sl :: sl in s.triedTab ==> SeatedRight(p, s.key, s.info, sl, s.triedTab[sl])
  }

  ghost predicate NewFault(p: Params, s: State, code: int) {
    match code
    case -12 => exists sl :: sl in s.newTab && (!IsNew(s.info, s.newTab[sl]) || Crowded(s, s.newTab[sl]))
    case -19 => exists sl :: sl in s.newTab && IsNew(s.info, s.newTab[sl]) &&
                             BucketPos(p, s.key, true, sl.bucket, s.info[s.newTab[sl]].addr) != sl.pos
    case -15 => AllPlaced(p, s) && exists id :: IsNew(s.info, id) && |SlotsOf(s.newTab, id)| < s.info[id].refCount
    case _ => false
  }

  predicate IsNew(info: map<NodeId, AddrInfo>, id: NodeId) {
    id in info && !info[id].inTried
  }

  predicate Crowded(s: State, id: NodeId)
    requires id in s.info
  {
    |SlotsOf(s.newTab, id)| > s.info[id].refCount
  }

  ghost predicate AllPlaced(p: Params, s: State) {
    forall sl :: sl in s.newTab ==>
      PlacedRight(p, s.key, s.info, sl, s.newTab[sl]) && !Crowded(s, s.newTab[sl])
  }

  ghost predicate NetsFault(p: Params, s: State, code: int) {
    match code
    case -20 => |s.counts| < |Nets(p, s.info)|
    case -21 => |Nets(p, s.info)| <= |s.counts| &&
        exists net :: net in s.counts && s.counts[net] != TrueCount(p, s.info, net)
    case _ => false
  }

  /** The faults of the tables, in the order in which they are found. */
  ghost predicate TableFault(p: Params, s: State, code: int) {
    || (code != -13 && TriedFault(p, s, code))
    || (AllSeated(p, s) &&
        (|| (code != -15 && NewFault(p, s, code))
         || (AllPlaced(p, s) &&
             (|| (code == -13 && TriedFault(p, s, code))
              || (TriedChecked(p, s) &&
                  (|| (code == -15 && NewFault(p, s, code))
                   || (NewChecked(p, s) && (if s.key == 0 then code == -16 else NetsFault(p, s, code)))))))))
  }

  /** The fault that a code reports, and that no earlier part of the check had anything to report. */
  ghost predicate Fault(p: Params, s: State, code: int) {
    if |s.random| != s.nTried + s.nNew then code == -7
    else if !EntriesChecked(s) then code != 0 &&
        exists id :: id in s.info && EntryCode(s.info[id], id, s.ids, s.random) == code
    else if |TriedIds(p, s.info, None)| != s.nTried then code == -9
    else if |NewIds(p, s.info, {}, None)| != s.nNew then code == -10
    else TableFault(p, s, code)
  }

  // ---------------------------------------------------------------- the scan of a table

  predicate Before(sl: Slot, n: int, i: int) {
    sl.bucket < n || (sl.bucket == n && sl.pos < i)
  }

  /** The slots the nested loops have passed when they are about to look at slot (n, i). */
  function Part(tab: map<Slot, NodeId>, n: int, i: int): map<Slot, NodeId> {
    map sl | sl in tab && Before(sl, n, i) :: tab[sl]
  }

  lemma PartNext(tab: map<Slot, NodeId>, n: int, i: int)
    ensures Slot(n, i) !in Part(tab, n, i)
    ensures Part(tab, n, i + 1) ==
            if Slot(n, i) in tab then Part(tab, n, i)[Slot(n, i) := tab[Slot(n, i)]] else Part(tab, n, i)
  {
    forall sl ensures sl in Part(tab, n, i + 1) <==> sl in Part(tab, n, i) || (sl == Slot(n, i) && sl in tab) {
      assert sl == Slot(sl.bucket, sl.pos);
    }
  }

  lemma PartEnds(a: array2<int>, n: int)
    ensures Part(Table(a), 0, 0) == map[]
    ensures Part(Table(a), n, a.Length1) == Part(Table(a), n + 1, 0)
    ensures Part(Table(a), a.Length0, 0) == Table(a)
  {
  }

  // ---------------------------------------------------------------- the tried table

  ghost predicate TriedScan(p: Params, key: int, info: map<NodeId, AddrInfo>, part: map<Slot, NodeId>,
                            left: set<NodeId>) {
    && (forall sl :: sl in part ==> SeatedRight(p, key, info, sl, part[sl]))
    && (forall id :: id in left <==> id in info && info[id].inTried && !Holds(part, id))
  }

  lemma TriedScanStep(p: Params, key: int, info: map<NodeId, AddrInfo>, part: map<Slot, NodeId>, left: set<NodeId>,
                      sl: Slot, id: NodeId)
    requires TriedScan(p, key, info, part, left) && sl !in part
    ensures SeatedRight(p, key, info, sl, id) ==> id in left && TriedScan(p, key, info, part[sl := id], left - {id})
  {
    if SeatedRight(p, key, info, sl, id) {
      var next := part[sl := id];
      forall y ensures Holds(next, y) <==> Holds(part, y) || y == id {
        if Holds(part, y) {
          var x :| x in part && part[x] == y;
          assert x in next && next[x] == y;
        }
        assert sl in next && next[sl] == id;
      }
    }
  }

  method CheckTried(m: AddrMan, tried: set<NodeId>) returns (code: int)
    requires m.Shape() && tried == TriedIds(m.p, m.mapInfo, None)
    ensures code == 0 <==> TriedChecked(m.p, m.View())
    ensures code != 0 ==> TriedFault(m.p, m.View(), code)
  {
    hide TriedScan, Table, Part, TriedSlot, TriedFault;
    ghost var tab := Table(m.vvTried);
    ghost var key, info := m.nKey, m.mapInfo;
    var left := tried;
    PartEnds(m.vvTried, 0);
    TriedScanStart(m.p, key, info, tried);
    var n := 0;
    while n < m.p.triedBuckets
      invariant 0 <= n <= m.p.triedBuckets && TriedScan(m.p, key, info, Part(tab, n, 0), left)
    {
      var i := 0;
      while i < m.p.bucketSize
        invariant 0 <= i <= m.p.bucketSize && TriedScan(m.p, key, info, Part(tab, n, i), left)
      {
        var sl := Slot(n, i);
        Occupied(m.vvTried, sl);
        PartNext(tab, n, i);
        if m.vvTried[n, i] != EMPTY {
          var id := NodeId(m.vvTried[n, i]);
          TriedScanStep(m.p, key, info, Part(tab, n, i), left, sl, id);
          if id !in left || id !in m.mapInfo {
            SeatedWrong(m.p, m.View(), sl);
            NotLeft(m.p, m.View(), n, i, left, id);
            return -11;
          }
          LeftTried(m.p, key, info, Part(tab, n, i), left, id);
          var own := TriedSlot(m.p, m.nKey, m.mapInfo[id].addr);
          if own.bucket != n || own.pos != i {
            SeatedWrong(m.p, m.View(), sl);
            OutOfSeat(m.p, m.View(), sl);
            return if own.bucket != n then -17 else -18;
          }
          left := left - {id};
        }
        i := i + 1;
      }
      PartEnds(m.vvTried, n);
      n := n + 1;
    }
    PartEnds(m.vvTried, n);
    TriedScanEnd(m.p, m.View(), left);
    return if left == {} then 0 else -13;
  }

  /** A slot of an entry that is not left: it is no tried entry, or it was seen before. */
  lemma NotLeft(p: Params, s: State, n: int, i: int, left: set<NodeId>, id: NodeId)
    requires TriedScan(p, s.key, s.info, Part(s.triedTab, n, i), left) && (id !in left || id !in s.info)
    requires Slot(n, i) in s.triedTab && s.triedTab[Slot(n, i)] == id
    ensures TriedFault(p, s, -11)
  {
    var sl := Slot(n, i);
    if IsTried(s.info, id) {
      var x :| x in Part(s.triedTab, n, i) && Part(s.triedTab, n, i)[x] == id;
      assert x in s.triedTab && x != sl && s.triedTab[x] == s.triedTab[sl];
    }
  }

  lemma OutOfSeat(p: Params, s: State, sl: Slot)
    requires sl in s.triedTab && IsTried(s.info, s.triedTab[sl])
    ensures var own := TriedSlot(p, s.key, s.info[s.triedTab[sl]].addr);
            && (own.bucket != sl.bucket ==> TriedFault(p, s, -17))
            && (own.bucket == sl.bucket && own.pos != sl.pos ==> TriedFault(p, s, -18))
  {
    hide TriedSlot;
  }

  lemma LeftTried(p: Params, key: int, info: map<NodeId, AddrInfo>, part: map<Slot, NodeId>, left: set<NodeId>,
                  id: NodeId)
    requires TriedScan(p, key, info, part, left) && id in left
    ensures id in info && info[id].inTried
  {
  }

  lemma SeatedWrong(p: Params, s: State, sl: Slot)
    requires sl in s.triedTab && !SeatedRight(p, s.key, s.info, sl, s.triedTab[sl])
    ensures !TriedChecked(p, s)
  {
  }

  lemma TriedScanStart(p: Params, key: int, info: map<NodeId, AddrInfo>, tried: set<NodeId>)
    requires tried == TriedIds(p, info, None)
    ensures TriedScan(p, key, info, map[], tried)
  {
  }

  lemma TriedScanEnd(p: Params, s: State, left: set<NodeId>)
    requires TriedScan(p, s.key, s.info, s.triedTab, left)
    ensures left == {} <==> TriedChecked(p, s)
    ensures left != {} ==> TriedFault(p, s, -13)
  {
    hide SeatedRight;
    if left != {} {
      var id :| id in left;
      assert IsTried(s.info, id) && !Holds(s.triedTab, id);
    }
  }

  // ---------------------------------------------------------------- the new table

  /** `left` holds, for each new entry with slots still to come, how many. */
  ghost predicate NewScan(p: Params, key: int, info: map<NodeId, AddrInfo>, part: map<Slot, NodeId>,
                          left: map<NodeId, int>) {
    && (forall sl :: sl in part ==> PlacedRight(p, key, info, sl, part[sl]))
    && (forall id :: id in left <==> id in info && !info[id].inTried && |SlotsOf(part, id)| != info[id].refCount)
    && (forall id :: id in left ==> id in info && left[id] == info[id].refCount - |SlotsOf(part, id)| > 0)
  }

  function Less(left: map<NodeId, int>, id: NodeId): map<NodeId, int>
    requires id in left
  {
    if left[id] == 1 then left - {id} else left[id := left[id] - 1]
  }

  lemma NewScanStep(p: Params, key: int, info: map<NodeId, AddrInfo>, part: map<Slot, NodeId>, left: map<NodeId, int>,
                    sl: Slot, id: NodeId)
    requires NewScan(p, key, info, part, left) && sl !in part
    ensures PlacedRight(p, key, info, sl, id) && id in left ==> NewScan(p, key, info, part[sl := id], Less(left, id))
  {
    hide PlacedRight;
    SlotsWith(part, sl, id);
  }

  /** A slot of a new entry whose references have all been seen: the entry has too many slots. */
  lemma TooMany(p: Params, s: State, n: int, i: int, left: map<NodeId, int>, id: NodeId)
    requires NewScan(p, s.key, s.info, Part(s.newTab, n, i), left)
    requires Slot(n, i) in s.newTab && s.newTab[Slot(n, i)] == id && id !in left
    ensures !NewChecked(p, s) && NewFault(p, s, -12)
  {
    hide PlacedRight;
    var part := Part(s.newTab, n, i);
    var sl := Slot(n, i);
    if IsNew(s.info, id) {
      assert SlotsOf(part, id) + {sl} <= SlotsOf(s.newTab, id);
      Subset(SlotsOf(part, id) + {sl}, SlotsOf(s.newTab, id));
      assert Crowded(s, s.newTab[sl]);
    } else {
      NotPlaced(p, s, sl);
    }
  }

  lemma NotPlaced(p: Params, s: State, sl: Slot)
    requires sl in s.newTab && !IsNew(s.info, s.newTab[sl])
    ensures !NewChecked(p, s)
  {
  }

  lemma OutOfPlace(p: Params, s: State, sl: Slot)
    requires sl in s.newTab && IsNew(s.info, s.newTab[sl])
    requires BucketPos(p, s.key, true, sl.bucket, s.info[s.newTab[sl]].addr) != sl.pos
    ensures NewFault(p, s, -19)
  {
    hide BucketPos;
  }

  lemma LeftNew(p: Params, key: int, info: map<NodeId, AddrInfo>, part: map<Slot, NodeId>, left: map<NodeId, int>,
                id: NodeId)
    requires NewScan(p, key, info, part, left) && id in left
    ensures id in info && !info[id].inTried
  {
  }

  lemma PlacedWrong(p: Params, s: State, sl: Slot)
    requires sl in s.newTab && !PlacedRight(p, s.key, s.info, sl, s.newTab[sl])
    ensures !NewChecked(p, s)
  {
  }

  method CheckNew(m: AddrMan, refs: map<NodeId, int>) returns (code: int)
    requires m.Shape() && EntriesChecked(m.View())
    requires refs == map id | id in m.mapInfo && !m.mapInfo[id].inTried :: m.mapInfo[id].refCount
    ensures code == 0 <==> NewChecked(m.p, m.View())
    ensures code != 0 ==> NewFault(m.p, m.View(), code)
  {
    hide NewScan, Table, Part, BucketPos, NewChecked, NewFault;
    ghost var tab := Table(m.vvNew);
    ghost var key, info := m.nKey, m.mapInfo;
    var left := refs;
    PartEnds(m.vvNew, 0);
    NewScanStart(m.p, m.View(), refs);
    hide EntriesChecked;
    var n := 0;
    while n < m.p.newBuckets
      invariant 0 <= n <= m.p.newBuckets && NewScan(m.p, key, info, Part(tab, n, 0), left)
    {
      var i := 0;
      while i < m.p.bucketSize
        invariant 0 <= i <= m.p.bucketSize && NewScan(m.p, key, info, Part(tab, n, i), left)
      {
        var sl := Slot(n, i);
        Occupied(m.vvNew, sl);
        PartNext(tab, n, i);
        if m.vvNew[n, i] != EMPTY {
          var id := NodeId(m.vvNew[n, i]);
          NewScanStep(m.p, key, info, Part(tab, n, i), left, sl, id);
          if id !in left {
            TooMany(m.p, m.View(), n, i, left, id);
            return -12;
          }
          LeftNew(m.p, key, info, Part(tab, n, i), left, id);
          if BucketPos(m.p, m.nKey, true, n, m.mapInfo[id].addr) != i {
            PlacedWrong(m.p, m.View(), sl);
            OutOfPlace(m.p, m.View(), sl);
            return -19;
          }
          left := Less(left, id);
        }
        i := i + 1;
      }
      PartEnds(m.vvNew, n);
      n := n + 1;
    }
    PartEnds(m.vvNew, n);
    NewScanEnd(m.p, m.View(), left);
    return if left == map[] then 0 else -15;
  }

  lemma NewScanStart(p: Params, s: State, refs: map<NodeId, int>)
    requires EntriesChecked(s)
    requires refs == map id | id in s.info && !s.info[id].inTried :: s.info[id].refCount
    ensures NewScan(p, s.key, s.info, map[], refs)
  {
    forall id ensures SlotsOf(map[], id) == {} {}
  }

  lemma NewScanEnd(p: Params, s: State, left: map<NodeId, int>)
    requires NewScan(p, s.key, s.info, s.newTab, left)
    ensures left == map[] <==> NewChecked(p, s)
    ensures left != map[] ==> NewFault(p, s, -15)
  {
    if id :| id in left {
      assert left != map[] && IsNew(s.info, id) && |SlotsOf(s.newTab, id)| < s.info[id].refCount;
      forall sl | sl in s.newTab ensures !Crowded(s, s.newTab[sl]) {
        assert PlacedRight(p, s.key, s.info, sl, s.newTab[sl]);
      }
    }
  }

  // ---------------------------------------------------------------- the entries

  function EntryCode(i: AddrInfo, id: NodeId, ids: map<Service, NodeId>, random: seq<NodeId>): (code: int)
    ensures code == 0 <==> EntryChecked(i, id, ids, random)
  {
    if i.inTried && i.lastSuccess == 0 then -1
    else if i.inTried && i.refCount != 0 then -2
    else if !i.inTried && (i.refCount < 0 || i.refCount > NEW_BUCKETS_PER_ADDRESS) then -3
    else if !i.inTried && i.refCount == 0 then -4
    else if i.addr !in ids || ids[i.addr] != id then -5
    else if i.randomPos < 0 || i.randomPos >= |random| || random[i.randomPos] != id then -14
    else if i.lastTry < 0 then -6
    else if i.lastSuccess < 0 then -8
    else 0
  }

  /** The entries the loop has passed. */
  function Done(info: map<NodeId, AddrInfo>, rest: set<NodeId>): map<NodeId, AddrInfo> {
    map id | id in info && id !in rest :: info[id]
  }

  /** What the loop has collected from the entries in `done`. */
  ghost predicate Collected(p: Params, done: map<NodeId, AddrInfo>, tried: set<NodeId>, refs: map<NodeId, int>,
                            local: map<Network, Count>) {
    && tried == TriedIds(p, done, None)
    && refs == (map id | id in done && !done[id].inTried :: done[id].refCount)
    && local.Keys == Nets(p, done)
    && CountsOk(p, done, |NewIds(p, done, {}, None)|, |TriedIds(p, done, None)|, local, {})
  }

  lemma CollectNone(p: Params, info: map<NodeId, AddrInfo>)
    ensures Done(info, info.Keys) == map[]
    ensures Collected(p, map[], {}, map[], map[])
  {
    var none: map<NodeId, AddrInfo> := map[];
    forall net ensures NewIds(p, none, {}, net) == {} && TriedIds(p, none, net) == {} {}
  }

  lemma CollectOne(p: Params, done: map<NodeId, AddrInfo>, id: NodeId, i: AddrInfo,
                   tried: set<NodeId>, refs: map<NodeId, int>, local: map<Network, Count>)
    requires Collected(p, done, tried, refs, local) && id !in done
    ensures i.inTried ==> Collected(p, done[id := i], tried + {id}, refs, Bump(local, p.network(i.addr), 0, 1))
    ensures !i.inTried ==>
              Collected(p, done[id := i], tried, refs[id := i.refCount], Bump(local, p.network(i.addr), 1, 0))
  {
    hide CountsOk, NewIds, TriedIds;
    var d := done[id := i];
    CountsStep(p, done, d, {}, {}, id, p.network(i.addr), |NewIds(p, done, {}, None)|, |TriedIds(p, done, None)|,
               local, One(!i.inTried), One(i.inTried));
    NetsOne(p, done, id, i);
    CollectIds(p, done, id, i);
    CollectRefs(done, id, i, refs);
    assert tried + {} == tried;
  }

  lemma CollectRefs(done: map<NodeId, AddrInfo>, id: NodeId, i: AddrInfo, refs: map<NodeId, int>)
    requires id !in done && refs == map x | x in done && !done[x].inTried :: done[x].refCount
    ensures var d := done[id := i];
            (if i.inTried then refs else refs[id := i.refCount]) == map x | x in d && !d[x].inTried :: d[x].refCount
  {
  }

  lemma CollectIds(p: Params, done: map<NodeId, AddrInfo>, id: NodeId, i: AddrInfo)
    requires id !in done
    ensures TriedIds(p, done[id := i], None) == TriedIds(p, done, None) + (if i.inTried then {id} else {})
    ensures |TriedIds(p, done[id := i], None)| == |TriedIds(p, done, None)| + One(i.inTried)
    ensures |NewIds(p, done[id := i], {}, None)| == |NewIds(p, done, {}, None)| + One(!i.inTried)
  {
    Retally(p, done, done[id := i], {}, {}, id);
  }

  lemma NetsOne(p: Params, done: map<NodeId, AddrInfo>, id: NodeId, i: AddrInfo)
    requires id !in done
    ensures Nets(p, done[id := i]) == Nets(p, done) + {p.network(i.addr)}
  {
    var d := done[id := i];
    forall x | x in done ensures p.network(done[x].addr) in Nets(p, d) {
      assert x in d && d[x] == done[x];
    }
    assert id in d && d[id] == i;
  }

  method CheckEntries(m: AddrMan)
    returns (code: int, tried: set<NodeId>, refs: map<NodeId, int>, local: map<Network, Count>)
    ensures code == 0 <==> EntriesChecked(m.View())
    ensures code == 0 ==> Collected(m.p, m.mapInfo, tried, refs, local)
    ensures code != 0 ==> exists id :: id in m.mapInfo && EntryCode(m.mapInfo[id], id, m.mapAddr, m.vRandom) == code
  {
    hide Table, EntryChecked, EntryCode, Collected, Bump;
    tried, refs, local := {}, map[], map[];
    var rest := m.mapInfo.Keys;
    CollectNone(m.p, m.mapInfo);
    while rest != {}
      invariant rest <= m.mapInfo.Keys
      invariant Collected(m.p, Done(m.mapInfo, rest), tried, refs, local)
      invariant forall id :: id in m.mapInfo && id !in rest ==> EntryChecked(m.mapInfo[id], id, m.mapAddr, m.vRandom)
      decreases |rest|
    {
      var id :| id in rest;
      var i := m.mapInfo[id];
      code := EntryCode(i, id, m.mapAddr, m.vRandom);
      if code != 0 { return; }
      CollectOne(m.p, Done(m.mapInfo, rest), id, i, tried, refs, local);
      assert Done(m.mapInfo, rest - {id}) == Done(m.mapInfo, rest)[id := i];
      if i.inTried {
        tried := tried + {id};
        local := Bump(local, m.p.network(i.addr), 0, 1);
      } else {
        refs := refs[id := i.refCount];
        local := Bump(local, m.p.network(i.addr), 1, 0);
      }
      rest := rest - {id};
    }
    assert Done(m.mapInfo, {}) == m.mapInfo;
    code := 0;
  }

  // ---------------------------------------------------------------- the counters, and the whole check

  method CheckNetworks(m: AddrMan, tried: set<NodeId>, refs: map<NodeId, int>, local: map<Network, Count>)
    returns (code: int)
    requires Collected(m.p, m.mapInfo, tried, refs, local)
    ensures code == 0 <==> NetsChecked(m.p, m.View())
    ensures code != 0 ==> NetsFault(m.p, m.View(), code)
  {
    hide Table, NewIds, TriedIds;
    assert |local| == |local.Keys|;
    if |m.networkCounts| < |local| { return -20; }
    var rest := m.networkCounts.Keys;
    while rest != {}
      invariant rest <= m.networkCounts.Keys
      invariant forall net :: net in m.networkCounts && net !in rest ==>
                  m.networkCounts[net] == TrueCount(m.p, m.mapInfo, net)
      decreases |rest|
    {
      var net :| net in rest;
      assert CountOf(local, net) == TrueCount(m.p, m.mapInfo, net);
      if CountOf(local, net) != m.networkCounts[net] { return -21; }
      rest := rest - {net};
    }
    return 0;
  }

  /** The consistency check. Each code names the first fault; which of several bad entries it comes from is
      open, since they are visited in any order. */
  method CheckAddrman(m: AddrMan) returns (code: int)
    requires m.Shape()
    ensures code == 0 <==> Checked(m.p, m.View())
    ensures code != 0 ==> Fault(m.p, m.View(), code)
  {
    hide Table, EntriesChecked, TriedChecked, NewChecked, NetsChecked, NewIds, TriedIds, CountsOk, Nets, EntryCode,
      TriedFault, NewFault, NetsFault, AllSeated, AllPlaced;
    if |m.vRandom| != m.nTried + m.nNew { return -7; }
    var e, tried, refs, local := CheckEntries(m);
    if e != 0 { return e; }
    RefsSize(m.p, m.mapInfo, refs);
    if |tried| != m.nTried { return -9; }
    if |refs| != m.nNew { return -10; }
    var t := CheckTried(m, tried);
    if t != 0 && t != -13 { return t; }
    Seated(m.p, m.View(), t);
    var n := CheckNew(m, refs);
    if n != 0 && n != -15 { return n; }
    Placed(m.p, m.View(), n);
    if t != 0 { return t; }
    if n != 0 { return n; }
    if m.nKey == 0 { return -16; }
    code := CheckNetworks(m, tried, refs, local);
  }

  lemma Seated(p: Params, s: State, t: int)
    requires if t == 0 then TriedChecked(p, s) else t == -13 && TriedFault(p, s, t)
    ensures AllSeated(p, s)
  {
  }

  lemma Placed(p: Params, s: State, n: int)
    requires if n == 0 then NewChecked(p, s) else n == -15 && NewFault(p, s, n)
    ensures AllPlaced(p, s)
  {
  }

  lemma RefsSize(p: Params, info: map<NodeId, AddrInfo>, refs: map<NodeId, int>)
    requires refs == map id | id in info && !info[id].inTried :: info[id].refCount
    ensures |refs| == |NewIds(p, info, {}, None)|
  {
    assert refs.Keys == NewIds(p, info, {}, None);
    assert |refs| == |refs.Keys|;
  }

  // ---------------------------------------------------------------- against the invariant

  lemma RandomSize(info: map<NodeId, AddrInfo>, random: seq<NodeId>)
    requires RandomOk(info, random)
    ensures |random| == |info|
    decreases |random|
  {
    if random == [] {
      assert info == map[];
    } else {
      var id := random[|random| - 1];
      RandomPop(info, random);
      RandomSize(info - {id}, random[..|random| - 1]);
      assert info.Keys == (info - {id}).Keys + {id};
      assert |info| == |info.Keys| && |info - {id}| == |(info - {id}).Keys|;
    }
  }

  lemma TwoKinds(p: Params, info: map<NodeId, AddrInfo>)
    ensures |info| == |NewIds(p, info, {}, None)| + |TriedIds(p, info, None)|
  {
    var a, b := NewIds(p, info, {}, None), TriedIds(p, info, None);
    assert info.Keys == a + b && a !! b;
    assert |info| == |info.Keys|;
  }

  /** After every run at positive times the check returns 0. */
  lemma SoundIsChecked(p: Params, s: State)
    requires Inv(p, s, {}, {}) && TimesOk(s.info) && s.key != 0
    ensures Checked(p, s)
  {
    hide RandomOk, IdsOk, TriedOk, NewOk, CountsOk, TimesOk, EntriesChecked, TriedChecked, NewChecked, NetsChecked;
    var none: set<NodeId> := {};
    assert none + none == none;
    RandomSize(s.info, s.random);
    TwoKinds(p, s.info);
    SizesOk(p, s);
    EntriesOk(p, s);
    TablesOk(p, s);
    NetsOk(p, s);
  }

  lemma SizesOk(p: Params, s: State)
    requires CountsOk(p, s.info, s.nNew, s.nTried, s.counts, {})
    ensures s.nNew == |NewIds(p, s.info, {}, None)| && s.nTried == |TriedIds(p, s.info, None)|
  {
  }

  lemma EntriesOk(p: Params, s: State)
    requires RandomOk(s.info, s.random) && IdsOk(s.info, s.ids, s.idCount) && TimesOk(s.info)
    requires TriedOk(p, s.key, s.info, s.triedTab) && NewOk(p, s.key, s.info, s.newTab, {})
    ensures EntriesChecked(s)
  {
  }

  lemma TablesOk(p: Params, s: State)
    requires TriedOk(p, s.key, s.info, s.triedTab) && NewOk(p, s.key, s.info, s.newTab, {})
    ensures TriedChecked(p, s) && NewChecked(p, s)
  {
    forall id | id in s.info && s.info[id].inTried ensures Holds(s.triedTab, id) {
      assert s.triedTab[TriedSlot(p, s.key, s.info[id].addr)] == id;
    }
  }

  lemma NetsOk(p: Params, s: State)
    requires CountsOk(p, s.info, s.nNew, s.nTried, s.counts, {})
    ensures NetsChecked(p, s) && Nets(p, s.info) <= s.counts.Keys
  {
    hide NewIds, TriedIds;
    forall id | id in s.info ensures p.network(s.info[id].addr) in s.counts {
      var net := p.network(s.info[id].addr);
      CountedNet(p, s.info, id, net);
      assert CountOf(s.counts, net) != Count(0, 0);
    }
    Subset(Nets(p, s.info), s.counts.Keys);
    assert |s.counts| == |s.counts.Keys|;
  }

  lemma CountedNet(p: Params, info: map<NodeId, AddrInfo>, id: NodeId, net: Network)
    requires id in info && p.network(info[id].addr) == net
    ensures TrueCount(p, info, net) != Count(0, 0)
  {
    assert id in NewIds(p, info, {}, Some(net)) || id in TriedIds(p, info, Some(net));
  }

  // The other way round: what the check does not look at.

  function Range(n: nat): (r: set<int>)
    ensures |r| == n && forall k :: k in r <==> 0 <= k < n
  {
    if n == 0 then {} else Range(n - 1) + {n - 1}
  }

  function Positions(info: map<NodeId, AddrInfo>): set<int> {
    set id | id in info :: info[id].randomPos
  }

  /** Entries at different positions have as many positions as there are entries. */
  lemma {:induction false} PositionsSize(info: map<NodeId, AddrInfo>)
    requires forall a, b :: a in info && b in info && a != b ==> info[a].randomPos != info[b].randomPos
    ensures |Positions(info)| == |info|
    decreases |info|
  {
    if info == map[] {
      assert Positions(info) == {};
    } else {
      var id :| id in info;
      var r := info - {id};
      assert info.Keys == r.Keys + {id} && |info| == |info.Keys| && |r| == |r.Keys|;
      PositionsSize(r);
      PositionsWithout(info, id);
    }
  }

  lemma PositionsWithout(info: map<NodeId, AddrInfo>, id: NodeId)
    requires id in info
    requires forall a, b :: a in info && b in info && a != b ==> info[a].randomPos != info[b].randomPos
    ensures Positions(info) == Positions(info - {id}) + {info[id].randomPos}
    ensures info[id].randomPos !in Positions(info - {id})
  {
    var r := info - {id};
    forall x | x in Positions(info) ensures x in Positions(r) + {info[id].randomPos} {
      var y :| y in info && info[y].randomPos == x;
      if y != id { assert y in r && r[y].randomPos == x; }
    }
  }

  /** As many entries as places in `random`, each at its own place: every place is taken. */
  lemma Surjective(info: map<NodeId, AddrInfo>, random: seq<NodeId>)
    requires |random| == |info|
    requires forall id :: id in info ==> 0 <= info[id].randomPos < |random| && random[info[id].randomPos] == id
    ensures RandomOk(info, random)
  {
    PositionsSize(info);
    var all := Range(|random|);
    assert Positions(info) <= all;
    assert all == Positions(info) + (all - Positions(info));
    assert Positions(info) == all;
    forall k | 0 <= k < |random| ensures random[k] in info && info[random[k]].randomPos == k {
      assert k in Positions(info);
      var id :| id in info && info[id].randomPos == k;
    }
  }

  /** What an accepted state must still satisfy to be consistent: the index by address has no stale
      keys and every network with entries has a counter. */
  ghost predicate Unchecked(p: Params, s: State) {
    && 0 <= s.idCount && (forall id :: id in s.info ==> 0 <= id.n < s.idCount)
    && (forall a :: a in s.ids ==> s.ids[a] in s.info && s.info[s.ids[a]].addr == a)
    && (forall sl :: sl in s.newTab ==> 0 <= sl.bucket < p.newBuckets)
    && Nets(p, s.info) <= s.counts.Keys
  }

  lemma CheckedBack(p: Params, s: State)
    requires Checked(p, s) && Unchecked(p, s)
    ensures Inv(p, s, {}, {}) && TimesOk(s.info)
  {
    hide RandomOk, IdsOk, TriedOk, NewOk, CountsOk, TimesOk, EntriesChecked, TriedChecked, NewChecked, NetsChecked,
      NewIds, TriedIds;
    var none: set<NodeId> := {};
    assert none + none == none;
    TwoKinds(p, s.info);
    EntriesBack(p, s);
    TablesBack(p, s);
    CountsBack(p, s);
  }

  /** The check together with what it does not look at is exactly the invariant, the time clauses and
      a key. */
  lemma CheckedIffInv(p: Params, s: State)
    ensures Checked(p, s) && Unchecked(p, s) <==>
            Inv(p, s, {}, {}) && TimesOk(s.info) && s.key != 0
  {
    hide RandomOk, IdsOk, TriedOk, NewOk, CountsOk, TimesOk, EntriesChecked, TriedChecked, NewChecked, NetsChecked,
      Unchecked, NewIds, TriedIds;
    if Inv(p, s, {}, {}) && TimesOk(s.info) && s.key != 0 {
      var none: set<NodeId> := {};
      assert none + none == none;
      SoundIsChecked(p, s);
      NotChecked(p, s);
    }
    if Checked(p, s) && Unchecked(p, s) {
      CheckedBack(p, s);
    }
  }

  lemma NotChecked(p: Params, s: State)
    requires IdsOk(s.info, s.ids, s.idCount) && NewOk(p, s.key, s.info, s.newTab, {})
    requires CountsOk(p, s.info, s.nNew, s.nTried, s.counts, {})
    ensures Unchecked(p, s)
  {
    hide NewIds, TriedIds, CountsOk, SlotsOf;
    NetsOk(p, s);
  }

  lemma EntriesBack(p: Params, s: State)
    requires EntriesChecked(s) && Unchecked(p, s) && |s.random| == |s.info|
    ensures RandomOk(s.info, s.random) && IdsOk(s.info, s.ids, s.idCount) && TimesOk(s.info)
  {
    hide Nets;
    Surjective(s.info, s.random);
  }

  lemma TablesBack(p: Params, s: State)
    requires EntriesChecked(s) && Unchecked(p, s) && TriedChecked(p, s) && NewChecked(p, s)
    ensures TriedOk(p, s.key, s.info, s.triedTab) && NewOk(p, s.key, s.info, s.newTab, {})
  {
    hide Nets, TriedSlot, NewSlotIn, SlotsOf;
    forall id | id in s.info && s.info[id].inTried
      ensures TriedSlot(p, s.key, s.info[id].addr) in s.triedTab &&
              s.triedTab[TriedSlot(p, s.key, s.info[id].addr)] == id
    {
      var sl :| sl in s.triedTab && s.triedTab[sl] == id;
    }
  }

  lemma CountsBack(p: Params, s: State)
    requires NetsChecked(p, s) && Nets(p, s.info) <= s.counts.Keys
    requires s.nNew == |NewIds(p, s.info, {}, None)| && s.nTried == |TriedIds(p, s.info, None)|
    ensures CountsOk(p, s.info, s.nNew, s.nTried, s.counts, {})
  {
    forall net | net !in s.counts ensures TrueCount(p, s.info, net) == Count(0, 0) {
      assert forall id :: id in s.info ==> p.network(s.info[id].addr) in Nets(p, s.info);
      assert NewIds(p, s.info, {}, Some(net)) == {} && TriedIds(p, s.info, Some(net)) == {};
    }
  }

  /** An accepted state has exact counters exactly when every network with entries has one. */
  lemma CheckedCounters(p: Params, s: State)
    requires Checked(p, s)
    ensures CountsOk(p, s.info, s.nNew, s.nTried, s.counts, {}) <==> Nets(p, s.info) <= s.counts.Keys
  {
    hide EntriesChecked, TriedChecked, NewChecked, NetsChecked, CountsOk, NewIds, TriedIds;
    if CountsOk(p, s.info, s.nNew, s.nTried, s.counts, {}) { NetsOk(p, s); }
    if Nets(p, s.info) <= s.counts.Keys { CountsBack(p, s); }
  }

  /** A state the check accepts although the counter of the only network with an entry is missing. */
  lemma MissedCounter() returns (p: Params, s: State)
    ensures Checked(p, s) && !CountsOk(p, s.info, s.nNew, s.nTried, s.counts, {})
  {
    p := Params(1, 1, 1, (k, a, b) => 0, (k, a) => 0, (k, n, b, a) => 0, a => Ipv4, a => Ipv4, a => true, a => true, 0);
    var id, svc := NodeId(0), Service(NetAddr(Ipv4, []), 1);
    var i := AddrInfo(svc, svc.ip, 0, {}, 0, 0, 1, 0, 0, true, 0);
    s := State(1, 1, map[id := i], map[svc := id], [id], 1, map[Slot(0, 0) := id], 0, map[], 1, {},
               map[Ipv6 := Count(0, 0)]);
    assert TriedIds(p, s.info, None) == {id} && TriedIds(p, s.info, Some(Ipv6)) == {};
    assert NewIds(p, s.info, {}, None) == {} && NewIds(p, s.info, {}, Some(Ipv6)) == {};
    assert Nets(p, s.info) == {Ipv4};
    assert s.triedTab[Slot(0, 0)] == id;
    CheckedCounters(p, s);
  }

  // ---------------------------------------------------------------- runs of the object

  method Perform(m: AddrMan, op: Op)
    requires m.Shape() && Sound(m.p, m.View())
    modifies m, m.vvNew, m.vvTried
    ensures m.View() == Step(m.p, old(m.View()), op)
  {
    hide Inv, CollisionsOk, Table, AddSingle, Good, ResolveOne, SwapRandom, Attempted, Connected;
    InsertReady(m.p, m.View(), {}, {});
    match op
    case Add(a, src, penalty, now, draw) =>
      var _ := m.AddOne(a, src, penalty, now, draw);
    case MarkGood(svc, time) =>
      var _ := m.MarkGoodEntry(svc, true, time);
    case Attempt(svc, countFailure, time) =>
      var lastGood := m.lastGood;
      m.UpdateEntry(svc, i => Attempted(i, countFailure, time, lastGood));
    case MarkConnected(svc, time) =>
      m.UpdateEntry(svc, i => Connected(i, time));
    case SetServices(svc, services) =>
      m.UpdateEntry(svc, (i: AddrInfo) => i.(services := services));
    case Resolve(id, now) =>
      if id in m.triedCollisions {
        m.ResolveEntry(id, now);
      }
    case SelectCollision(id) =>
      if id !in m.mapInfo {
        m.triedCollisions := m.triedCollisions - {id};
      }
    case Shuffle(i, j) =>
      if 0 <= i < |m.vRandom| && 0 <= j < |m.vRandom| {
        RandomIn(m.mapInfo, m.vRandom);
        m.SwapRandomEntries(i, j);
      }
  }

  /** After any run of operations at positive times, starting from a sound state, the consistency
      check returns 0. */
  method RunAndCheck(m: AddrMan, ops: seq<Op>) returns (code: int)
    requires m.Shape() && Sound(m.p, m.View()) && TimesOk(m.mapInfo) && m.nKey != 0
    requires forall op :: op in ops ==> Positive(op)
    modifies m, m.vvNew, m.vvTried
    ensures code == 0 && Sound(m.p, m.View()) && m.View() == Run(m.p, old(m.View()), ops)
  {
    hide Inv, CollisionsOk, Table, Step, TimesOk, Positive, Checked, Later;
    ghost var s := m.View();
    assert ops[0..] == ops;
    var n := 0;
    while n < |ops|
      invariant 0 <= n <= |ops| && Sound(m.p, m.View()) && TimesOk(m.mapInfo) && Sound(m.p, s) && m.nKey != 0
      invariant Run(m.p, m.View(), ops[n..]) == Run(m.p, s, ops)
    {
      StepKeeps(m.p, m.View(), ops[n]);
      StepKey(m.p, m.View(), ops[n]);
      assert ops[n] in ops && ops[n..][0] == ops[n] && ops[n..][1..] == ops[n + 1..];
      Perform(m, ops[n]);
      n := n + 1;
    }
    SoundIsChecked(m.p, m.View());
    code := CheckAddrman(m);
  }

  lemma StepKey(p: Params, s: State, op: Op)
    requires Sound(p, s) && Later(s, Step(p, s, op))
    ensures Step(p, s, op).key == s.key
  {
    hide Step, Inv, CollisionsOk;
  }
}
