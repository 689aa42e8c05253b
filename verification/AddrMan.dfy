/** The address manager as an object whose fields are updated in place. Each method is proved to
    take the object from one abstract state to the state that the specification function gives. */
module AddrManObject {
  import opened AddrManOps
  import opened AddrManRuns
  import opened AddrManSpec
  import opened AddrManSteps
  import opened Options

  const EMPTY := -1

  function AllSlots(buckets: nat, size: nat): set<Slot> {
    set b, i | 0 <= b < buckets && 0 <= i < size :: Slot(b, i)
  }

  /** The occupied slots of a table of buckets. */
  ghost function Table(a: array2<int>): map<Slot, NodeId>
    reads a
  {
    map sl | sl in AllSlots(a.Length0, a.Length1) && a[sl.bucket, sl.pos] != EMPTY :: NodeId(a[sl.bucket, sl.pos])
  }

  predicate InTable(a: array2<int>, sl: Slot) {
    0 <= sl.bucket < a.Length0 && 0 <= sl.pos < a.Length1
  }

  method SetSlot(a: array2<int>, sl: Slot, v: int)
    requires InTable(a, sl)
    modifies a
    ensures Table(a) == if v == EMPTY then old(Table(a)) - {sl} else old(Table(a))[sl := NodeId(v)]
  {
    a[sl.bucket, sl.pos] := v;
    forall x ensures x in AllSlots(a.Length0, a.Length1) <==> InTable(a, x) {
      assert InTable(a, x) ==> x == Slot(x.bucket, x.pos);
    }
  }

  class AddrMan {
    const p: Params
    var nKey: int
    var nIdCount: int
    var mapInfo: map<NodeId, AddrInfo>
    var mapAddr: map<Service, NodeId>
    var vRandom: seq<NodeId>
    var nTried: int
    const vvTried: array2<int>
    var nNew: int
    const vvNew: array2<int>
    var lastGood: int
    var triedCollisions: set<NodeId>
    var networkCounts: map<Network, Count>

    ghost predicate Shape() {
      && vvNew != vvTried
      && vvNew.Length0 == p.newBuckets && vvNew.Length1 == p.bucketSize
      && vvTried.Length0 == p.triedBuckets && vvTried.Length1 == p.bucketSize
    }

    ghost function View(): State
      reads this, vvNew, vvTried
    {
      State(nKey, nIdCount, mapInfo, mapAddr, vRandom, nTried, Table(vvTried), nNew, Table(vvNew),
            lastGood, triedCollisions, networkCounts)
    }

    method CreateEntry(a: Address, src: NetAddr) returns (id: NodeId)
      modifies this
      ensures View() == Create(p, old(View()), a, src) && id == NodeId(old(nIdCount))
    {
      hide Table, Bump;
      id := NodeId(nIdCount);
      nIdCount := nIdCount + 1;
      mapInfo := mapInfo[id := AddrInfo(a.svc, src, a.time, a.services, 0, 0, 0, 0, 0, false, -1)];
      mapAddr := mapAddr[a.svc := id];
      mapInfo := mapInfo[id := mapInfo[id].(randomPos := |vRandom|)];
      vRandom := vRandom + [id];
      nNew := nNew + 1;
      networkCounts := Bump(networkCounts, p.network(a.svc), 1, 0);
    }

    method SwapRandomEntries(i: int, j: int)
      requires 0 <= i < |vRandom| && 0 <= j < |vRandom|
      requires vRandom[i] in mapInfo && vRandom[j] in mapInfo
      modifies this`mapInfo, this`vRandom
      ensures View() == SwapRandom(old(View()), i, j)
    {
      if i == j { return; }
      var id1, id2 := vRandom[i], vRandom[j];
      mapInfo := mapInfo[id1 := mapInfo[id1].(randomPos := j)];
      mapInfo := mapInfo[id2 := mapInfo[id2].(randomPos := i)];
      vRandom := vRandom[i := id2];
      vRandom := vRandom[j := id1];
    }

    method DropLastEntry()
      requires vRandom != [] && vRandom[|vRandom| - 1] in mapInfo
      modifies this
      ensures View() == DropLast(p, old(View()))
    {
      var id := vRandom[|vRandom| - 1];
      var addr := mapInfo[id].addr;
      networkCounts := Bump(networkCounts, p.network(addr), -1, 0);
      vRandom := vRandom[..|vRandom| - 1];
      mapAddr := mapAddr - {addr};
      mapInfo := mapInfo - {id};
      nNew := nNew - 1;
    }

    method DeleteEntry(id: NodeId)
      requires id in mapInfo && RandomOk(mapInfo, vRandom)
      modifies this
      ensures View() == Delete(p, old(View()), id)
    {
      hide SwapRandom, DropLast;
      SwapLast(View(), id);
      SwapPlaces(View(), mapInfo[id].randomPos, |vRandom| - 1);
      SwapRandomEntries(mapInfo[id].randomPos, |vRandom| - 1);
      DropLastEntry();
    }

    method ClearNewSlot(sl: Slot)
      requires Shape() && InTable(vvNew, sl)
      requires RandomOk(mapInfo, vRandom)
      requires sl in Table(vvNew) ==> Table(vvNew)[sl] in mapInfo
      modifies this, vvNew
      ensures View() == ClearNew(p, old(View()), sl)
    {
      hide RandomOk, Delete;
      assert sl in AllSlots(vvNew.Length0, vvNew.Length1);
      if vvNew[sl.bucket, sl.pos] != EMPTY {
        var id := NodeId(vvNew[sl.bucket, sl.pos]);
        var i := mapInfo[id].(refCount := mapInfo[id].refCount - 1);
        RandomUpdate(mapInfo, vRandom, id, i);
        mapInfo := mapInfo[id := i];
        SetSlot(vvNew, sl, EMPTY);
        if mapInfo[id].refCount == 0 {
          DeleteEntry(id);
        }
      }
    }

    /** Takes an entry out of a slot if it is the one there. */
    method DropRef(sl: Slot, id: NodeId) returns (there: bool)
      requires InTable(vvNew, sl) && id in mapInfo && 0 <= id.n
      modifies this`mapInfo, vvNew
      ensures there <==> sl in old(Table(vvNew)) && old(Table(vvNew))[sl] == id
      ensures Table(vvNew) == if there then old(Table(vvNew)) - {sl} else old(Table(vvNew))
      ensures mapInfo == if there then old(mapInfo)[id := old(mapInfo)[id].(refCount := old(mapInfo)[id].refCount - 1)]
                         else old(mapInfo)
    {
      assert sl in AllSlots(vvNew.Length0, vvNew.Length1);
      there := vvNew[sl.bucket, sl.pos] == id.n;
      if there {
        SetSlot(vvNew, sl, EMPTY);
        mapInfo := mapInfo[id := mapInfo[id].(refCount := mapInfo[id].refCount - 1)];
      }
    }

    /** The loop over all buckets that takes an entry out of the new table, starting at the bucket of
        its own source and stopping early once no reference is left. */
    method StripEntry(id: NodeId)
      requires Shape() && id in mapInfo && !mapInfo[id].inTried && 0 <= id.n
      requires NewOk(p, nKey, mapInfo, Table(vvNew), {}) && mapInfo[id].refCount > 0
      modifies this`mapInfo, vvNew
      ensures View() == Strip(old(View()), id)
    {
      hide NewOk, SlotsOf, Gone, NthBucket, Table, NewSlotIn;
      var start := NewBucket(p, nKey, mapInfo[id].addr, mapInfo[id].source);
      ghost var tab, m0 := Table(vvNew), mapInfo;
      NothingGone(p, nKey, m0, tab, id, start);
      assert tab - {} == tab && m0[id := m0[id].(refCount := m0[id].refCount)] == m0;
      var n := 0;
      while n < p.newBuckets
        invariant 0 <= n <= p.newBuckets && tab == old(Table(vvNew)) && m0 == old(mapInfo)
        invariant StripInv(m0, mapInfo, tab, Table(vvNew), id, Gone(SlotsOf(tab, id), start, n, p.newBuckets))
      {
        var bucket := NthBucket(start, n, p.newBuckets);
        BucketRange(start, n, p.newBuckets);
        var sl := NewSlotIn(p, nKey, mapInfo[id].addr, bucket);
        GoneStep(p, nKey, m0, tab, id, start, n);
        SlotInTable(p, nKey, mapInfo[id].addr, bucket, vvNew);
        ghost var now, m1 := Table(vvNew), mapInfo;
        var there := DropRef(sl, id);
        StripRound(m0, m1, tab, now, id, Gone(SlotsOf(tab, id), start, n, p.newBuckets), sl);
        n := n + 1;
        if there && mapInfo[id].refCount == 0 { break; }
      }
      AllGone(p, nKey, m0, tab, id, start, n);
    }

    method UnseatEntry(sl: Slot)
      requires Shape() && InTable(vvTried, sl)
      requires sl in Table(vvTried) && Table(vvTried)[sl] in mapInfo
      modifies this`mapInfo, this`nTried, this`networkCounts, vvTried
      ensures View() == Unseat(p, old(View()), sl)
    {
      var id := NodeId(vvTried[sl.bucket, sl.pos]);
      mapInfo := mapInfo[id := mapInfo[id].(inTried := false)];
      SetSlot(vvTried, sl, EMPTY);
      nTried := nTried - 1;
      networkCounts := Bump(networkCounts, p.network(mapInfo[id].addr), 0, -1);
    }

    /** Enters an unplaced entry into the new table again. */
    method PlaceEntry(sl: Slot, id: NodeId)
      requires Shape() && InTable(vvNew, sl) && id in mapInfo && mapInfo[id].refCount == 0 && 0 <= id.n
      modifies this`mapInfo, this`nNew, this`networkCounts, vvNew
      ensures View() == AddRef(Recount(p, old(View()), id, 1), sl, id)
    {
      mapInfo := mapInfo[id := mapInfo[id].(refCount := 1)];
      SetSlot(vvNew, sl, id.n);
      nNew := nNew + 1;
      networkCounts := Bump(networkCounts, p.network(mapInfo[id].addr), 1, 0);
    }

    method SeatEntry(id: NodeId)
      requires Shape() && id in mapInfo && 0 <= id.n
      modifies this`mapInfo, this`nTried, this`networkCounts, vvTried
      ensures View() == Seat(p, old(View()), id)
    {
      var sl := TriedSlot(p, nKey, mapInfo[id].addr);
      SetSlot(vvTried, sl, id.n);
      nTried := nTried + 1;
      mapInfo := mapInfo[id := mapInfo[id].(inTried := true)];
      networkCounts := Bump(networkCounts, p.network(mapInfo[id].addr), 0, 1);
    }

    /** Makes room in the tried slot of an entry: the occupant goes back to the new table. */
    method EvictFor(id: NodeId)
      requires Shape() && Inv(p, View(), {}, {id})
      modifies this, vvNew, vvTried
      ensures View() == Evict(p, old(View()), id)
    {
      hide RandomOk, IdsOk, TriedOk, NewOk, CountsOk, Unseat, ClearNew, Table;
      var sl := TriedSlot(p, nKey, mapInfo[id].addr);
      ghost var s := View();
      Occupied(vvTried, sl);
      if vvTried[sl.bucket, sl.pos] != EMPTY {
        var e := NodeId(vvTried[sl.bucket, sl.pos]);
        UnseatReady(p, s, id, sl);
        var ns := NewSlot(p, nKey, mapInfo[e].addr, mapInfo[e].source);
        ClearReady(p, Unseat(p, s, sl), id, e, ns);
        UnseatEntry(sl);
        ClearNewSlot(ns);
        LooseZero(p, nKey, mapInfo, Table(vvNew), {} + {id, e}, e);
        IdRange(mapInfo, mapAddr, nIdCount, e);
        PlaceEntry(ns, e);
      }
    }

    method MakeTriedEntry(id: NodeId)
      requires Shape() && Inv(p, View(), {}, {}) && id in mapInfo && !mapInfo[id].inTried
      modifies this, vvNew, vvTried
      ensures View() == MakeTried(p, old(View()), id)
    {
      hide RandomOk, IdsOk, TriedOk, NewOk, CountsOk, Table, Strip, Evict, Seat;
      PlacedEntry(p, View(), id);
      IdRange(mapInfo, mapAddr, nIdCount, id);
      NoneLoose(p, View());
      StripReady(p, View(), id);
      ghost var s := View();
      StripEntry(id);
      nNew := nNew - 1;
      networkCounts := Bump(networkCounts, p.network(mapInfo[id].addr), -1, 0);
      assert View() == Recount(p, Strip(s, id), id, -1);
      TriedIn(p, View(), {}, {id});
      EvictKeeps(p, View(), id, TriedSlot(p, nKey, mapInfo[id].addr));
      EvictFor(id);
      SeatEntry(id);
    }

    method InsertEntry(id: NodeId, src: NetAddr, now: int) returns (ok: bool)
      requires Shape() && id in mapInfo && 0 <= id.n && RandomOk(mapInfo, vRandom)
      requires forall sl :: sl in Table(vvNew) ==> Table(vvNew)[sl] in mapInfo
      modifies this, vvNew
      ensures (View(), ok) == Insert(p, old(View()), id, src, now)
    {
      hide RandomOk, Table, ClearNew, Delete, MayReplace;
      var sl := NewSlot(p, nKey, mapInfo[id].addr, src);
      Occupied(vvNew, sl);
      ok := vvNew[sl.bucket, sl.pos] == EMPTY;
      if vvNew[sl.bucket, sl.pos] != id.n {
        if !ok {
          var there := mapInfo[NodeId(vvNew[sl.bucket, sl.pos])];
          if MayReplace(there, mapInfo[id], now) {
            ok := true;
          }
        }
        if ok {
          ClearNewFrame(p, View(), sl);
          ClearNewOther(p, View(), sl, id);
          ClearNewSlot(sl);
          mapInfo := mapInfo[id := mapInfo[id].(refCount := mapInfo[id].refCount + 1)];
          SetSlot(vvNew, sl, id.n);
        } else if mapInfo[id].refCount == 0 {
          DeleteEntry(id);
        }
      }
    }

    method RefreshEntry(a: Address, pen: int, now: int)
      requires a.svc in mapAddr && mapAddr[a.svc] in mapInfo
      modifies this`mapInfo
      ensures View() == Refreshed(old(View()), a, pen, now)
    {
      var id := mapAddr[a.svc];
      mapInfo := mapInfo[id := Refresh(mapInfo[id], a, pen, now)];
    }

    method CreateFresh(a: Address, src: NetAddr, pen: int) returns (id: NodeId)
      modifies this
      ensures View() == Created(p, old(View()), a, src, pen) && id == NodeId(old(nIdCount))
    {
      hide Table, Bump;
      id := CreateEntry(a, src);
      mapInfo := mapInfo[id := mapInfo[id].(time := Max(0, mapInfo[id].time - pen))];
    }

    method AddOne(a: Address, src: NetAddr, penalty: int, now: int, draw: nat) returns (ok: bool)
      requires Shape() && Inv(p, View(), {}, {})
      modifies this, vvNew
      ensures (View(), ok) == AddSingle(p, old(View()), a, src, penalty, now, draw)
    {
      hide Inv, RandomOk, Table, Insert, Refreshed, Created;
      ghost var s := View();
      InsertReady(p, s, {}, {});
      IdsNonNegative(p, s, {}, {});
      if !p.routable(a.svc) { return false; }
      var pen := Penalty(a, src, penalty);
      var id: NodeId;
      if a.svc in mapAddr {
        id := mapAddr[a.svc];
        RefreshedKeeps(p, s, a, pen, now);
        RefreshEntry(a, pen, now);
        InsertReady(p, View(), {}, {});
        if a.time <= mapInfo[id].time { return false; }
        if mapInfo[id].inTried { return false; }
        if mapInfo[id].refCount == NEW_BUCKETS_PER_ADDRESS { return false; }
        var factor := DrawRange(mapInfo[id].refCount);
        if draw % factor != 0 { return false; }
      } else {
        CreatedKeeps(p, s, a, src, pen);
        id := CreateFresh(a, src, pen);
        CreatedHas(p, s, a, src, pen);
        InsertReady(p, View(), {id}, {});
      }
      ok := InsertEntry(id, src, now);
    }

    /** The vector form: every address is added in turn, one draw each. */
    method AddAll(addrs: seq<Address>, src: NetAddr, penalty: int, now: int, draws: seq<nat>) returns (anyAdded: bool)
      requires Shape() && Sound(p, View()) && |draws| == |addrs|
      modifies this, vvNew
      ensures Sound(p, View())
      ensures var ops := seq(|addrs|, i requires 0 <= i < |addrs| => Add(addrs[i], src, penalty, now, draws[i]));
              View() == Run(p, old(View()), ops) && anyAdded == AnyAdded(p, old(View()), ops)
    {
      hide Inv, CollisionsOk, Table, AddSingle;
      ghost var ops := seq(|addrs|, i requires 0 <= i < |addrs| => Add(addrs[i], src, penalty, now, draws[i]));
      ghost var s := View();
      var added := 0;
      var n := 0;
      assert ops[0..] == ops;
      while n < |addrs|
        invariant 0 <= n <= |addrs| && Sound(p, View()) && s == old(View()) && Sound(p, s)
        invariant Run(p, View(), ops[n..]) == Run(p, s, ops) && 0 <= added
        invariant AnyAdded(p, s, ops) == (added > 0 || AnyAdded(p, View(), ops[n..]))
      {
        StepKeeps(p, View(), ops[n]);
        assert ops[n..][0] == ops[n] && ops[n..][1..] == ops[n + 1..];
        var ok := AddOne(addrs[n], src, penalty, now, draws[n]);
        if ok { added := added + 1; }
        n := n + 1;
      }
      anyAdded := added > 0;
    }

    method MarkGoodEntry(svc: Service, testBeforeEvict: bool, time: int) returns (moved: bool)
      requires Shape() && Inv(p, View(), {}, {})
      modifies this, vvNew, vvTried
      ensures (View(), moved) == Good(p, old(View()), svc, testBeforeEvict, time)
    {
      hide Inv, Table, MakeTried;
      ghost var s := View();
      InsertReady(p, s, {}, {});
      lastGood := time;
      if svc !in mapAddr { return false; }
      var id := mapAddr[svc];
      NotedKeeps(p, s, id, time);
      mapInfo := mapInfo[id := Succeeded(mapInfo[id], time)];
      if mapInfo[id].inTried { return false; }
      PlacedEntry(p, View(), id);
      if mapInfo[id].refCount <= 0 { assert false; }
      var sl := TriedSlot(p, nKey, mapInfo[id].addr);
      Occupied(vvTried, sl);
      if testBeforeEvict && vvTried[sl.bucket, sl.pos] != EMPTY {
        if |triedCollisions| < TRIED_COLLISION_SIZE {
          triedCollisions := triedCollisions + {id};
        }
        return false;
      }
      MakeTriedEntry(id);
      return true;
    }

    /** Updates the statistics of the entry of an address, if there is one. */
    method UpdateEntry(svc: Service, f: AddrInfo -> AddrInfo)
      requires Shape() && Sound(p, View())
      modifies this`mapInfo
      ensures View() == OnEntry(old(View()), svc, f)
    {
      hide CollisionsOk, Table, NewOk, TriedOk, CountsOk, RandomOk;
      if svc !in mapAddr { return; }
      var id := mapAddr[svc];
      mapInfo := mapInfo[id := f(mapInfo[id])];
    }

    method ResolveEntry(id: NodeId, now: int)
      requires Shape() && Inv(p, View(), {}, {})
      modifies this, vvNew, vvTried
      ensures View() == ResolveOne(p, old(View()), id, now)
    {
      hide Inv, Table, Good;
      InsertReady(p, View(), {}, {});
      var erase := false;
      if id !in mapInfo {
        erase := true;
      } else {
        var svc := mapInfo[id].addr;
        var sl := TriedSlot(p, nKey, svc);
        Occupied(vvTried, sl);
        if !p.valid(svc) {
          erase := true;
        } else if vvTried[sl.bucket, sl.pos] != EMPTY {
          var there := mapInfo[NodeId(vvTried[sl.bucket, sl.pos])];
          if now - there.lastSuccess < REPLACEMENT {
            erase := true;
          } else if now - there.lastTry < REPLACEMENT {
            if now - there.lastTry > MINUTE {
              var _ := MarkGoodEntry(svc, false, now);
              erase := true;
            }
          } else if now - mapInfo[id].lastSuccess > TEST_WINDOW {
            var _ := MarkGoodEntry(svc, false, now);
            erase := true;
          }
        } else {
          var _ := MarkGoodEntry(svc, false, now);
          erase := true;
        }
      }
      if erase {
        triedCollisions := triedCollisions - {id};
      }
    }

    /** Settles the waiting entries in ascending order of their ids, reading the clock for each. */
    method ResolveCollisions() returns (ghost order: seq<NodeId>, ghost times: seq<int>)
      requires Shape() && Sound(p, View())
      modifies this, vvNew, vvTried
      ensures Sweep(order, {}, old(triedCollisions)) && |times| == |order| && forall k :: k in times ==> k > 0
      ensures Sound(p, View()) && View() == Run(p, old(View()), Resolutions(order, times))
    {
      hide Inv, CollisionsOk, Table, ResolveOne, Sweep;
      ghost var s := View();
      order, times := [], [];
      var rest := triedCollisions;
      SweepStart(rest);
      while rest != {}
        invariant rest <= triedCollisions && Sound(p, View()) && Sound(p, s) && s == old(View())
        invariant |times| == |order| && forall k :: k in times ==> k > 0
        invariant View() == Run(p, s, Resolutions(order, times)) && Sweep(order, rest, old(triedCollisions))
        decreases |rest|
      {
        LeastExists(rest);
        var id :| id in rest && forall x :: x in rest ==> id.n <= x.n;
        var now: int :| now > 0;
        ResolveKeeps(p, View(), id, now);
        RunAppend(p, s, Resolutions(order, times), Resolve(id, now));
        SweepStep(order, rest, old(triedCollisions), id);
        ResolveEntry(id, now);
        assert Resolutions(order + [id], times + [now]) == Resolutions(order, times) + [Resolve(id, now)];
        order, times := order + [id], times + [now];
        rest := rest - {id};
      }
    }

    constructor (params: Params, key: int)
      ensures p == params && Shape() && fresh(vvNew) && fresh(vvTried)
      ensures View() == Empty(key) && Sound(p, View()) && TimesOk(mapInfo)
    {
      p, nKey := params, key;
      nIdCount, mapInfo, mapAddr, vRandom := 0, map[], map[], [];
      nTried, nNew, lastGood := 0, 0, 1;
      triedCollisions, networkCounts := {}, map[];
      vvNew := new int[params.newBuckets, params.bucketSize]((b, i) => EMPTY);
      vvTried := new int[params.triedBuckets, params.bucketSize]((b, i) => EMPTY);
      new;
      NoSlots(vvNew);
      NoSlots(vvTried);
      EmptySound(p, key);
    }

    /** A random waiting id; `r` is the entry in its tried slot. The slot is never empty. */
    method SelectTriedCollision() returns (r: Option<AddrInfo>, ghost id: NodeId)
      requires Shape() && Sound(p, View())
      modifies this`triedCollisions
      ensures Sound(p, View())
      ensures old(triedCollisions) == {} ==> r == None && View() == old(View())
      ensures old(triedCollisions) != {} ==>
                && id in old(triedCollisions)
                && View() == Step(p, old(View()), SelectCollision(id))
                && (r.Some? <==> id in mapInfo)
                && (r.Some? ==>
                      && r.value in mapInfo.Values && r.value.inTried
                      && TriedSlot(p, nKey, r.value.addr) == TriedSlot(p, nKey, mapInfo[id].addr))
    {
      hide Inv, CollisionsOk, Table;
      id := NodeId(EMPTY);
      if triedCollisions == {} { return None, id; }
      var pick :| pick in triedCollisions;
      id := pick;
      StepKeeps(p, View(), SelectCollision(id));
      if pick !in mapInfo {
        triedCollisions := triedCollisions - {pick};
        return None, id;
      }
      var sl := TriedSlot(p, nKey, mapInfo[pick].addr);
      WaitingSlotOccupied(p, View(), pick);
      SeatedAt(p, View(), sl);
      Occupied(vvTried, sl);
      r := Some(mapInfo[NodeId(vvTried[sl.bucket, sl.pos])]);
    }

    /** A random sample of the good addresses: a partial shuffle of `vRandom`, filtered. */
    method GetAddresses(maxAddresses: nat, maxPct: nat, net: Option<Network>, now: int) returns (res: seq<Service>)
      requires Shape() && Sound(p, View())
      modifies this`mapInfo, this`vRandom
      ensures Sound(p, View()) && SamePlaces(old(mapInfo), mapInfo) && Kept(old(mapInfo), mapInfo)
      ensures Allowed(|res|, |vRandom|, maxAddresses, maxPct)
      ensures forall i :: 0 <= i < |res| ==> res[i] in mapAddr && Eligible(p, old(mapInfo), mapAddr[res[i]], net, now)
      ensures forall i, j :: 0 <= i < j < |res| ==> res[i] != res[j]
      ensures Allowed(|res| + 1, |vRandom|, maxAddresses, maxPct) ==>
                forall a :: a in mapAddr && Eligible(p, old(mapInfo), mapAddr[a], net, now) ==> a in res
    {
      hide Inv, CollisionsOk, Table, Eligible, Picked, SamePlaces, Kept, SwapRandom;
      var nodes := SampleSize(|vRandom|, maxAddresses, maxPct);
      ghost var m0 := mapInfo;
      res := [];
      var n := 0;
      ShuffleStart(p, m0, mapAddr, vRandom, net, now);
      while n < |vRandom| && |res| < nodes
        invariant 0 <= n <= |vRandom| == |old(vRandom)| && Sound(p, View()) && |res| <= nodes
        invariant SamePlaces(m0, mapInfo) && Kept(m0, mapInfo) && m0 == old(mapInfo)
        invariant res == Picked(p, m0, vRandom[..n], net, now)
      {
        var k :| n <= k < |vRandom|;
        InsertReady(p, View(), {}, {});
        RandomIn(mapInfo, vRandom);
        ShuffleKeeps(p, View(), n, k);
        ShuffleRound(p, m0, View(), n, k, net, now);
        SwapRandomEntries(n, k);
        var i := mapInfo[vRandom[n]];
        if Wanted(p, i, net, now) {
          res := res + [i.addr];
        }
        n := n + 1;
      }
      SampleOk(p, m0, View(), n, net, now);
    }
  }

  /** So many addresses may be given out: no more than asked for, and no larger a share of the known ones. */
  predicate Allowed(n: nat, known: nat, maxAddresses: nat, maxPct: nat) {
    && (maxAddresses != 0 ==> n <= maxAddresses)
    && if maxPct != 0 then 100 * n <= maxPct * known else n <= known
  }

  function SampleSize(known: nat, maxAddresses: nat, maxPct: nat): (r: nat)
    ensures forall n: nat :: Allowed(n, known, maxAddresses, maxPct) <==> n <= r
  {
    var n := if maxPct != 0 then maxPct * known / 100 else known;
    if maxAddresses != 0 && maxAddresses < n then maxAddresses else n
  }

  predicate Wanted(p: Params, i: AddrInfo, net: Option<Network>, now: int) {
    (net.None? || p.netClass(i.addr) == net.value) && !IsTerrible(i, now)
  }

  ghost predicate Eligible(p: Params, info: map<NodeId, AddrInfo>, id: NodeId, net: Option<Network>, now: int) {
    id in info && (net.Some? ==> p.netClass(info[id].addr) == net.value) && !IsTerrible(info[id], now)
  }

  /** The addresses of the eligible ids, in order. */
  ghost function Picked(p: Params, info: map<NodeId, AddrInfo>, ids: seq<NodeId>, net: Option<Network>,
                        now: int): seq<Service> {
    if ids == [] then [] else
      var id := ids[|ids| - 1];
      Picked(p, info, ids[..|ids| - 1], net, now) + (if Eligible(p, info, id, net, now) then [info[id].addr] else [])
  }

  lemma ShuffleStart(p: Params, info: map<NodeId, AddrInfo>, ids: map<Service, NodeId>, random: seq<NodeId>,
                     net: Option<Network>, now: int)
    ensures SamePlaces(info, info) && Kept(info, info)
    ensures Picked(p, info, random[..0], net, now) == []
  {
  }

  /** Swapping positions at or after `n` keeps the first `n` ids and brings in the next one. */
  lemma ShuffleRound(p: Params, m0: map<NodeId, AddrInfo>, s: State, n: int, k: int, net: Option<Network>, now: int)
    requires 0 <= n <= k < |s.random| && s.random[n] in s.info && s.random[k] in s.info
    requires SamePlaces(m0, s.info) && Kept(m0, s.info)
    ensures var t := SwapRandom(s, n, k);
            && |t.random| == |s.random| && t.random[n] in t.info
            && SamePlaces(m0, t.info) && Kept(m0, t.info)
            && t == s.(info := t.info, random := t.random)
            && Picked(p, m0, t.random[..n + 1], net, now) ==
               Picked(p, m0, s.random[..n], net, now)
               + (if Wanted(p, t.info[t.random[n]], net, now) then [t.info[t.random[n]].addr] else [])
  {
    var t := SwapRandom(s, n, k);
    SwapPlaces(s, n, k);
    SwapFrame(s, n, k);
    assert t.random[..n + 1][..n] == s.random[..n];
    assert t.random[..n + 1][n] == t.random[n];
    hide SwapRandom, SamePlaces, Kept, Wanted;
    KeptTrans(m0, s.info, t.info);
    EligibleKept(p, m0, t.info, t.random[n], net, now);
  }

  lemma KeptTrans(a: map<NodeId, AddrInfo>, b: map<NodeId, AddrInfo>, c: map<NodeId, AddrInfo>)
    requires SamePlaces(a, b) && SamePlaces(b, c) && Kept(a, b) && Kept(b, c)
    ensures SamePlaces(a, c) && Kept(a, c)
  {
  }

  lemma EligibleKept(p: Params, a: map<NodeId, AddrInfo>, b: map<NodeId, AddrInfo>, id: NodeId, net: Option<Network>,
                     now: int)
    requires SamePlaces(a, b) && Kept(a, b)
    ensures Eligible(p, a, id, net, now) == Eligible(p, b, id, net, now)
    ensures id in b ==> a[id].addr == b[id].addr
  {
  }

  ghost predicate PickedFrom(p: Params, m0: map<NodeId, AddrInfo>, random: seq<NodeId>, n: nat, net: Option<Network>,
                             now: int, a: Service)
    requires n <= |random|
  {
    exists k :: 0 <= k < n && random[k] in m0 && m0[random[k]].addr == a && Eligible(p, m0, random[k], net, now)
  }

  /** Membership in the sample, and no address twice. */
  lemma {:induction false} PickedIs(p: Params, m0: map<NodeId, AddrInfo>, random: seq<NodeId>, n: nat,
                                    net: Option<Network>, now: int)
    requires n <= |random|
    requires forall k :: 0 <= k < n ==> random[k] in m0
    requires forall j, k :: 0 <= j < k < n ==> m0[random[j]].addr != m0[random[k]].addr
    ensures var res := Picked(p, m0, random[..n], net, now);
            && (forall a :: a in res ==> PickedFrom(p, m0, random, n, net, now, a))
            && (forall k :: 0 <= k < n && Eligible(p, m0, random[k], net, now) ==> m0[random[k]].addr in res)
            && (forall i, j :: 0 <= i < j < |res| ==> res[i] != res[j])
  {
    hide Eligible;
    if n > 0 {
      PickedIs(p, m0, random, n - 1, net, now);
      assert random[..n][..n - 1] == random[..n - 1];
      var front := Picked(p, m0, random[..n - 1], net, now);
      var id := random[n - 1];
      forall a | a in front ensures a != m0[id].addr && PickedFrom(p, m0, random, n, net, now, a) {
        assert PickedFrom(p, m0, random, n - 1, net, now, a);
        var k :| 0 <= k < n - 1 && random[k] in m0 && m0[random[k]].addr == a && Eligible(p, m0, random[k], net, now);
        assert m0[random[k]].addr != m0[random[n - 1]].addr;
      }
      var res := Picked(p, m0, random[..n], net, now);
      assert res == front || res == front + [m0[id].addr];
      forall i, j | 0 <= i < j < |res| ensures res[i] != res[j] {
        if j == |front| {
          assert res[i] == front[i] && front[i] in front;
        } else {
          assert res[i] == front[i] && res[j] == front[j];
        }
      }
    }
  }

  lemma SampleOk(p: Params, m0: map<NodeId, AddrInfo>, s: State, n: int, net: Option<Network>, now: int)
    requires Inv(p, s, {}, {}) && 0 <= n <= |s.random| && SamePlaces(m0, s.info) && Kept(m0, s.info)
    ensures var res := Picked(p, m0, s.random[..n], net, now);
            && (forall i :: 0 <= i < |res| ==> res[i] in s.ids && Eligible(p, m0, s.ids[res[i]], net, now))
            && (forall i, j :: 0 <= i < j < |res| ==> res[i] != res[j])
            && (n == |s.random| ==>
                  forall a :: a in s.ids && Eligible(p, m0, s.ids[a], net, now) ==> a in res)
  {
    hide Eligible, TriedOk, NewOk, CountsOk, LooseOk, Picked, Kept;
    RandomIds(m0, s);
    var res := Picked(p, m0, s.random[..n], net, now);
    PickedIs(p, m0, s.random, n, net, now);
    forall i | 0 <= i < |res| ensures res[i] in s.ids && Eligible(p, m0, s.ids[res[i]], net, now) {
      assert res[i] in res && PickedFrom(p, m0, s.random, n, net, now, res[i]);
      var k :| 0 <= k < n && s.random[k] in m0 && m0[s.random[k]].addr == res[i] &&
          Eligible(p, m0, s.random[k], net, now);
    }
  }

  lemma RandomIds(m0: map<NodeId, AddrInfo>, s: State)
    requires RandomOk(s.info, s.random) && IdsOk(s.info, s.ids, s.idCount) && SamePlaces(m0, s.info)
    ensures forall k :: 0 <= k < |s.random| ==>
              s.random[k] in m0 && m0[s.random[k]].addr in s.ids && s.ids[m0[s.random[k]].addr] == s.random[k]
    ensures forall j, k :: 0 <= j < k < |s.random| ==> m0[s.random[j]].addr != m0[s.random[k]].addr
    ensures forall a :: a in s.ids ==> s.ids[a] in m0 && m0[s.ids[a]].addr == a && s.ids[a] in s.random
  {
    forall a | a in s.ids ensures s.ids[a] in m0 && m0[s.ids[a]].addr == a && s.ids[a] in s.random {
      var id := s.ids[a];
      assert id in s.info && s.random[s.info[id].randomPos] == id;
    }
  }

  lemma NoSlots(a: array2<int>)
    requires forall b, i :: 0 <= b < a.Length0 && 0 <= i < a.Length1 ==> a[b, i] == EMPTY
    ensures Table(a) == map[]
  {
  }

  lemma SeatedAt(p: Params, s: State, sl: Slot)
    requires Inv(p, s, {}, {}) && sl in s.triedTab
    ensures s.triedTab[sl] in s.info && sl == TriedSlot(p, s.key, s.info[s.triedTab[sl]].addr)
  {
    hide RandomOk, IdsOk, NewOk, CountsOk;
  }

  ghost function Resolutions(order: seq<NodeId>, times: seq<int>): seq<Op>
    requires |order| == |times|
  {
    seq(|order|, i requires 0 <= i < |order| => Resolve(order[i], times[i]))
  }

  /** `order` lists, ascending, the ids of `all` that are not in `rest`. */
  ghost predicate Sweep(order: seq<NodeId>, rest: set<NodeId>, all: set<NodeId>) {
    && (forall id :: id in order <==> id in all - rest)
    && (forall i, j :: 0 <= i < j < |order| ==> order[i].n < order[j].n)
    && (forall id, x :: id in order && x in rest ==> id.n < x.n)
    && rest <= all
  }

  lemma SweepStart(all: set<NodeId>)
    ensures Sweep([], all, all)
  {
  }

  lemma SweepStep(order: seq<NodeId>, rest: set<NodeId>, all: set<NodeId>, id: NodeId)
    requires Sweep(order, rest, all)
    requires id in rest && forall x :: x in rest ==> id.n <= x.n
    ensures Sweep(order + [id], rest - {id}, all)
  {
    forall x | x in rest - {id} ensures id.n < x.n {
      assert id == NodeId(id.n) && x == NodeId(x.n);
    }
    assert forall x :: x in order + [id] <==> x in order || x == id;
    assert forall i :: 0 <= i < |order| ==> order[i] in order;
  }

  lemma LeastExists(s: set<NodeId>)
    requires s != {}
    ensures exists id :: id in s && forall x :: x in s ==> id.n <= x.n
    decreases |s|
  {
    var y :| y in s;
    if s != {y} {
      assert s - {y} != {};
      LeastExists(s - {y});
      var z :| z in s - {y} && forall x :: x in s - {y} ==> z.n <= x.n;
      var m := if y.n <= z.n then y else z;
      assert m in s && forall x :: x in s ==> m.n <= x.n;
    }
  }

  lemma RunAppend(p: Params, s: State, ops: seq<Op>, op: Op)
    requires Sound(p, s)
    ensures Sound(p, Run(p, s, ops)) && Run(p, s, ops + [op]) == Step(p, Run(p, s, ops), op)
    decreases |ops|
  {
    hide Inv, CollisionsOk, Step;
    if ops == [] {
      assert ops + [op] == [op];
      StepKeeps(p, s, op);
      assert Run(p, Step(p, s, op), []) == Step(p, s, op);
    } else {
      StepKeeps(p, s, ops[0]);
      RunAppend(p, Step(p, s, ops[0]), ops[1..], op);
      assert (ops + [op])[1..] == ops[1..] + [op];
    }
  }

  /** Twice as many outcomes for each reference already held. */
  method DrawRange(refCount: int) returns (factor: Pos)
    ensures factor == Factor(refCount)
  {
    factor := 1;
    var n := 0;
    while n < refCount
      invariant 0 <= n && (n <= refCount || n == 0) && factor == Factor(n)
    {
      factor := factor * 2;
      n := n + 1;
    }
  }

  lemma CreatedHas(p: Params, s: State, a: Address, src: NetAddr, pen: int)
    ensures NodeId(s.idCount) in Created(p, s, a, src, pen).info
  {
  }

  lemma NoneLoose(p: Params, s: State)
    requires Inv(p, s, {}, {})
    ensures NewOk(p, s.key, s.info, s.newTab, {})
  {
    var none: set<NodeId> := {};
    assert none + none == none;
  }

  lemma IdsNonNegative(p: Params, s: State, zero: set<NodeId>, uncounted: set<NodeId>)
    requires Inv(p, s, zero, uncounted)
    ensures 0 <= s.idCount && forall a :: a in s.ids ==> 0 <= s.ids[a].n
  {
  }

  lemma Occupied(a: array2<int>, sl: Slot)
    requires InTable(a, sl)
    ensures a[sl.bucket, sl.pos] != EMPTY <==> sl in Table(a)
    ensures sl in Table(a) ==> Table(a)[sl] == NodeId(a[sl.bucket, sl.pos])
  {
    assert sl in AllSlots(a.Length0, a.Length1);
  }

  lemma IdRange(info: map<NodeId, AddrInfo>, ids: map<Service, NodeId>, idCount: int, id: NodeId)
    requires IdsOk(info, ids, idCount) && id in info
    ensures 0 <= id.n
  {
  }

  /** The slots in `gone` have been cleared and taken off the reference count. */
  ghost predicate StripInv(m0: map<NodeId, AddrInfo>, m: map<NodeId, AddrInfo>, tab0: map<Slot, NodeId>,
                           tab: map<Slot, NodeId>, id: NodeId, gone: set<Slot>)
    requires id in m0
  {
    && tab == tab0 - gone
    && m == m0[id := m0[id].(refCount := |SlotsOf(tab0, id)| - |gone|)]
  }

  lemma StripRound(m0: map<NodeId, AddrInfo>, m: map<NodeId, AddrInfo>, tab0: map<Slot, NodeId>,
                   tab: map<Slot, NodeId>, id: NodeId, gone: set<Slot>, sl: Slot)
    requires id in m0 && id in m && StripInv(m0, m, tab0, tab, id, gone)
    ensures sl in tab && tab[sl] == id ==>
              StripInv(m0, m[id := m[id].(refCount := m[id].refCount - 1)], tab0, tab - {sl}, id, gone + {sl})
    ensures !(sl in tab && tab[sl] == id) ==>
              StripInv(m0, m, tab0, tab, id, gone + (if sl in SlotsOf(tab0, id) then {sl} else {}))
  {
    if sl in tab && tab[sl] == id {
      assert (tab0 - gone) - {sl} == tab0 - (gone + {sl});
      assert sl !in gone;
    } else if sl in SlotsOf(tab0, id) {
      assert sl in gone && gone + {sl} == gone;
    } else {
      assert gone + {} == gone;
    }
  }

  lemma SlotInTable(p: Params, key: int, svc: Service, bucket: int, a: array2<int>)
    requires 0 <= bucket < p.newBuckets && a.Length0 == p.newBuckets && a.Length1 == p.bucketSize
    ensures InTable(a, NewSlotIn(p, key, svc, bucket))
  {
  }

  // The buckets in the order in which the loop of MakeTried visits them.

  function NthBucket(start: int, n: int, m: Pos): int {
    (start + n) % m
  }

  ghost predicate Passed(start: int, n: int, m: Pos, b: int) {
    exists k :: 0 <= k < n && NthBucket(start, k, m) == b
  }

  ghost function Gone(mine: set<Slot>, start: int, n: int, m: Pos): set<Slot> {
    set sl | sl in mine && Passed(start, n, m, sl.bucket)
  }

  lemma BucketRange(start: int, n: int, m: Pos)
    ensures 0 <= NthBucket(start, n, m) < m
  {
  }

  lemma NothingGone(p: Params, key: int, info: map<NodeId, AddrInfo>, newTab: map<Slot, NodeId>, id: NodeId, start: int)
    requires NewOk(p, key, info, newTab, {}) && id in info && !info[id].inTried
    ensures Gone(SlotsOf(newTab, id), start, 0, p.newBuckets) == {}
    ensures info[id].refCount == |SlotsOf(newTab, id)|
  {
  }

  /** A round removes the entry from its own position of the bucket, if it is there. */
  lemma GoneStep(p: Params, key: int, info: map<NodeId, AddrInfo>, newTab: map<Slot, NodeId>, id: NodeId, start: int,
                 n: nat)
    requires NewOk(p, key, info, newTab, {}) && id in info
    ensures var mine := SlotsOf(newTab, id);
            var sl := NewSlotIn(p, key, info[id].addr, NthBucket(start, n, p.newBuckets));
            && Gone(mine, start, n + 1, p.newBuckets) ==
               Gone(mine, start, n, p.newBuckets) + (if sl in mine then {sl} else {})
            && (sl in mine <==> sl in newTab && newTab[sl] == id)
            && Gone(mine, start, n + 1, p.newBuckets) <= mine
  {
    hide NthBucket;
    var mine := SlotsOf(newTab, id);
    var b := NthBucket(start, n, p.newBuckets);
    forall x ensures Passed(start, n + 1, p.newBuckets, x) <==> Passed(start, n, p.newBuckets, x) || x == b {
      assert x == b ==> NthBucket(start, n, p.newBuckets) == x;
    }
    forall sl | sl in mine && sl.bucket == b ensures sl == NewSlotIn(p, key, info[id].addr, b) {
      assert sl in newTab;
    }
  }

  lemma AllGone(p: Params, key: int, info: map<NodeId, AddrInfo>, newTab: map<Slot, NodeId>, id: NodeId, start: int,
                n: nat)
    requires NewOk(p, key, info, newTab, {}) && id in info
    requires n == p.newBuckets
             || |Gone(SlotsOf(newTab, id), start, n, p.newBuckets)| == |SlotsOf(newTab, id)|
    ensures Gone(SlotsOf(newTab, id), start, n, p.newBuckets) == SlotsOf(newTab, id)
  {
    var mine := SlotsOf(newTab, id);
    var gone := Gone(mine, start, n, p.newBuckets);
    if n == p.newBuckets {
      hide NthBucket;
      forall sl | sl in mine ensures sl in gone {
        assert sl in newTab;
        Visited(sl.bucket, start, p.newBuckets);
      }
    } else {
      assert mine == gone + (mine - gone);
    }
  }

  lemma Visited(b: int, start: int, m: Pos)
    requires 0 <= b < m
    ensures Passed(start, m, m, b)
  {
    var k := (b - start) % m;
    Wrap(b, start, m);
    assert NthBucket(start, k, m) == b;
  }

  lemma Wrap(b: int, start: int, m: int)
    requires 0 <= b < m
    ensures (start + (b - start) % m) % m == b
  {
    var q := (b - start) / m;
    assert b - start == q * m + (b - start) % m;
    assert start + (b - start) % m == b + m * (-q);
    ModShift(b, m, -q);
  }

  lemma ModShift(b: int, m: int, q: int)
    requires 0 <= b < m
    ensures (b + m * q) % m == b
  {
    var x := b + m * q;
    var d := x / m;
    assert x == d * m + x % m;
    var e := q - d;
    assert m * e == x % m - b;
    assert e >= 1 ==> m * e >= m;
    assert e <= -1 ==> m * e <= -m;
  }
}
