/** The updates that the methods of the address manager are composed of, and for each of them how
    it moves an entry between "counted and placed", "counted, in no slot" and "not counted". */
module AddrManSteps {
  import opened AddrManSpec

  function Bump(counts: map<Network, Count>, net: Network, dNew: int, dTried: int): map<Network, Count> {
    var c := CountOf(counts, net);
    counts[net := Count(c.nNew + dNew, c.nTried + dTried)]
  }

  function Create(p: Params, s: State, a: Address, src: NetAddr): State {
    var id := NodeId(s.idCount);
    s.(idCount := s.idCount + 1,
       info := s.info[id := AddrInfo(a.svc, src, a.time, a.services, 0, 0, 0, 0, 0, false, |s.random|)],
       ids := s.ids[a.svc := id],
       random := s.random + [id],
       nNew := s.nNew + 1,
       counts := Bump(s.counts, p.network(a.svc), 1, 0))
  }

  function SwapRandom(s: State, i: int, j: int): State
    requires 0 <= i < |s.random| && 0 <= j < |s.random|
    requires s.random[i] in s.info && s.random[j] in s.info
  {
    if i == j then s else
      var a, b := s.random[i], s.random[j];
      var info := s.info[a := s.info[a].(randomPos := j)];
      s.(info := info[b := info[b].(randomPos := i)],
         random := s.random[i := b][j := a])
  }

  /** Forgets the entry at the end of `random`. */
  function DropLast(p: Params, s: State): State
    requires s.random != [] && s.random[|s.random| - 1] in s.info
  {
    var id := s.random[|s.random| - 1];
    s.(random := s.random[..|s.random| - 1],
       ids := s.ids - {s.info[id].addr},
       info := s.info - {id},
       nNew := s.nNew - 1,
       counts := Bump(s.counts, p.network(s.info[id].addr), -1, 0))
  }

  function Delete(p: Params, s: State, id: NodeId): State
    requires id in s.info && RandomOk(s.info, s.random)
  {
    DropLast(p, SwapRandom(s, s.info[id].randomPos, |s.random| - 1))
  }

  /** Takes the occupant out of one slot of the new table. */
  function Unref(s: State, sl: Slot): State
    requires sl in s.newTab && s.newTab[sl] in s.info
  {
    var id := s.newTab[sl];
    s.(info := s.info[id := s.info[id].(refCount := s.info[id].refCount - 1)],
       newTab := s.newTab - {sl})
  }

  function AddRef(s: State, sl: Slot, id: NodeId): State
    requires id in s.info
  {
    s.(info := s.info[id := s.info[id].(refCount := s.info[id].refCount + 1)],
       newTab := s.newTab[sl := id])
  }

  /** Takes an entry out of every slot of the new table. */
  function Strip(s: State, id: NodeId): State
    requires id in s.info
  {
    s.(info := s.info[id := s.info[id].(refCount := 0)],
       newTab := s.newTab - SlotsOf(s.newTab, id))
  }

  /** Stops (`d == -1`) or starts (`d == 1`) counting an entry as new. */
  function Recount(p: Params, s: State, id: NodeId, d: int): State
    requires id in s.info
  {
    s.(nNew := s.nNew + d,
       counts := Bump(s.counts, p.network(s.info[id].addr), d, 0))
  }

  /** Takes the occupant out of its slot of the tried table. */
  function Unseat(p: Params, s: State, sl: Slot): State
    requires sl in s.triedTab && s.triedTab[sl] in s.info
  {
    var id := s.triedTab[sl];
    s.(info := s.info[id := s.info[id].(inTried := false)],
       triedTab := s.triedTab - {sl},
       nTried := s.nTried - 1,
       counts := Bump(s.counts, p.network(s.info[id].addr), 0, -1))
  }

  function Seat(p: Params, s: State, id: NodeId): State
    requires id in s.info
  {
    s.(info := s.info[id := s.info[id].(inTried := true)],
       triedTab := s.triedTab[TriedSlot(p, s.key, s.info[id].addr) := id],
       nTried := s.nTried + 1,
       counts := Bump(s.counts, p.network(s.info[id].addr), 0, 1))
  }

  // ---------------------------------------------------------------- counting

  ghost predicate SameOff(a: map<NodeId, AddrInfo>, b: map<NodeId, AddrInfo>, x: set<NodeId>) {
    && (forall id :: id in a && id !in x <==> id in b && id !in x)
    && forall id :: id in a && id in b && id !in x ==> a[id].addr == b[id].addr && a[id].inTried == b[id].inTried
  }

  function One(b: bool): int { if b then 1 else 0 }

  lemma SetSize<T>(a: set<T>, b: set<T>, x: T)
    requires a - {x} == b - {x}
    ensures |b| == |a| - One(x in a) + One(x in b)
  {
    assert a == (a - {x}) + (if x in a then {x} else {});
    assert b == (b - {x}) + (if x in b then {x} else {});
  }

  /** Changing one entry changes each tally by at most that entry. */
  lemma Retally(p: Params, a: map<NodeId, AddrInfo>, b: map<NodeId, AddrInfo>, ua: set<NodeId>, ub: set<NodeId>,
                id: NodeId)
    requires SameOff(a, b, {id}) && ua - {id} == ub - {id}
    ensures forall net ::
              |NewIds(p, b, ub, net)| ==
              |NewIds(p, a, ua, net)| - One(id in NewIds(p, a, ua, net)) + One(id in NewIds(p, b, ub, net))
    ensures forall net ::
              |TriedIds(p, b, net)| ==
              |TriedIds(p, a, net)| - One(id in TriedIds(p, a, net)) + One(id in TriedIds(p, b, net))
  {
    forall net
      ensures |NewIds(p, b, ub, net)| ==
        |NewIds(p, a, ua, net)| - One(id in NewIds(p, a, ua, net)) + One(id in NewIds(p, b, ub, net))
    {
      var x, y := NewIds(p, a, ua, net), NewIds(p, b, ub, net);
      forall k ensures k in x - {id} <==> k in y - {id} {
        assert k in ua - {id} <==> k in ub - {id};
      }
      SetSize(x, y, id);
    }
    forall net
      ensures |TriedIds(p, b, net)| ==
        |TriedIds(p, a, net)| - One(id in TriedIds(p, a, net)) + One(id in TriedIds(p, b, net))
    {
      var x, y := TriedIds(p, a, net), TriedIds(p, b, net);
      forall k ensures k in x - {id} <==> k in y - {id} {
      }
      SetSize(x, y, id);
    }
  }

  predicate IsNew(info: map<NodeId, AddrInfo>, uncounted: set<NodeId>, id: NodeId) {
    id in info && !info[id].inTried && id !in uncounted
  }

  predicate IsTried(info: map<NodeId, AddrInfo>, id: NodeId) {
    id in info && info[id].inTried
  }

  /** Counters stay exact when they move by as much as the one changed entry does. */
  lemma CountsStep(p: Params, a: map<NodeId, AddrInfo>, b: map<NodeId, AddrInfo>, ua: set<NodeId>, ub: set<NodeId>,
                   id: NodeId, net: Network, nNew: int, nTried: int, counts: map<Network, Count>, dNew: int,
                   dTried: int)
    requires CountsOk(p, a, nNew, nTried, counts, ua)
    requires SameOff(a, b, {id}) && ua - {id} == ub - {id}
    requires id in a ==> p.network(a[id].addr) == net
    requires id in b ==> p.network(b[id].addr) == net
    requires dNew == One(IsNew(b, ub, id)) - One(IsNew(a, ua, id))
    requires dTried == One(IsTried(b, id)) - One(IsTried(a, id))
    ensures CountsOk(p, b, nNew + dNew, nTried + dTried, Bump(counts, net, dNew, dTried), ub)
  {
    Retally(p, a, b, ua, ub, id);
  }

  lemma CountsSame(p: Params, a: map<NodeId, AddrInfo>, b: map<NodeId, AddrInfo>, u: set<NodeId>,
                   nNew: int, nTried: int, counts: map<Network, Count>)
    requires CountsOk(p, a, nNew, nTried, counts, u)
    requires SameOff(a, b, {})
    ensures CountsOk(p, b, nNew, nTried, counts, u)
  {
    forall net ensures NewIds(p, a, u, net) == NewIds(p, b, u, net) {
      assert forall id :: id in NewIds(p, a, u, net) <==> id in NewIds(p, b, u, net);
    }
    forall net ensures TriedIds(p, a, net) == TriedIds(p, b, net) {
      assert forall id :: id in TriedIds(p, a, net) <==> id in TriedIds(p, b, net);
    }
  }

  // ---------------------------------------------------------------- the order of `random`

  lemma RandomPush(info: map<NodeId, AddrInfo>, random: seq<NodeId>, id: NodeId, i: AddrInfo)
    requires RandomOk(info, random) && id !in info && i.randomPos == |random|
    ensures RandomOk(info[id := i], random + [id])
  {
  }

  lemma RandomSwap(s: State, i: int, j: int)
    requires RandomOk(s.info, s.random)
    requires 0 <= i < |s.random| && 0 <= j < |s.random|
    ensures RandomOk(SwapRandom(s, i, j).info, SwapRandom(s, i, j).random)
  {
  }

  lemma RandomUpdate(info: map<NodeId, AddrInfo>, random: seq<NodeId>, id: NodeId, i: AddrInfo)
    requires RandomOk(info, random) && id in info && i.randomPos == info[id].randomPos
    ensures RandomOk(info[id := i], random)
  {
  }

  lemma RandomPop(info: map<NodeId, AddrInfo>, random: seq<NodeId>)
    requires RandomOk(info, random) && random != []
    ensures RandomOk(info - {random[|random| - 1]}, random[..|random| - 1])
  {
  }

  // ---------------------------------------------------------------- the index by address

  lemma IdsInsert(info: map<NodeId, AddrInfo>, ids: map<Service, NodeId>, id: NodeId, i: AddrInfo)
    requires IdsOk(info, ids, id.n) && i.addr !in ids
    ensures IdsOk(info[id := i], ids[i.addr := id], id.n + 1)
  {
  }

  lemma IdUnused(info: map<NodeId, AddrInfo>, ids: map<Service, NodeId>, idCount: int)
    requires IdsOk(info, ids, idCount)
    ensures NodeId(idCount) !in info
  {
  }

  lemma IdsRemove(info: map<NodeId, AddrInfo>, ids: map<Service, NodeId>, idCount: int, id: NodeId)
    requires IdsOk(info, ids, idCount) && id in info
    ensures IdsOk(info - {id}, ids - {info[id].addr}, idCount)
  {
  }

  // ---------------------------------------------------------------- entries that keep their place

  /** The two tables of entries agree on everything that decides which slots an entry may hold. */
  ghost predicate SamePlaces(a: map<NodeId, AddrInfo>, b: map<NodeId, AddrInfo>) {
    && (forall id :: id in a <==> id in b)
    && forall id :: id in a && id in b ==>
         a[id].addr == b[id].addr && a[id].inTried == b[id].inTried && a[id].refCount == b[id].refCount
  }

  lemma SamePlacesIds(a: map<NodeId, AddrInfo>, b: map<NodeId, AddrInfo>, ids: map<Service, NodeId>, idCount: int)
    requires IdsOk(a, ids, idCount) && SamePlaces(a, b)
    ensures IdsOk(b, ids, idCount)
  {
    forall x | x in ids ensures ids[x] in b && b[ids[x]].addr == x {
      assert ids[x] in a;
    }
  }

  lemma SamePlacesTables(p: Params, key: int, a: map<NodeId, AddrInfo>, b: map<NodeId, AddrInfo>,
                         newTab: map<Slot, NodeId>, triedTab: map<Slot, NodeId>, loose: set<NodeId>)
    requires NewOk(p, key, a, newTab, loose) && TriedOk(p, key, a, triedTab) && SamePlaces(a, b)
    ensures NewOk(p, key, b, newTab, loose) && TriedOk(p, key, b, triedTab)
  {
    assert forall sl :: sl in newTab ==> newTab[sl] in a && newTab[sl] in b;
    assert forall sl :: sl in triedTab ==> triedTab[sl] in a && triedTab[sl] in b;
  }

  lemma SamePlacesKeeps(p: Params, s: State, t: State, zero: set<NodeId>, uncounted: set<NodeId>)
    requires Inv(p, s, zero, uncounted)
    requires SamePlaces(s.info, t.info) && RandomOk(t.info, t.random)
    requires t == s.(info := t.info, random := t.random, lastGood := t.lastGood, collisions := t.collisions)
    ensures Inv(p, t, zero, uncounted)
  {
    SamePlacesIds(s.info, t.info, s.ids, s.idCount);
    SamePlacesTables(p, s.key, s.info, t.info, s.newTab, s.triedTab, zero + uncounted);
    CountsSame(p, s.info, t.info, uncounted, s.nNew, s.nTried, s.counts);
  }

  // ---------------------------------------------------------------- one step at a time

  lemma CreateKeeps(p: Params, s: State, a: Address, src: NetAddr, zero: set<NodeId>)
    requires Inv(p, s, zero, {})
    requires a.svc !in s.ids
    ensures Inv(p, Create(p, s, a, src), zero + {NodeId(s.idCount)}, {})
  {
    hide RandomOk, IdsOk, TriedOk, NewOk, CountsOk;
    var t := Create(p, s, a, src);
    var id := NodeId(s.idCount);
    IdUnused(s.info, s.ids, s.idCount);
    assert zero + {} == zero && (zero + {id}) + {} == zero + {id};
    RandomPush(s.info, s.random, id, t.info[id]);
    IdsInsert(s.info, s.ids, id, t.info[id]);
    NewInsert(p, s.key, s.info, s.newTab, id, t.info[id], zero);
    TriedInsert(p, s.key, s.info, s.triedTab, id, t.info[id]);
    CountsStep(p, s.info, t.info, {}, {}, id, p.network(a.svc), s.nNew, s.nTried, s.counts, 1, 0);
  }

  lemma NewInsert(p: Params, key: int, info: map<NodeId, AddrInfo>, newTab: map<Slot, NodeId>, id: NodeId, i: AddrInfo,
                  loose: set<NodeId>)
    requires NewOk(p, key, info, newTab, loose) && id !in info && !i.inTried && i.refCount == 0
    ensures NewOk(p, key, info[id := i], newTab, loose + {id})
  {
    assert SlotsOf(newTab, id) == {};
  }

  lemma TriedInsert(p: Params, key: int, info: map<NodeId, AddrInfo>, triedTab: map<Slot, NodeId>, id: NodeId,
                    i: AddrInfo)
    requires TriedOk(p, key, info, triedTab) && id !in info && !i.inTried
    ensures TriedOk(p, key, info[id := i], triedTab)
  {
  }

  lemma SwapRandomKeeps(p: Params, s: State, i: int, j: int, zero: set<NodeId>, uncounted: set<NodeId>)
    requires Inv(p, s, zero, uncounted)
    requires 0 <= i < |s.random| && 0 <= j < |s.random|
    ensures Inv(p, SwapRandom(s, i, j), zero, uncounted)
    ensures SamePlaces(s.info, SwapRandom(s, i, j).info)
  {
    RandomSwap(s, i, j);
    SwapPlaces(s, i, j);
    SamePlacesKeeps(p, s, SwapRandom(s, i, j), zero, uncounted);
  }

  lemma SwapPlaces(s: State, i: int, j: int)
    requires 0 <= i < |s.random| && 0 <= j < |s.random|
    requires s.random[i] in s.info && s.random[j] in s.info
    ensures SamePlaces(s.info, SwapRandom(s, i, j).info)
  {
  }

  lemma DropLastKeeps(p: Params, s: State, id: NodeId, zero: set<NodeId>, uncounted: set<NodeId>)
    requires Inv(p, s, zero, uncounted) && id in zero
    requires s.random != [] && s.random[|s.random| - 1] == id
    ensures Inv(p, DropLast(p, s), zero - {id}, uncounted)
  {
    hide RandomOk, IdsOk, TriedOk, NewOk, CountsOk;
    RandomPop(s.info, s.random);
    IdsRemove(s.info, s.ids, s.idCount, id);
    TriedRemove(p, s.key, s.info, s.triedTab, id);
    NewRemove(p, s.key, s.info, s.newTab, id, zero + uncounted);
    assert (zero + uncounted) - {id} == (zero - {id}) + uncounted;
    CountsStep(p, s.info, s.info - {id}, uncounted, uncounted, id, p.network(s.info[id].addr),
               s.nNew, s.nTried, s.counts, -1, 0);
  }

  lemma SwapLast(s: State, id: NodeId)
    requires RandomOk(s.info, s.random) && id in s.info
    ensures var t := SwapRandom(s, s.info[id].randomPos, |s.random| - 1);
            t.random != [] && t.random[|t.random| - 1] == id
  {
  }

  lemma DeleteKeeps(p: Params, s: State, id: NodeId, zero: set<NodeId>, uncounted: set<NodeId>)
    requires Inv(p, s, zero, uncounted) && id in zero
    ensures Inv(p, Delete(p, s, id), zero - {id}, uncounted)
  {
    hide IdsOk, TriedOk, NewOk, CountsOk, SwapRandom, DropLast;
    SwapLast(s, id);
    SwapRandomKeeps(p, s, s.info[id].randomPos, |s.random| - 1, zero, uncounted);
    DropLastKeeps(p, SwapRandom(s, s.info[id].randomPos, |s.random| - 1), id, zero, uncounted);
  }

  lemma TriedRemove(p: Params, key: int, info: map<NodeId, AddrInfo>, triedTab: map<Slot, NodeId>, id: NodeId)
    requires TriedOk(p, key, info, triedTab) && id in info && !info[id].inTried
    ensures TriedOk(p, key, info - {id}, triedTab)
  {
  }

  lemma NewRemove(p: Params, key: int, info: map<NodeId, AddrInfo>, newTab: map<Slot, NodeId>, id: NodeId,
                  loose: set<NodeId>)
    requires NewOk(p, key, info, newTab, loose) && id in info && id in loose
    ensures NewOk(p, key, info - {id}, newTab, loose - {id})
  {
  }

  lemma UnrefKeeps(p: Params, s: State, sl: Slot, id: NodeId, zero: set<NodeId>, uncounted: set<NodeId>)
    requires Inv(p, s, zero, uncounted) && sl in s.newTab && s.newTab[sl] == id && id in s.info
    ensures Inv(p, Unref(s, sl), if s.info[id].refCount == 1 then zero + {id} else zero, uncounted)
  {
    hide RandomOk, IdsOk, TriedOk, NewOk, CountsOk, SlotsOf;
    OccupantOk(p, s.key, s.info, s.newTab, sl, zero + uncounted);
    var i := s.info[id].(refCount := s.info[id].refCount - 1);
    RandomUpdate(s.info, s.random, id, i);
    IdsUpdate(s.info, s.ids, s.idCount, id, i);
    TriedUpdate(p, s.key, s.info, s.triedTab, id, i);
    NewUnref(p, s.key, s.info, s.newTab, sl, zero + uncounted);
    assert (zero + uncounted) + {id} == (zero + {id}) + uncounted;
    CountsSame(p, s.info, s.info[id := i], uncounted, s.nNew, s.nTried, s.counts);
  }

  lemma OccupantOk(p: Params, key: int, info: map<NodeId, AddrInfo>, newTab: map<Slot, NodeId>, sl: Slot,
                   loose: set<NodeId>)
    requires NewOk(p, key, info, newTab, loose) && sl in newTab
    ensures var id := newTab[sl]; id in info && !info[id].inTried && info[id].refCount > 0 && id !in loose
  {
    SlotsWithout(newTab, sl);
  }

  lemma AddRefKeeps(p: Params, s: State, sl: Slot, id: NodeId, zero: set<NodeId>, uncounted: set<NodeId>)
    requires Inv(p, s, zero, uncounted) && sl !in s.newTab
    requires id in s.info && !s.info[id].inTried && id !in uncounted
    requires s.info[id].refCount < NEW_BUCKETS_PER_ADDRESS
    requires 0 <= sl.bucket < p.newBuckets && sl == NewSlotIn(p, s.key, s.info[id].addr, sl.bucket)
    ensures Inv(p, AddRef(s, sl, id), zero - {id}, uncounted)
  {
    hide RandomOk, IdsOk, TriedOk, NewOk, CountsOk;
    var i := s.info[id].(refCount := s.info[id].refCount + 1);
    RandomUpdate(s.info, s.random, id, i);
    IdsUpdate(s.info, s.ids, s.idCount, id, i);
    TriedUpdate(p, s.key, s.info, s.triedTab, id, i);
    NewAddRef(p, s.key, s.info, s.newTab, sl, id, zero + uncounted);
    assert (zero + uncounted) - {id} == (zero - {id}) + uncounted;
    CountsSame(p, s.info, s.info[id := i], uncounted, s.nNew, s.nTried, s.counts);
  }

  lemma NewAddRef(p: Params, key: int, info: map<NodeId, AddrInfo>, newTab: map<Slot, NodeId>, sl: Slot, id: NodeId,
                  loose: set<NodeId>)
    requires NewOk(p, key, info, newTab, loose) && sl !in newTab
    requires id in info && !info[id].inTried && info[id].refCount < NEW_BUCKETS_PER_ADDRESS
    requires 0 <= sl.bucket < p.newBuckets && sl == NewSlotIn(p, key, info[id].addr, sl.bucket)
    ensures NewOk(p, key, info[id := info[id].(refCount := info[id].refCount + 1)], newTab[sl := id], loose - {id})
  {
    SlotsWith(newTab, sl, id);
  }

  lemma StripKeeps(p: Params, s: State, id: NodeId, zero: set<NodeId>, uncounted: set<NodeId>)
    requires Inv(p, s, zero, uncounted)
    requires id in s.info && !s.info[id].inTried && id !in uncounted
    ensures Inv(p, Strip(s, id), zero + {id}, uncounted)
  {
    hide RandomOk, IdsOk, TriedOk, NewOk, CountsOk, SlotsOf;
    var i := s.info[id].(refCount := 0);
    RandomUpdate(s.info, s.random, id, i);
    IdsUpdate(s.info, s.ids, s.idCount, id, i);
    TriedUpdate(p, s.key, s.info, s.triedTab, id, i);
    NewStrip(p, s.key, s.info, s.newTab, id, zero + uncounted);
    assert (zero + uncounted) + {id} == (zero + {id}) + uncounted;
    CountsSame(p, s.info, s.info[id := i], uncounted, s.nNew, s.nTried, s.counts);
  }

  lemma NewStrip(p: Params, key: int, info: map<NodeId, AddrInfo>, newTab: map<Slot, NodeId>, id: NodeId,
                 loose: set<NodeId>)
    requires NewOk(p, key, info, newTab, loose) && id in info && !info[id].inTried
    ensures NewOk(p, key, info[id := info[id].(refCount := 0)], newTab - SlotsOf(newTab, id), loose + {id})
  {
    var t := newTab - SlotsOf(newTab, id);
    assert SlotsOf(t, id) == {};
    forall x | x != id ensures SlotsOf(t, x) == SlotsOf(newTab, x) {
      assert forall sl :: sl in SlotsOf(t, x) <==> sl in SlotsOf(newTab, x);
    }
  }

  /** An entry in no slot stops being counted as new. */
  lemma UncountKeeps(p: Params, s: State, id: NodeId, zero: set<NodeId>, uncounted: set<NodeId>)
    requires Inv(p, s, zero, uncounted) && id in zero
    ensures Inv(p, Recount(p, s, id, -1), zero - {id}, uncounted + {id})
  {
    hide RandomOk, IdsOk, TriedOk, NewOk, CountsOk;
    assert zero + uncounted == (zero - {id}) + (uncounted + {id});
    CountsStep(p, s.info, s.info, uncounted, uncounted + {id}, id, p.network(s.info[id].addr),
               s.nNew, s.nTried, s.counts, -1, 0);
  }

  lemma CountKeeps(p: Params, s: State, id: NodeId, zero: set<NodeId>, uncounted: set<NodeId>)
    requires Inv(p, s, zero, uncounted) && id in uncounted
    ensures Inv(p, Recount(p, s, id, 1), zero + {id}, uncounted - {id})
  {
    hide RandomOk, IdsOk, TriedOk, NewOk, CountsOk;
    assert zero + uncounted == (zero + {id}) + (uncounted - {id});
    CountsStep(p, s.info, s.info, uncounted, uncounted - {id}, id, p.network(s.info[id].addr),
               s.nNew, s.nTried, s.counts, 1, 0);
  }

  lemma UnseatKeeps(p: Params, s: State, sl: Slot, id: NodeId, zero: set<NodeId>, uncounted: set<NodeId>)
    requires Inv(p, s, zero, uncounted) && sl in s.triedTab && s.triedTab[sl] == id && id in s.info
    ensures Inv(p, Unseat(p, s, sl), zero, uncounted + {id})
  {
    hide RandomOk, IdsOk, TriedOk, NewOk, CountsOk, SlotsOf;
    SeatedOk(p, s.key, s.info, s.triedTab, sl);
    var i := s.info[id].(inTried := false);
    RandomUpdate(s.info, s.random, id, i);
    IdsUpdate(s.info, s.ids, s.idCount, id, i);
    TriedUnseat(p, s.key, s.info, s.triedTab, sl);
    NewUnseat(p, s.key, s.info, s.newTab, id, zero + uncounted);
    assert (zero + uncounted) + {id} == zero + (uncounted + {id});
    CountsStep(p, s.info, s.info[id := i], uncounted, uncounted + {id}, id, p.network(i.addr),
               s.nNew, s.nTried, s.counts, 0, -1);
  }

  lemma SeatedOk(p: Params, key: int, info: map<NodeId, AddrInfo>, triedTab: map<Slot, NodeId>, sl: Slot)
    requires TriedOk(p, key, info, triedTab) && sl in triedTab
    ensures var id := triedTab[sl]; id in info && info[id].inTried && info[id].refCount == 0
  {
  }

  lemma TriedUnseat(p: Params, key: int, info: map<NodeId, AddrInfo>, triedTab: map<Slot, NodeId>, sl: Slot)
    requires TriedOk(p, key, info, triedTab) && sl in triedTab
    ensures var id := triedTab[sl];
            TriedOk(p, key, info[id := info[id].(inTried := false)], triedTab - {sl})
  {
  }

  lemma NewUnseat(p: Params, key: int, info: map<NodeId, AddrInfo>, newTab: map<Slot, NodeId>, id: NodeId,
                  loose: set<NodeId>)
    requires NewOk(p, key, info, newTab, loose) && id in info && info[id].inTried && info[id].refCount == 0
    ensures NewOk(p, key, info[id := info[id].(inTried := false)], newTab, loose + {id})
  {
    assert SlotsOf(newTab, id) == {};
  }

  lemma SeatKeeps(p: Params, s: State, id: NodeId, zero: set<NodeId>, uncounted: set<NodeId>)
    requires Inv(p, s, zero, uncounted) && id in uncounted
    requires TriedSlot(p, s.key, s.info[id].addr) !in s.triedTab
    ensures Inv(p, Seat(p, s, id), zero, uncounted - {id})
  {
    hide RandomOk, IdsOk, TriedOk, NewOk, CountsOk, TriedSlot;
    LooseZero(p, s.key, s.info, s.newTab, zero + uncounted, id);
    var i := s.info[id].(inTried := true);
    RandomUpdate(s.info, s.random, id, i);
    IdsUpdate(s.info, s.ids, s.idCount, id, i);
    TriedSeat(p, s.key, s.info, s.triedTab, id);
    NewSeat(p, s.key, s.info, s.newTab, id, zero + uncounted);
    assert (zero + uncounted) - {id} == zero + (uncounted - {id});
    CountsStep(p, s.info, s.info[id := i], uncounted, uncounted - {id}, id, p.network(i.addr),
               s.nNew, s.nTried, s.counts, 0, 1);
  }

  lemma LooseZero(p: Params, key: int, info: map<NodeId, AddrInfo>, newTab: map<Slot, NodeId>, loose: set<NodeId>,
                  id: NodeId)
    requires NewOk(p, key, info, newTab, loose) && id in info && !info[id].inTried && id in loose
    ensures info[id].refCount == 0
  {
  }

  lemma TriedSeat(p: Params, key: int, info: map<NodeId, AddrInfo>, triedTab: map<Slot, NodeId>, id: NodeId)
    requires TriedOk(p, key, info, triedTab) && id in info && !info[id].inTried && info[id].refCount == 0
    requires TriedSlot(p, key, info[id].addr) !in triedTab
    ensures TriedOk(p, key, info[id := info[id].(inTried := true)], triedTab[TriedSlot(p, key, info[id].addr) := id])
  {
  }

  lemma NewSeat(p: Params, key: int, info: map<NodeId, AddrInfo>, newTab: map<Slot, NodeId>, id: NodeId,
                loose: set<NodeId>)
    requires NewOk(p, key, info, newTab, loose) && id in info && !info[id].inTried && id in loose
    ensures NewOk(p, key, info[id := info[id].(inTried := true)], newTab, loose - {id})
  {
  }

  lemma SlotsWithout(tab: map<Slot, NodeId>, sl: Slot)
    requires sl in tab
    ensures |SlotsOf(tab - {sl}, tab[sl])| == |SlotsOf(tab, tab[sl])| - 1
    ensures forall id :: id != tab[sl] ==> SlotsOf(tab - {sl}, id) == SlotsOf(tab, id)
  {
    assert SlotsOf(tab, tab[sl]) == SlotsOf(tab - {sl}, tab[sl]) + {sl};
  }

  lemma SlotsWith(tab: map<Slot, NodeId>, sl: Slot, x: NodeId)
    requires sl !in tab
    ensures |SlotsOf(tab[sl := x], x)| == |SlotsOf(tab, x)| + 1
    ensures forall id :: id != x ==> SlotsOf(tab[sl := x], id) == SlotsOf(tab, id)
  {
    assert SlotsOf(tab[sl := x], x) == SlotsOf(tab, x) + {sl};
  }

  lemma IdsUpdate(info: map<NodeId, AddrInfo>, ids: map<Service, NodeId>, idCount: int, id: NodeId, i: AddrInfo)
    requires IdsOk(info, ids, idCount) && id in info && i.addr == info[id].addr
    ensures IdsOk(info[id := i], ids, idCount)
  {
  }

  lemma TriedUpdate(p: Params, key: int, info: map<NodeId, AddrInfo>, triedTab: map<Slot, NodeId>, id: NodeId,
                    i: AddrInfo)
    requires TriedOk(p, key, info, triedTab) && id in info && i.addr == info[id].addr
    requires !info[id].inTried && !i.inTried
    ensures TriedOk(p, key, info[id := i], triedTab)
  {
  }

  lemma NewUnref(p: Params, key: int, info: map<NodeId, AddrInfo>, newTab: map<Slot, NodeId>, sl: Slot,
                 loose: set<NodeId>)
    requires NewOk(p, key, info, newTab, loose) && sl in newTab
    ensures var id := newTab[sl];
            var i := info[id].(refCount := info[id].refCount - 1);
            NewOk(p, key, info[id := i], newTab - {sl}, if i.refCount == 0 then loose + {id} else loose)
  {
    hide NewSlotIn;
    SlotsWithout(newTab, sl);
  }
}
