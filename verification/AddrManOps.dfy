/** The operations of the address manager as functions on its state, and the proof that each of
    them keeps the invariant, never empties a tried slot and never reuses an id. */
module AddrManOps {
  import opened AddrManSpec
  import opened AddrManSteps

  // ---------------------------------------------------------------- clearing a slot of the new table

  function ClearNew(p: Params, s: State, sl: Slot): State
    requires RandomOk(s.info, s.random)
    requires sl in s.newTab ==> s.newTab[sl] in s.info
  {
    if sl !in s.newTab then s else
      var id := s.newTab[sl];
      var t := Unref(s, sl);
      RandomUpdate(s.info, s.random, id, t.info[id]);
      if t.info[id].refCount == 0 then Delete(p, t, id) else t
  }

  lemma ClearNewKeeps(p: Params, s: State, sl: Slot, zero: set<NodeId>, uncounted: set<NodeId>)
    requires Inv(p, s, zero, uncounted)
    requires sl in s.newTab ==> s.newTab[sl] in s.info
    ensures Inv(p, ClearNew(p, s, sl), zero, uncounted)
  {
    hide RandomOk, IdsOk, TriedOk, NewOk, CountsOk, LooseOk, Delete;
    if sl in s.newTab {
      var id := s.newTab[sl];
      OccupantOk(p, s.key, s.info, s.newTab, sl, zero + uncounted);
      UnrefKeeps(p, s, sl, id, zero, uncounted);
      if s.info[id].refCount == 1 {
        DeleteKeeps(p, Unref(s, sl), id, zero + {id}, uncounted);
        assert (zero + {id}) - {id} == zero;
      }
    }
  }

  /** Entries may vanish, but those that stay keep their identity and statistics; only the fields
      that the invariant ties to the tables (`refCount`, `inTried`, `randomPos`) may differ. */
  ghost predicate Kept(a: map<NodeId, AddrInfo>, b: map<NodeId, AddrInfo>) {
    forall id :: id in b ==>
      && id in a
      && b[id] == a[id].(refCount := b[id].refCount, inTried := b[id].inTried, randomPos := b[id].randomPos)
  }

  ghost predicate Frame(s: State, t: State) {
    && Kept(s.info, t.info)
    && t.key == s.key && t.idCount == s.idCount
    && t.lastGood == s.lastGood && t.collisions == s.collisions
  }

  lemma FrameTrans(s: State, t: State, u: State)
    requires Frame(s, t) && Frame(t, u)
    ensures Frame(s, u)
  {
  }

  lemma SwapFrame(s: State, i: int, j: int)
    requires 0 <= i < |s.random| && 0 <= j < |s.random|
    requires s.random[i] in s.info && s.random[j] in s.info
    ensures Frame(s, SwapRandom(s, i, j))
    ensures SwapRandom(s, i, j).newTab == s.newTab && SwapRandom(s, i, j).triedTab == s.triedTab
  {
    if i != j {
      var a, b := s.random[i], s.random[j];
      assert SwapRandom(s, i, j).info == s.info[a := s.info[a].(randomPos := j)]
                                         [b := s.info[a := s.info[a].(randomPos := j)][b].(randomPos := i)];
    }
  }

  lemma DropFrame(p: Params, s: State)
    requires s.random != [] && s.random[|s.random| - 1] in s.info
    ensures Frame(s, DropLast(p, s))
    ensures DropLast(p, s).newTab == s.newTab && DropLast(p, s).triedTab == s.triedTab
  {
  }

  lemma DeleteFrame(p: Params, s: State, id: NodeId)
    requires RandomOk(s.info, s.random) && id in s.info
    ensures Frame(s, Delete(p, s, id))
    ensures Delete(p, s, id).newTab == s.newTab && Delete(p, s, id).triedTab == s.triedTab
  {
    hide Frame, SwapRandom, DropLast;
    var t := SwapRandom(s, s.info[id].randomPos, |s.random| - 1);
    SwapFrame(s, s.info[id].randomPos, |s.random| - 1);
    SwapLast(s, id);
    SwapPlaces(s, s.info[id].randomPos, |s.random| - 1);
    DropFrame(p, t);
    FrameTrans(s, t, DropLast(p, t));
  }

  lemma ClearNewFrame(p: Params, s: State, sl: Slot)
    requires RandomOk(s.info, s.random)
    requires sl in s.newTab ==> s.newTab[sl] in s.info
    ensures Frame(s, ClearNew(p, s, sl))
    ensures ClearNew(p, s, sl).newTab == s.newTab - {sl} && ClearNew(p, s, sl).triedTab == s.triedTab
  {
    if sl in s.newTab {
      var id := s.newTab[sl];
      var t := Unref(s, sl);
      RandomUpdate(s.info, s.random, id, t.info[id]);
      assert Frame(s, t);
      if t.info[id].refCount == 0 {
        hide Frame, Delete;
        DeleteFrame(p, t, id);
        FrameTrans(s, t, Delete(p, t, id));
      }
    }
  }

  // ---------------------------------------------------------------- moving an entry to the tried table

  /** The occupant of the tried slot that `id` wants, moved back to the new table. */
  function Evict(p: Params, s: State, id: NodeId): State
    requires Inv(p, s, {}, {id})
  {
    var sl := TriedSlot(p, s.key, s.info[id].addr);
    if sl !in s.triedTab then s else
      var e := s.triedTab[sl];
      UnseatReady(p, s, id, sl);
      var ns := NewSlot(p, s.key, s.info[e].addr, s.info[e].source);
      ClearReady(p, Unseat(p, s, sl), id, e, ns);
      var u := ClearNew(p, Unseat(p, s, sl), ns);
      AddRef(Recount(p, u, e, 1), ns, e)
  }

  lemma UnseatReady(p: Params, s: State, id: NodeId, sl: Slot)
    requires Inv(p, s, {}, {id}) && sl in s.triedTab
    ensures s.triedTab[sl] in s.info && s.triedTab[sl] != id
    ensures Inv(p, Unseat(p, s, sl), {}, {id, s.triedTab[sl]})
    ensures Frame(s, Unseat(p, s, sl))
  {
    hide RandomOk, IdsOk, NewOk, CountsOk, TriedOk;
    SeatedOk(p, s.key, s.info, s.triedTab, sl);
    UnseatKeeps(p, s, sl, s.triedTab[sl], {}, {id});
    assert {id} + {s.triedTab[sl]} == {id, s.triedTab[sl]};
  }

  lemma ClearReady(p: Params, s: State, id: NodeId, e: NodeId, ns: Slot)
    requires Inv(p, s, {}, {id, e})
    ensures ns in s.newTab ==> s.newTab[ns] in s.info
    ensures RandomOk(s.info, s.random)
    ensures Inv(p, ClearNew(p, s, ns), {}, {id, e})
    ensures e in ClearNew(p, s, ns).info && id in ClearNew(p, s, ns).info
    ensures Frame(s, ClearNew(p, s, ns))
    ensures ClearNew(p, s, ns).newTab == s.newTab - {ns} && ClearNew(p, s, ns).triedTab == s.triedTab
  {
    hide RandomOk, IdsOk, CountsOk, TriedOk, NewOk, ClearNew, Frame;
    if ns in s.newTab {
      OccupantOk(p, s.key, s.info, s.newTab, ns, {} + {id, e});
    }
    ClearNewKeeps(p, s, ns, {}, {id, e});
    ClearNewFrame(p, s, ns);
  }

  /** What is known once the occupant is unseated and the slot it goes to is cleared. */
  ghost predicate Cleared(p: Params, s: State, u: State, id: NodeId, e: NodeId, ns: Slot) {
    && Inv(p, u, {}, {id, e})
    && e in u.info && id in u.info && e in s.info && e != id
    && Frame(s, u)
    && u.newTab == s.newTab - {ns}
    && u.triedTab == s.triedTab - {TriedSlot(p, s.key, s.info[id].addr)}
  }

  lemma PlaceKeeps(p: Params, s: State, u: State, id: NodeId, e: NodeId, ns: Slot)
    requires Inv(p, s, {}, {id}) && e in s.info && ns == NewSlot(p, s.key, s.info[e].addr, s.info[e].source)
    requires Cleared(p, s, u, id, e, ns)
    ensures Inv(p, AddRef(Recount(p, u, e, 1), ns, e), {}, {id})
  {
    hide RandomOk, IdsOk, CountsOk, TriedOk, NewOk;
    LooseZero(p, u.key, u.info, u.newTab, {} + {id, e}, e);
    CountKeeps(p, u, e, {}, {id, e});
    assert {} + {e} == {e} && {id, e} - {e} == {id};
    assert u.info[e].addr == s.info[e].addr;
    AddRefKeeps(p, Recount(p, u, e, 1), ns, e, {e}, {id});
    assert {e} - {e} == {};
  }

  /** The new table once the occupant of the tried slot `sl`, if any, has moved there. */
  function EvictedTab(p: Params, s: State, sl: Slot): map<Slot, NodeId>
    requires sl in s.triedTab ==> s.triedTab[sl] in s.info
  {
    if sl in s.triedTab then
      var e := s.triedTab[sl];
      s.newTab[NewSlot(p, s.key, s.info[e].addr, s.info[e].source) := e]
    else s.newTab
  }

  lemma EvictKeeps(p: Params, s: State, id: NodeId, sl: Slot)
    requires Inv(p, s, {}, {id}) && sl == TriedSlot(p, s.key, s.info[id].addr)
    requires sl in s.triedTab ==> s.triedTab[sl] in s.info
    ensures Inv(p, Evict(p, s, id), {}, {id})
    ensures Frame(s, Evict(p, s, id))
    ensures Evict(p, s, id).triedTab == s.triedTab - {sl}
    ensures Evict(p, s, id).newTab == EvictedTab(p, s, sl)
  {
    hide RandomOk, IdsOk, CountsOk, TriedOk, NewOk, ClearNew, TriedSlot, NewSlot, Kept;
    if sl in s.triedTab {
      var e := s.triedTab[sl];
      UnseatReady(p, s, id, sl);
      var ns := NewSlot(p, s.key, s.info[e].addr, s.info[e].source);
      var v := Unseat(p, s, sl);
      ClearReady(p, v, id, e, ns);
      var u := ClearNew(p, v, ns);
      FrameTrans(s, v, u);
      PlaceKeeps(p, s, u, id, e, ns);
      PlaceFrame(p, u, ns, e);
      FrameTrans(s, u, AddRef(Recount(p, u, e, 1), ns, e));
    } else {
      FrameSelf(s);
    }
  }

  lemma FrameSelf(s: State)
    ensures Frame(s, s)
  {
  }

  lemma PlaceFrame(p: Params, u: State, ns: Slot, e: NodeId)
    requires e in u.info
    ensures Frame(u, AddRef(Recount(p, u, e, 1), ns, e))
  {
  }

  function MakeTried(p: Params, s: State, id: NodeId): State
    requires Inv(p, s, {}, {}) && id in s.info && !s.info[id].inTried
  {
    StripReady(p, s, id);
    var t := Recount(p, Strip(s, id), id, -1);
    TriedIn(p, t, {}, {id});
    EvictKeeps(p, t, id, TriedSlot(p, t.key, t.info[id].addr));
    Seat(p, Evict(p, t, id), id)
  }

  lemma TriedIn(p: Params, s: State, zero: set<NodeId>, uncounted: set<NodeId>)
    requires Inv(p, s, zero, uncounted)
    ensures forall sl :: sl in s.triedTab ==> s.triedTab[sl] in s.info
  {
  }

  lemma StripReady(p: Params, s: State, id: NodeId)
    requires Inv(p, s, {}, {}) && id in s.info && !s.info[id].inTried
    ensures Inv(p, Recount(p, Strip(s, id), id, -1), {}, {id})
    ensures Frame(s, Recount(p, Strip(s, id), id, -1))
  {
    hide RandomOk, IdsOk, CountsOk, TriedOk, NewOk;
    StripKeeps(p, s, id, {}, {});
    assert {} + {id} == {id} && {id} - {id} == {};
    UncountKeeps(p, Strip(s, id), id, {id}, {});
  }

  lemma MakeTriedKeeps(p: Params, s: State, id: NodeId)
    requires Inv(p, s, {}, {}) && id in s.info && !s.info[id].inTried
    ensures Inv(p, MakeTried(p, s, id), {}, {})
    ensures Frame(s, MakeTried(p, s, id))
  {
    hide RandomOk, IdsOk, CountsOk, TriedOk, NewOk, SlotsOf, Evict, Recount;
    StripReady(p, s, id);
    var t := Recount(p, Strip(s, id), id, -1);
    TriedIn(p, t, {}, {id});
    EvictKeeps(p, t, id, TriedSlot(p, t.key, t.info[id].addr));
    var u := Evict(p, t, id);
    assert u.info[id].addr == t.info[id].addr;
    SeatKeeps(p, u, id, {}, {id});
    assert {id} - {id} == {};
    FrameTrans(s, t, u);
    FrameTrans(s, u, Seat(p, u, id));
  }

  /** The entry leaves all its new slots for its tried slot, and the entry that was there goes to
      its own slot of the new table. */
  lemma MakeTriedTables(p: Params, s: State, id: NodeId, sl: Slot)
    requires Inv(p, s, {}, {}) && id in s.info && !s.info[id].inTried
    requires sl == TriedSlot(p, s.key, s.info[id].addr)
    requires sl in s.triedTab ==> s.triedTab[sl] in s.info
    ensures MakeTried(p, s, id).triedTab == s.triedTab[sl := id]
    ensures MakeTried(p, s, id).newTab == EvictedTab(p, s.(newTab := s.newTab - SlotsOf(s.newTab, id)), sl)
  {
    hide RandomOk, IdsOk, CountsOk, TriedOk, NewOk, SlotsOf, Evict, TriedSlot, NewSlot;
    StripReady(p, s, id);
    var t := Recount(p, Strip(s, id), id, -1);
    TriedIn(p, t, {}, {id});
    EvictKeeps(p, t, id, sl);
    assert Evict(p, t, id).info[id].addr == s.info[id].addr;
  }

  // ---------------------------------------------------------------- statistics

  /** Replaces the statistics of an entry. */
  function Touch(s: State, id: NodeId, i: AddrInfo): State {
    s.(info := s.info[id := i])
  }

  predicate SamePlace(a: AddrInfo, b: AddrInfo) {
    && a.addr == b.addr && a.source == b.source
    && a.refCount == b.refCount && a.inTried == b.inTried && a.randomPos == b.randomPos
  }

  lemma TouchKeeps(p: Params, s: State, id: NodeId, i: AddrInfo, zero: set<NodeId>, uncounted: set<NodeId>)
    requires Inv(p, s, zero, uncounted) && id in s.info && SamePlace(s.info[id], i)
    ensures Inv(p, Touch(s, id, i), zero, uncounted)
  {
    hide RandomOk, IdsOk, CountsOk, TriedOk, NewOk, LooseOk;
    RandomUpdate(s.info, s.random, id, i);
    SamePlacesKeeps(p, s, Touch(s, id, i), zero, uncounted);
  }

  // ---------------------------------------------------------------- adding

  function Max(a: int, b: int): int { if a < b then b else a }

  /** What gossip changes in a known entry: its time, if the news is recent enough, and its services. */
  function Refresh(i: AddrInfo, a: Address, penalty: int, now: int): AddrInfo {
    var interval := if now - a.time < DAY then HOUR else DAY;
    i.(time := if i.time < a.time - interval - penalty then Max(0, a.time - penalty) else i.time,
       services := i.services + a.services)
  }

  function Penalty(a: Address, src: NetAddr, penalty: int): int {
    if a.svc.ip == src then 0 else penalty
  }

  function Factor(n: int): Pos {
    if n <= 0 then 1 else 2 * Factor(n - 1)
  }

  /** The news is fresh and the entry may take one more slot of the new table. With `refCount`
      slots held, one draw out of 2^`refCount` allows it. */
  predicate MayAddRef(i: AddrInfo, a: Address, draw: nat) {
    && i.time < a.time
    && !i.inTried
    && i.refCount != NEW_BUCKETS_PER_ADDRESS
    && draw % Factor(i.refCount) == 0
  }

  predicate MayReplace(there: AddrInfo, i: AddrInfo, now: int) {
    IsTerrible(there, now) || (there.refCount > 1 && i.refCount == 0)
  }

  /** Puts entry `id` into the slot that `src` assigns it, unless a good entry is there. */
  function Insert(p: Params, s: State, id: NodeId, src: NetAddr, now: int): (State, bool)
    requires RandomOk(s.info, s.random) && id in s.info
    requires forall sl :: sl in s.newTab ==> s.newTab[sl] in s.info
  {
    var i := s.info[id];
    var sl := NewSlot(p, s.key, i.addr, src);
    if sl in s.newTab && s.newTab[sl] == id then (s, false)
    else if sl !in s.newTab || MayReplace(s.info[s.newTab[sl]], i, now) then
      ClearNewFrame(p, s, sl);
      ClearNewOther(p, s, sl, id);
      (AddRef(ClearNew(p, s, sl), sl, id), true)
    else if i.refCount == 0 then (Delete(p, s, id), false)
    else (s, false)
  }

  lemma DeleteOther(p: Params, s: State, gone: NodeId, id: NodeId)
    requires RandomOk(s.info, s.random) && gone in s.info && id in s.info && gone != id
    ensures id in Delete(p, s, gone).info
    ensures Delete(p, s, gone).info[id] == s.info[id].(randomPos := Delete(p, s, gone).info[id].randomPos)
  {
  }

  lemma ClearNewOther(p: Params, s: State, sl: Slot, id: NodeId)
    requires RandomOk(s.info, s.random) && id in s.info
    requires sl in s.newTab ==> s.newTab[sl] in s.info && s.newTab[sl] != id
    ensures id in ClearNew(p, s, sl).info
    ensures ClearNew(p, s, sl).info[id] == s.info[id].(randomPos := ClearNew(p, s, sl).info[id].randomPos)
  {
    if sl in s.newTab && s.info[s.newTab[sl]].refCount == 1 {
      hide Delete, RandomOk;
      var t := Unref(s, sl);
      RandomUpdate(s.info, s.random, s.newTab[sl], t.info[s.newTab[sl]]);
      DeleteOther(p, t, s.newTab[sl], id);
    }
  }

  /** The slot `src` assigns is free for the entry, or its occupant may be replaced. */
  predicate CanInsert(p: Params, s: State, id: NodeId, src: NetAddr, now: int)
    requires id in s.info
    requires forall sl :: sl in s.newTab ==> s.newTab[sl] in s.info
  {
    var sl := NewSlot(p, s.key, s.info[id].addr, src);
    sl in s.newTab ==> s.newTab[sl] != id && MayReplace(s.info[s.newTab[sl]], s.info[id], now)
  }

  lemma InsertReady(p: Params, s: State, zero: set<NodeId>, uncounted: set<NodeId>)
    requires Inv(p, s, zero, uncounted)
    ensures RandomOk(s.info, s.random)
    ensures forall sl :: sl in s.newTab ==> s.newTab[sl] in s.info
    ensures forall sl :: sl in s.triedTab ==> s.triedTab[sl] in s.info
    ensures forall a :: a in s.ids ==> s.ids[a] in s.info && s.info[s.ids[a]].addr == a
  {
  }

  lemma InsertKeeps(p: Params, s: State, id: NodeId, src: NetAddr, now: int, zero: set<NodeId>)
    requires Inv(p, s, zero, {}) && zero <= {id}
    requires RandomOk(s.info, s.random) && forall sl :: sl in s.newTab ==> s.newTab[sl] in s.info
    requires id in s.info && !s.info[id].inTried && s.info[id].refCount < NEW_BUCKETS_PER_ADDRESS
    requires s.info[id].refCount == 0 <==> id in zero
    ensures Inv(p, Insert(p, s, id, src, now).0, {}, {})
  {
    hide RandomOk, IdsOk, CountsOk, TriedOk, NewOk, LooseOk, ClearNew, Delete, MayReplace;
    var sl := NewSlot(p, s.key, s.info[id].addr, src);
    if CanInsert(p, s, id, src, now) {
      ClearNewKeeps(p, s, sl, zero, {});
      ClearNewFrame(p, s, sl);
      ClearNewOther(p, s, sl, id);
      AddRefKeeps(p, ClearNew(p, s, sl), sl, id, zero, {});
      assert zero - {id} == {};
    } else if sl in s.newTab && s.newTab[sl] == id {
      OccupantOk(p, s.key, s.info, s.newTab, sl, zero + {});
      assert zero == {};
    } else if s.info[id].refCount == 0 {
      DeleteKeeps(p, s, id, zero, {});
      assert zero - {id} == {};
    } else {
      assert zero == {};
    }
  }

  lemma InsertTables(p: Params, s: State, id: NodeId, src: NetAddr, now: int)
    requires RandomOk(s.info, s.random) && id in s.info
    requires forall sl :: sl in s.newTab ==> s.newTab[sl] in s.info
    ensures var (t, ok) := Insert(p, s, id, src, now);
            && ok == CanInsert(p, s, id, src, now)
            && t.newTab == (if ok then s.newTab[NewSlot(p, s.key, s.info[id].addr, src) := id] else s.newTab)
            && t.triedTab == s.triedTab
            && Frame(s, t)
  {
    hide RandomOk, ClearNew, Delete, MayReplace;
    var sl := NewSlot(p, s.key, s.info[id].addr, src);
    if CanInsert(p, s, id, src, now) {
      ClearNewFrame(p, s, sl);
      ClearNewOther(p, s, sl, id);
      var t := ClearNew(p, s, sl);
      FrameTrans(s, t, AddRef(t, sl, id));
    } else if s.info[id].refCount == 0 {
      DeleteFrame(p, s, id);
    }
  }

  /** A known entry after gossip about it. */
  function Refreshed(s: State, a: Address, penalty: int, now: int): State
    requires a.svc in s.ids && s.ids[a.svc] in s.info
  {
    Touch(s, s.ids[a.svc], Refresh(s.info[s.ids[a.svc]], a, penalty, now))
  }

  /** A new entry, not yet in any slot, with the penalty taken off its time. */
  function Created(p: Params, s: State, a: Address, src: NetAddr, penalty: int): State {
    var id := NodeId(s.idCount);
    var c := Create(p, s, a, src);
    Touch(c, id, c.info[id].(time := Max(0, a.time - penalty)))
  }

  lemma RefreshedKeeps(p: Params, s: State, a: Address, penalty: int, now: int)
    requires Inv(p, s, {}, {}) && a.svc in s.ids && s.ids[a.svc] in s.info
    ensures Inv(p, Refreshed(s, a, penalty, now), {}, {})
  {
    hide Inv;
    TouchKeeps(p, s, s.ids[a.svc], Refresh(s.info[s.ids[a.svc]], a, penalty, now), {}, {});
  }

  lemma CreatedKeeps(p: Params, s: State, a: Address, src: NetAddr, penalty: int)
    requires Inv(p, s, {}, {}) && a.svc !in s.ids
    ensures Inv(p, Created(p, s, a, src, penalty), {NodeId(s.idCount)}, {})
  {
    hide Inv;
    var id := NodeId(s.idCount);
    var c := Create(p, s, a, src);
    CreateKeeps(p, s, a, src, {});
    assert {} + {id} == {id};
    TouchKeeps(p, c, id, c.info[id].(time := Max(0, a.time - penalty)), {id}, {});
  }

  function AddSingle(p: Params, s: State, a: Address, src: NetAddr, penalty: int, now: int, draw: nat): (State, bool)
    requires Inv(p, s, {}, {})
  {
    InsertReady(p, s, {}, {});
    var pen := Penalty(a, src, penalty);
    if !p.routable(a.svc) then (s, false)
    else if a.svc in s.ids then
      var t := Refreshed(s, a, pen, now);
      RefreshedKeeps(p, s, a, pen, now);
      InsertReady(p, t, {}, {});
      if MayAddRef(t.info[s.ids[a.svc]], a, draw) then Insert(p, t, s.ids[a.svc], src, now) else (t, false)
    else
      CreatedKeeps(p, s, a, src, pen);
      InsertReady(p, Created(p, s, a, src, pen), {NodeId(s.idCount)}, {});
      Insert(p, Created(p, s, a, src, pen), NodeId(s.idCount), src, now)
  }

  lemma AddSingleKeeps(p: Params, s: State, a: Address, src: NetAddr, penalty: int, now: int, draw: nat)
    requires Inv(p, s, {}, {})
    ensures Inv(p, AddSingle(p, s, a, src, penalty, now, draw).0, {}, {})
  {
    hide Inv, RandomOk, Insert;
    InsertReady(p, s, {}, {});
    var pen := Penalty(a, src, penalty);
    if p.routable(a.svc) {
      if a.svc in s.ids {
        var id := s.ids[a.svc];
        var t := Refreshed(s, a, pen, now);
        RefreshedKeeps(p, s, a, pen, now);
        InsertReady(p, t, {}, {});
        if MayAddRef(t.info[id], a, draw) {
          PlacedEntry(p, t, id);
          InsertKeeps(p, t, id, src, now, {});
        }
      } else {
        var id := NodeId(s.idCount);
        var t := Created(p, s, a, src, pen);
        CreatedKeeps(p, s, a, src, pen);
        InsertReady(p, t, {id}, {});
        InsertKeeps(p, t, id, src, now, {id});
      }
    }
  }

  lemma PlacedEntry(p: Params, s: State, id: NodeId)
    requires Inv(p, s, {}, {}) && id in s.info && !s.info[id].inTried
    ensures 0 < s.info[id].refCount <= NEW_BUCKETS_PER_ADDRESS
  {
  }
}
