/** What the operations of the address manager do to its entries and tables, slot by slot and field by field. */
module AddrManEffects {
  import opened AddrManSpec
  import opened AddrManSteps
  import opened AddrManOps
  import opened AddrManRuns
  import opened Options

  // ---------------------------------------------------------------- displacing an entry

  /** Entries other than `id` stay as they are, except that the one whose slot was taken loses a reference, and is
      gone if that was its last. */
  ghost predicate OthersStay(s: State, t: State, id: NodeId, displaced: Option<NodeId>) {
    forall k :: k != id ==>
      && (k in t.info <==> k in s.info && !(displaced == Some(k) && s.info[k].refCount == 1))
      && (k in t.info ==> Stays(s.info[k], t.info[k], displaced == Some(k)))
  }

  /** The same entry, perhaps at another place of the list of all entries, with one reference less if displaced. */
  predicate Stays(i: AddrInfo, j: AddrInfo, displaced: bool) {
    j == i.(refCount := if displaced then i.refCount - 1 else i.refCount, randomPos := j.randomPos)
  }

  function Occupant(s: State, sl: Slot): Option<NodeId> {
    if sl in s.newTab then Some(s.newTab[sl]) else None
  }

  lemma DeleteExact(p: Params, s: State, gone: NodeId)
    requires RandomOk(s.info, s.random) && gone in s.info
    ensures var t := Delete(p, s, gone);
            && gone !in t.info && (forall k :: k != gone ==> (k in t.info <==> k in s.info))
            && forall k :: k in t.info ==> k in s.info && Stays(s.info[k], t.info[k], false)
  {
    hide RandomOk;
    var t := Delete(p, s, gone);
    SwapLast(s, gone);
    assert gone !in t.info;
    forall k | k in s.info && k != gone ensures k in t.info && Stays(s.info[k], t.info[k], false) {
      hide Delete;
      DeleteOther(p, s, gone, k);
    }
    hide Delete;
    DeleteFrame(p, s, gone);
  }

  lemma ClearNewExact(p: Params, s: State, sl: Slot, id: NodeId)
    requires RandomOk(s.info, s.random) && id in s.info
    requires sl in s.newTab ==> s.newTab[sl] in s.info && s.newTab[sl] != id
    ensures var t := ClearNew(p, s, sl);
            OthersStay(s, t, id, Occupant(s, sl)) && id in t.info && Stays(s.info[id], t.info[id], false)
  {
    hide RandomOk;
    ClearNewOther(p, s, sl, id);
    if sl in s.newTab {
      var k := s.newTab[sl];
      var u := Unref(s, sl);
      RandomUpdate(s.info, s.random, k, u.info[k]);
      if u.info[k].refCount == 0 {
        DeleteExact(p, u, k);
      }
    }
  }

  /** An entry that is put into a slot gains a reference, at the cost of the one that was there. */
  lemma InsertExact(p: Params, s: State, id: NodeId, src: NetAddr, now: int)
    requires RandomOk(s.info, s.random) && id in s.info
    requires forall sl :: sl in s.newTab ==> s.newTab[sl] in s.info
    requires CanInsert(p, s, id, src, now)
    ensures var (t, ok) := Insert(p, s, id, src, now);
            var sl := NewSlot(p, s.key, s.info[id].addr, src);
            && ok && t.newTab == s.newTab[sl := id] && t.triedTab == s.triedTab
            && id in t.info && Stays(s.info[id].(refCount := s.info[id].refCount + 1), t.info[id], false)
            && OthersStay(s, t, id, Occupant(s, sl))
  {
    hide RandomOk, ClearNew;
    var sl := NewSlot(p, s.key, s.info[id].addr, src);
    InsertTables(p, s, id, src, now);
    ClearNewExact(p, s, sl, id);
  }

  // ---------------------------------------------------------------- an address not known yet

  /** The entry that the first news of an address makes, once it holds one slot. */
  ghost predicate IsFirstEntry(i: AddrInfo, a: Address, src: NetAddr, penalty: int) {
    && i.addr == a.svc && i.source == src && i.services == a.services && i.refCount == 1 && !i.inTried
    && i.time == Larger(0, if a.svc.ip == src then a.time else a.time - penalty)
    && i.lastTry == 0 && i.lastCountAttempt == 0 && i.lastSuccess == 0 && i.attempts == 0
  }

  function Larger(a: int, b: int): int { if a >= b then a else b }

  lemma NoPlace(p: Params, s: State, a: Address, src: NetAddr, penalty: int)
    requires NodeId(s.idCount) !in s.info && a.svc !in s.ids
    requires RandomOk(Created(p, s, a, src, penalty).info, Created(p, s, a, src, penalty).random)
    ensures var t := Delete(p, Created(p, s, a, src, penalty), NodeId(s.idCount));
            t == s.(idCount := s.idCount + 1, counts := t.counts) && SameCounts(s, t)
  {
    hide RandomOk;
    var c := Created(p, s, a, src, penalty);
    var id := NodeId(s.idCount);
    assert c.info[id].randomPos == |c.random| - 1;
    assert Delete(p, c, id) == DropLast(p, c);
    assert c.random[..|c.random| - 1] == s.random;
    assert c.info - {id} == s.info;
    assert c.ids - {a.svc} == s.ids;
  }

  ghost predicate SameCounts(s: State, t: State) {
    forall net :: CountOf(t.counts, net) == CountOf(s.counts, net)
  }

  /** A routable address that is not known is added exactly when the slot that its source assigns is free, or holds a
      terrible entry, or one with another reference. It then has an entry in that slot, with its time less the penalty
      unless it announced itself; otherwise only an id is used up. */
  lemma AddUnknown(p: Params, s: State, a: Address, src: NetAddr, penalty: int, now: int, draw: nat)
    requires Inv(p, s, {}, {}) && p.routable(a.svc) && a.svc !in s.ids
    requires forall sl :: sl in s.newTab ==> s.newTab[sl] in s.info
    ensures var (t, ok) := AddSingle(p, s, a, src, penalty, now, draw);
            var sl := NewSlot(p, s.key, a.svc, src);
            && (ok <==> sl !in s.newTab || IsTerrible(s.info[s.newTab[sl]], now) || s.info[s.newTab[sl]].refCount > 1)
            && (ok ==>
                  && a.svc in t.ids && t.ids[a.svc] in t.info && t.ids[a.svc] !in s.info
                  && IsFirstEntry(t.info[t.ids[a.svc]], a, src, penalty)
                  && t.newTab == s.newTab[sl := t.ids[a.svc]] && t.triedTab == s.triedTab
                  && OthersStay(s, t, t.ids[a.svc], Occupant(s, sl)))
            && (!ok ==> t == s.(idCount := s.idCount + 1, counts := t.counts) && SameCounts(s, t))
  {
    hide Inv, RandomOk, Insert, Delete, IsTerrible, OthersStay;
    var pen := Penalty(a, src, penalty);
    var id, c := NodeId(s.idCount), Created(p, s, a, src, pen);
    FreshId(p, s);
    InsertReady(p, s, {}, {});
    CreatedKeeps(p, s, a, src, pen);
    InsertReady(p, c, {id}, {});
    FirstInsert(p, c, id, a, src, now);
    var (t, ok) := AddSingle(p, s, a, src, penalty, now, draw);
    if ok {
      AddSingleIds(p, s, a, src, penalty, now, draw, id);
      OthersSame(s, c, t, id, Occupant(s, NewSlot(p, s.key, a.svc, src)));
    } else {
      NoPlace(p, s, a, src, pen);
    }
  }

  /** A new entry gets its slot, or is deleted. */
  lemma FirstInsert(p: Params, c: State, id: NodeId, a: Address, src: NetAddr, now: int)
    requires RandomOk(c.info, c.random) && id in c.info && c.info[id].addr == a.svc && c.info[id].refCount == 0
    requires forall sl :: sl in c.newTab ==> c.newTab[sl] in c.info && c.newTab[sl] != id
    ensures var (t, ok) := Insert(p, c, id, src, now);
            var sl := NewSlot(p, c.key, a.svc, src);
            && (ok <==> sl !in c.newTab || IsTerrible(c.info[c.newTab[sl]], now) || c.info[c.newTab[sl]].refCount > 1)
            && (ok ==>
                  && id in t.info && Stays(c.info[id].(refCount := 1), t.info[id], false)
                  && t.newTab == c.newTab[sl := id] && t.triedTab == c.triedTab
                  && OthersStay(c, t, id, Occupant(c, sl)))
            && (!ok ==> t == Delete(p, c, id))
  {
    hide RandomOk, Insert, Delete, MayReplace, IsTerrible;
    var sl := NewSlot(p, c.key, a.svc, src);
    if sl in c.newTab { ReplacedFor(c.info[c.newTab[sl]], c.info[id], now); }
    if CanInsert(p, c, id, src, now) {
      InsertExact(p, c, id, src, now);
    } else {
      NotInserted(p, c, id, src, now);
    }
  }

  lemma OthersSame(s: State, c: State, t: State, id: NodeId, displaced: Option<NodeId>)
    requires id in c.info && c.info == s.info[id := c.info[id]] && OthersStay(c, t, id, displaced)
    ensures OthersStay(s, t, id, displaced)
  {
  }

  lemma FreshId(p: Params, s: State)
    requires Inv(p, s, {}, {})
    ensures NodeId(s.idCount) !in s.info && forall sl :: sl in s.newTab ==> s.newTab[sl] != NodeId(s.idCount)
  {
  }

  /** A new entry has no reference yet. */
  lemma ReplacedFor(there: AddrInfo, i: AddrInfo, now: int)
    requires i.refCount == 0
    ensures MayReplace(there, i, now) <==> IsTerrible(there, now) || there.refCount > 1
  {
  }

  lemma NotInserted(p: Params, s: State, id: NodeId, src: NetAddr, now: int)
    requires RandomOk(s.info, s.random) && id in s.info && s.info[id].refCount == 0
    requires forall sl :: sl in s.newTab ==> s.newTab[sl] in s.info && s.newTab[sl] != id
    requires !CanInsert(p, s, id, src, now)
    ensures Insert(p, s, id, src, now) == (Delete(p, s, id), false)
  {
  }

  /** The index by address follows the entries. */
  lemma AddSingleIds(p: Params, s: State, a: Address, src: NetAddr, penalty: int, now: int, draw: nat, id: NodeId)
    requires Inv(p, s, {}, {})
    requires var t := AddSingle(p, s, a, src, penalty, now, draw).0; id in t.info && t.info[id].addr == a.svc
    ensures var t := AddSingle(p, s, a, src, penalty, now, draw).0; a.svc in t.ids && t.ids[a.svc] == id
  {
    hide AddSingle;
    AddSingleKeeps(p, s, a, src, penalty, now, draw);
  }

  // ---------------------------------------------------------------- an address known already

  /** How much later than its own time news must be to change the time of an entry. */
  function Interval(a: Address, now: int): int {
    if now - a.time < 24 * 3600 then 3600 else 24 * 3600
  }

  /** Two to the power `n`. */
  function Power(n: int): Pos {
    if n <= 0 then 1 else 2 * Power(n - 1)
  }

  lemma {:induction false} FactorIs(n: int)
    ensures Factor(n) == Power(n)
  {
    if n > 0 { FactorIs(n - 1); }
  }

  /** The entry after the news: the time moves if the news is later by more than the interval and the penalty, the
      services add up, and nothing else changes. */
  ghost predicate IsRefreshed(i: AddrInfo, j: AddrInfo, a: Address, src: NetAddr, penalty: int, now: int) {
    var pen := if a.svc.ip == src then 0 else penalty;
    && j == i.(time := j.time, services := i.services + a.services, refCount := j.refCount, randomPos := j.randomPos)
    && (i.time + Interval(a, now) + pen < a.time ==> j.time == Larger(0, a.time - pen))
    && (i.time + Interval(a, now) + pen >= a.time ==> j.time == i.time)
  }

  /** A known address is refreshed. It gains one more slot exactly when the news is still later than its time, it is in
      the new table with fewer than eight slots, one draw out of two to the number of its slots allows it, and the slot
      that the source assigns is free or holds another, terrible entry. */
  lemma AddKnown(p: Params, s: State, a: Address, src: NetAddr, penalty: int, now: int, draw: nat)
    requires Inv(p, s, {}, {}) && p.routable(a.svc) && a.svc in s.ids && s.ids[a.svc] in s.info
    requires forall sl :: sl in s.newTab ==> s.newTab[sl] in s.info
    ensures var (t, ok) := AddSingle(p, s, a, src, penalty, now, draw);
            var id := s.ids[a.svc];
            var sl := NewSlot(p, s.key, a.svc, src);
            && id in t.info && IsRefreshed(s.info[id], t.info[id], a, src, penalty, now)
            && (ok <==>
                  && t.info[id].time < a.time && !s.info[id].inTried
                  && s.info[id].refCount < 8 && draw % Power(s.info[id].refCount) == 0
                  && (sl in s.newTab ==> s.newTab[sl] != id && IsTerrible(s.info[s.newTab[sl]], now)))
            && t.info[id].refCount == s.info[id].refCount + One(ok)
            && t.newTab == (if ok then s.newTab[sl := id] else s.newTab) && t.triedTab == s.triedTab
            && OthersStay(s, t, id, if ok then Occupant(s, sl) else None)
  {
    hide Inv, RandomOk, Insert, IsTerrible, MayAddRef, OthersStay;
    var pen := Penalty(a, src, penalty);
    var id := s.ids[a.svc];
    var c := Refreshed(s, a, pen, now);
    KnownEntry(p, s, a.svc);
    InsertReady(p, s, {}, {});
    RefreshedKeeps(p, s, a, pen, now);
    InsertReady(p, c, {}, {});
    KnownInsert(p, c, id, a, src, now, draw);
    var (t, ok) := AddSingle(p, s, a, src, penalty, now, draw);
    OthersSame(s, c, t, id, if ok then Occupant(s, NewSlot(p, s.key, a.svc, src)) else None);
  }

  /** A refreshed entry gains a slot, or stays as it is. */
  lemma KnownInsert(p: Params, c: State, id: NodeId, a: Address, src: NetAddr, now: int, draw: nat)
    requires RandomOk(c.info, c.random) && id in c.info && c.info[id].addr == a.svc
    requires forall sl :: sl in c.newTab ==> c.newTab[sl] in c.info
    requires 0 <= c.info[id].refCount <= 8 && (c.info[id].inTried || 0 < c.info[id].refCount)
    ensures var (t, ok) := if MayAddRef(c.info[id], a, draw) then Insert(p, c, id, src, now) else (c, false);
            var sl := NewSlot(p, c.key, a.svc, src);
            && id in t.info && Stays(c.info[id].(refCount := c.info[id].refCount + One(ok)), t.info[id], false)
            && (ok <==>
                  && c.info[id].time < a.time && !c.info[id].inTried
                  && c.info[id].refCount < 8 && draw % Power(c.info[id].refCount) == 0
                  && (sl in c.newTab ==> c.newTab[sl] != id && IsTerrible(c.info[c.newTab[sl]], now)))
            && t.newTab == (if ok then c.newTab[sl := id] else c.newTab) && t.triedTab == c.triedTab
            && OthersStay(c, t, id, if ok then Occupant(c, sl) else None)
  {
    hide RandomOk, Insert, MayReplace, Factor, IsTerrible;
    var sl := NewSlot(p, c.key, a.svc, src);
    FactorIs(c.info[id].refCount);
    if MayAddRef(c.info[id], a, draw) {
      if sl in c.newTab { KeptFrom(c.info[c.newTab[sl]], c.info[id], now); }
      if CanInsert(p, c, id, src, now) {
        InsertExact(p, c, id, src, now);
      } else {
        NotAgain(p, c, id, src, now);
      }
    }
  }

  lemma KnownEntry(p: Params, s: State, svc: Service)
    requires Inv(p, s, {}, {}) && svc in s.ids && s.ids[svc] in s.info
    ensures s.info[s.ids[svc]].addr == svc && 0 <= s.info[s.ids[svc]].refCount <= 8
    ensures s.info[s.ids[svc]].inTried || 0 < s.info[s.ids[svc]].refCount
  {
  }

  lemma KeptFrom(there: AddrInfo, i: AddrInfo, now: int)
    requires i.refCount > 0
    ensures MayReplace(there, i, now) <==> IsTerrible(there, now)
  {
  }

  lemma NotAgain(p: Params, s: State, id: NodeId, src: NetAddr, now: int)
    requires RandomOk(s.info, s.random) && id in s.info && s.info[id].refCount > 0
    requires forall sl :: sl in s.newTab ==> s.newTab[sl] in s.info
    requires !CanInsert(p, s, id, src, now)
    ensures Insert(p, s, id, src, now) == (s, false)
  {
  }

  /** Addresses that are not routable are refused. */
  lemma AddUnroutable(p: Params, s: State, a: Address, src: NetAddr, penalty: int, now: int, draw: nat)
    requires Inv(p, s, {}, {}) && !p.routable(a.svc)
    ensures AddSingle(p, s, a, src, penalty, now, draw) == (s, false)
  {
  }

  // ---------------------------------------------------------------- a connection that succeeded

  /** The entry after a success: its times and failures are set, and nothing else but its place changes. */
  predicate IsGood(i: AddrInfo, j: AddrInfo, time: int) {
    j == i.(lastSuccess := time, lastTry := time, attempts := 0,
            refCount := j.refCount, inTried := j.inTried, randomPos := j.randomPos)
  }

  /** The entry holds its tried slot and no slot of the new table; the one that was there holds the slot of the new
      table that its own source assigns. No other slot changes. */
  ghost predicate IsSeated(p: Params, s: State, t: State, id: NodeId, sl: Slot)
    requires id in s.info && (sl in s.triedTab ==> s.triedTab[sl] in s.info)
  {
    && id in t.info && t.info[id].inTried && t.triedTab == s.triedTab[sl := id]
    && (sl !in s.triedTab ==> t.newTab == s.newTab - SlotsOf(s.newTab, id))
    && (sl in s.triedTab ==>
          var e := s.triedTab[sl];
          && e in t.info && !t.info[e].inTried && t.info[e].refCount == 1
          && t.newTab == (s.newTab - SlotsOf(s.newTab, id))[NewSlot(p, s.key, s.info[e].addr, s.info[e].source) := e])
  }

  lemma Seated(p: Params, s: State, t: State, id: NodeId, sl: Slot)
    requires Inv(p, s, {}, {}) && Inv(p, t, {}, {}) && id in s.info
    requires sl in s.triedTab ==> s.triedTab[sl] in s.info
    requires t.triedTab == s.triedTab[sl := id]
    requires t.newTab == EvictedTab(p, s.(newTab := s.newTab - SlotsOf(s.newTab, id)), sl)
    ensures IsSeated(p, s, t, id, sl)
  {
    hide RandomOk, IdsOk, TriedOk, NewOk, CountsOk, LooseOk, SlotsOf, NewSlot;
    SeatedOk(p, t.key, t.info, t.triedTab, sl);
    var none: set<NodeId> := {};
    assert none + none == none;
    if sl in s.triedTab {
      var e := s.triedTab[sl];
      SeatedOk(p, s.key, s.info, s.triedTab, sl);
      Evicted(p, s, t, s.newTab - SlotsOf(s.newTab, id), e, NewSlot(p, s.key, s.info[e].addr, s.info[e].source));
    }
  }

  lemma Evicted(p: Params, s: State, t: State, tab: map<Slot, NodeId>, e: NodeId, ns: Slot)
    requires NewOk(p, s.key, s.info, s.newTab, {}) && NewOk(p, t.key, t.info, t.newTab, {})
    requires e in s.info && s.info[e].inTried && t.newTab == tab[ns := e]
    requires forall x :: x in tab ==> x in s.newTab && tab[x] == s.newTab[x]
    ensures e in t.info && !t.info[e].inTried && t.info[e].refCount == 1
  {
    assert t.newTab[ns] == e;
    assert SlotsOf(t.newTab, e) == {ns};
  }

  /** A success is noted. An entry of the new table moves to its tried slot exactly when that is free or may be taken;
      if not it waits, unless ten others do. */
  lemma GoodMoves(p: Params, s: State, svc: Service, testBeforeEvict: bool, time: int)
    requires Inv(p, s, {}, {})
    requires forall a :: a in s.ids ==> s.ids[a] in s.info
    requires forall sl :: sl in s.triedTab ==> s.triedTab[sl] in s.info
    ensures var (t, ok) := Good(p, s, svc, testBeforeEvict, time);
            && t.lastGood == time
            && (svc !in s.ids ==> !ok && t == s.(lastGood := time))
            && (svc in s.ids ==>
                  var id := s.ids[svc];
                  var sl := TriedSlot(p, s.key, svc);
                  && id in t.info && IsGood(s.info[id], t.info[id], time)
                  && (ok <==> !s.info[id].inTried && (testBeforeEvict ==> sl !in s.triedTab))
                  && (ok ==> IsSeated(p, s, t, id, sl) && t.collisions == s.collisions)
                  && (!ok ==> t == s.(lastGood := time, info := s.info[id := t.info[id]], collisions := t.collisions)
                              && t.info[id].refCount == s.info[id].refCount
                              && t.collisions == if s.info[id].inTried || |s.collisions| >= 10 then s.collisions
                                                 else s.collisions + {id}))
  {
    hide Inv, MakeTried, EvictedTab, IsSeated;
    InsertReady(p, s, {}, {});
    if svc in s.ids && Moves(p, s, s.ids[svc], testBeforeEvict) {
      GoodSeats(p, s, svc, testBeforeEvict, time);
    }
  }

  lemma GoodSeats(p: Params, s: State, svc: Service, testBeforeEvict: bool, time: int)
    requires Inv(p, s, {}, {}) && svc in s.ids && s.ids[svc] in s.info && s.info[s.ids[svc]].addr == svc
    requires Moves(p, s, s.ids[svc], testBeforeEvict)
    requires forall sl :: sl in s.triedTab ==> s.triedTab[sl] in s.info
    ensures var (t, ok) := Good(p, s, svc, testBeforeEvict, time);
            var id := s.ids[svc];
            && t.lastGood == time && id in t.info && IsGood(s.info[id], t.info[id], time)
            && ok && IsSeated(p, s, t, id, TriedSlot(p, s.key, svc)) && t.collisions == s.collisions
  {
    hide Inv, MakeTried, EvictedTab;
    InsertReady(p, s, {}, {});
    var id := s.ids[svc];
    var n, sl := Noted(s, id, time), TriedSlot(p, s.key, svc);
    NotedKeeps(p, s, id, time);
    TriedIn(p, n, {}, {});
    MakeTriedKeeps(p, n, id);
    MakeTriedTables(p, n, id, sl);
    Seated(p, n, MakeTried(p, n, id), id, sl);
  }

  // ---------------------------------------------------------------- settling a collision

  /** The waiting entry takes the slot: the entry there was not connected to in the last four hours, and either was
      tried in that time and had a minute to answer, or the waiting one succeeded more than forty minutes ago. */
  predicate TakesOver(waiting: AddrInfo, there: AddrInfo, now: int) {
    && now >= there.lastSuccess + 4 * 3600
    && (if now < there.lastTry + 4 * 3600 then now > there.lastTry + 60 else now > waiting.lastSuccess + 40 * 60)
  }

  /** What becomes of a waiting entry with a valid address: it is dropped if the entry in its slot was connected to in
      the last four hours, it takes the slot over, or it goes on waiting. */
  lemma ResolveSettles(p: Params, s: State, id: NodeId, now: int)
    requires Inv(p, s, {}, {}) && CollisionsOk(p, s) && id in s.collisions && id in s.info && p.valid(s.info[id].addr)
    requires forall sl :: sl in s.triedTab ==> s.triedTab[sl] in s.info
    requires TriedSlot(p, s.key, s.info[id].addr) in s.triedTab
    ensures var t := Step(p, s, Resolve(id, now));
            var sl := TriedSlot(p, s.key, s.info[id].addr);
            var there := s.info[s.triedTab[sl]];
            && (now < there.lastSuccess + 4 * 3600 ==> t == s.(collisions := s.collisions - {id}))
            && (TakesOver(s.info[id], there, now) ==>
                  && t.collisions == s.collisions - {id} && (!s.info[id].inTried ==> IsSeated(p, s, t, id, sl))
                  && id in t.info && IsGood(s.info[id], t.info[id], now))
            && (now >= there.lastSuccess + 4 * 3600 && !TakesOver(s.info[id], there, now) ==> t == s)
  {
    hide Inv, CollisionsOk, Good, IsSeated;
    InsertReady(p, s, {}, {});
    KnownId(p, s, id);
    GoodMoves(p, s, s.info[id].addr, false, now);
    var g := Good(p, s, s.info[id].addr, false, now).0;
    SeatedForgets(p, s, g, id, TriedSlot(p, s.key, s.info[id].addr));
  }

  lemma KnownId(p: Params, s: State, id: NodeId)
    requires Inv(p, s, {}, {}) && id in s.info
    ensures s.info[id].addr in s.ids && s.ids[s.info[id].addr] == id
  {
  }

  lemma SeatedForgets(p: Params, s: State, t: State, id: NodeId, sl: Slot)
    requires id in s.info && (sl in s.triedTab ==> s.triedTab[sl] in s.info)
    ensures IsSeated(p, s, t, id, sl) ==> IsSeated(p, s, Forget(t, id), id, sl)
  {
  }

  /** An id without an entry, or with an address that is no longer valid, is forgotten. */
  lemma ResolveForgets(p: Params, s: State, id: NodeId, now: int)
    requires Inv(p, s, {}, {}) && id in s.collisions && (id in s.info ==> !p.valid(s.info[id].addr))
    ensures Step(p, s, Resolve(id, now)) == s.(collisions := s.collisions - {id})
  {
    hide Inv;
    InsertReady(p, s, {}, {});
  }

  /** The steps of a run: those above, forgetting an id without an entry, and an exchange in the list of all entries. */
  lemma StepIs(p: Params, s: State, op: Op)
    requires Inv(p, s, {}, {})
    ensures op.Add? ==> Step(p, s, op) == AddSingle(p, s, op.a, op.src, op.penalty, op.now, op.draw).0
    ensures op.MarkGood? ==> Step(p, s, op) == Good(p, s, op.svc, true, op.time).0
    ensures op.Resolve? && op.id !in s.collisions ==> Step(p, s, op) == s
    ensures op.SelectCollision? ==>
              Step(p, s, op) == s.(collisions := if op.id in s.info then s.collisions else s.collisions - {op.id})
    ensures op.Shuffle? && 0 <= op.i < |s.random| && 0 <= op.j < |s.random| ==>
              var t := Step(p, s, op);
              && t == s.(info := t.info, random := t.random) && SamePlaces(s.info, t.info)
              && t.random == s.random[op.i := s.random[op.j]][op.j := s.random[op.i]]
  {
    hide Inv, AddSingle, Good, ResolveOne, RandomOk;
    InsertReady(p, s, {}, {});
    if op.Shuffle? && 0 <= op.i < |s.random| && 0 <= op.j < |s.random| {
      RandomIn(s.info, s.random);
      SwapPlaces(s, op.i, op.j);
    }
  }

  // ---------------------------------------------------------------- statistics

  /** An entry is terrible if it was not tried in the last minute and has a time ten minutes ahead, or thirty days old,
      or failed three times without a success ever, or ten times without one in a week. */
  lemma TerribleIff(i: AddrInfo, now: int)
    ensures IsTerrible(i, now) <==>
            && i.lastTry + 60 < now
            && (|| now + 10 * 60 < i.time || i.time + 30 * 24 * 3600 < now
                || (i.attempts >= 3 && i.lastSuccess == 0)
                || (i.attempts >= 10 && i.lastSuccess + 7 * 24 * 3600 < now))
  {
  }

  /** Notes about a connection change one entry: a connected one is at most twenty minutes behind and its time moves
      only for that, services are replaced, and an attempt that is not to be counted sets the time of the last one. */
  lemma NotesOneEntry(p: Params, s: State, op: Op)
    requires Inv(p, s, {}, {}) && forall a :: a in s.ids ==> s.ids[a] in s.info
    requires op.MarkConnected? || op.SetServices? || (op.Attempt? && !op.countFailure)
    ensures var t := Step(p, s, op);
            && (op.svc !in s.ids ==> t == s)
            && (op.svc in s.ids ==>
                  var i, j := s.info[s.ids[op.svc]], t.info[s.ids[op.svc]];
                  && t == s.(info := s.info[s.ids[op.svc] := j])
                  && (op.SetServices? ==> j == i.(services := op.services))
                  && (op.Attempt? ==> j == i.(lastTry := op.time))
                  && (op.MarkConnected? ==>
                        && j == i.(time := j.time) && op.time - j.time <= 20 * 60
                        && (j.time == i.time || (j.time == op.time && op.time - i.time > 20 * 60))))
  {
    hide Inv;
    InsertReady(p, s, {}, {});
  }


  /** However many attempts follow without a success, the failure is counted once. */
  lemma {:induction false} FailsOnce(i: AddrInfo, times: seq<int>, lastGood: int)
    requires forall k :: 0 <= k < |times| ==> times[k] >= lastGood
    ensures var j := AttemptedAll(i, times, lastGood);
            && j == i.(lastTry := j.lastTry, lastCountAttempt := j.lastCountAttempt, attempts := j.attempts)
            && j.attempts == i.attempts + One(times != [] && i.lastCountAttempt < lastGood)
            && (times != [] ==> j.lastTry == times[|times| - 1])
  {
    if times != [] {
      var n := |times| - 1;
      FailsOnce(i, times[..n], lastGood);
      CountedSince(i, times[..n], lastGood);
    }
  }

  function AttemptedAll(i: AddrInfo, times: seq<int>, lastGood: int): AddrInfo {
    if times == [] then i
    else Attempted(AttemptedAll(i, times[..|times| - 1], lastGood), true, times[|times| - 1], lastGood)
  }

  lemma {:induction false} CountedSince(i: AddrInfo, times: seq<int>, lastGood: int)
    requires forall k :: 0 <= k < |times| ==> times[k] >= lastGood
    ensures AttemptedAll(i, times, lastGood).lastCountAttempt < lastGood <==>
            times == [] && i.lastCountAttempt < lastGood
  {
    if times != [] { CountedSince(i, times[..|times| - 1], lastGood); }
  }
}
