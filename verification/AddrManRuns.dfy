/** The public operations of the address manager and what holds after every run of them. */
module AddrManRuns {
  import opened AddrManSpec
  import opened AddrManSteps
  import opened AddrManOps

  /** Every id waiting for a tried slot that is still an entry finds that slot occupied; at most ten wait. */
  ghost predicate CollisionsOk(p: Params, s: State) {
    && |s.collisions| <= TRIED_COLLISION_SIZE
    && forall id :: id in s.collisions ==>
         && id.n < s.idCount
         && (id in s.info ==> TriedSlot(p, s.key, s.info[id].addr) in s.triedTab)
  }

  /** The clauses of the consistency check about times. */
  ghost predicate TimesOk(info: map<NodeId, AddrInfo>) {
    forall id :: id in info ==>
      && 0 <= info[id].lastTry && 0 <= info[id].lastSuccess
      && (info[id].inTried ==> info[id].lastSuccess != 0)
  }

  // ---------------------------------------------------------------- operations

  function Succeeded(i: AddrInfo, time: int): AddrInfo {
    i.(lastSuccess := time, lastTry := time, attempts := 0)
  }

  function Noted(s: State, id: NodeId, time: int): State
    requires id in s.info
  {
    Touch(s.(lastGood := time), id, Succeeded(s.info[id], time))
  }

  /** The entry goes to its tried slot: it is new, and the slot is free or may be taken. */
  predicate Moves(p: Params, s: State, id: NodeId, testBeforeEvict: bool)
    requires id in s.info
  {
    !s.info[id].inTried && !(testBeforeEvict && TriedSlot(p, s.key, s.info[id].addr) in s.triedTab)
  }

  /** An entry that does not move waits for its tried slot, unless it is in it or ten others wait. */
  function Held(s: State, id: NodeId, time: int): State
    requires id in s.info
  {
    var n := Noted(s, id, time);
    if s.info[id].inTried || |s.collisions| >= TRIED_COLLISION_SIZE then n
    else n.(collisions := s.collisions + {id})
  }

  /** A connection succeeded: note the time and, if the entry is new, move it to the tried table, or
      remember the collision when `testBeforeEvict` forbids throwing out the entry there. */
  function Good(p: Params, s: State, svc: Service, testBeforeEvict: bool, time: int): (State, bool)
    requires Inv(p, s, {}, {})
  {
    InsertReady(p, s, {}, {});
    if svc !in s.ids then (s.(lastGood := time), false)
    else if Moves(p, s, s.ids[svc], testBeforeEvict) then
      NotedKeeps(p, s, s.ids[svc], time);
      (MakeTried(p, Noted(s, s.ids[svc], time), s.ids[svc]), true)
    else (Held(s, s.ids[svc], time), false)
  }

  lemma NotedKeeps(p: Params, s: State, id: NodeId, time: int)
    requires Inv(p, s, {}, {}) && id in s.info
    ensures Inv(p, Noted(s, id, time), {}, {})
  {
    hide RandomOk, IdsOk, TriedOk, NewOk, CountsOk, LooseOk;
    assert Inv(p, s.(lastGood := time), {}, {});
    TouchKeeps(p, s.(lastGood := time), id, Succeeded(s.info[id], time), {}, {});
  }

  function Attempted(i: AddrInfo, countFailure: bool, time: int, lastGood: int): AddrInfo {
    if countFailure && i.lastCountAttempt < lastGood
    then i.(lastTry := time, lastCountAttempt := time, attempts := i.attempts + 1)
    else i.(lastTry := time)
  }

  function Connected(i: AddrInfo, time: int): AddrInfo {
    if time - i.time > 20 * MINUTE then i.(time := time) else i
  }

  /** Applies an update of statistics to the entry of an address, if there is one. */
  function OnEntry(s: State, svc: Service, f: AddrInfo -> AddrInfo): State
    requires forall a :: a in s.ids ==> s.ids[a] in s.info
  {
    if svc in s.ids then Touch(s, s.ids[svc], f(s.info[s.ids[svc]])) else s
  }

  /** What is done about a waiting entry, given the entry `there` that holds its slot. */
  datatype Verdict = Drop | Replace | Wait

  function Judge(waiting: AddrInfo, there: AddrInfo, now: int): Verdict {
    if now - there.lastSuccess < REPLACEMENT then Drop
    else if now - there.lastTry < REPLACEMENT then
      if now - there.lastTry > MINUTE then Replace else Wait
    else if now - waiting.lastSuccess > TEST_WINDOW then Replace
    else Wait
  }

  function Forget(s: State, id: NodeId): State {
    s.(collisions := s.collisions - {id})
  }

  /** One round of the loop that settles collisions. */
  function ResolveOne(p: Params, s: State, id: NodeId, now: int): State
    requires Inv(p, s, {}, {})
  {
    InsertReady(p, s, {}, {});
    if id !in s.info || !p.valid(s.info[id].addr) then Forget(s, id) else
      var svc := s.info[id].addr;
      var sl := TriedSlot(p, s.key, svc);
      if sl !in s.triedTab then Forget(Good(p, s, svc, false, now).0, id)
      else match Judge(s.info[id], s.info[s.triedTab[sl]], now)
        case Drop => Forget(s, id)
        case Replace => Forget(Good(p, s, svc, false, now).0, id)
        case Wait => s
  }

  // ---------------------------------------------------------------- what no operation undoes

  /** Ids are not reused, addresses of ids do not change, and an occupied tried slot stays occupied. */
  ghost predicate Later(s: State, t: State) {
    && t.key == s.key && s.idCount <= t.idCount
    && (forall sl :: sl in s.triedTab ==> sl in t.triedTab)
    && (forall id :: id in t.info && id.n < s.idCount ==> id in s.info && t.info[id].addr == s.info[id].addr)
  }

  lemma LaterTrans(s: State, t: State, u: State)
    requires Later(s, t) && Later(t, u)
    ensures Later(s, u)
  {
  }

  lemma FrameLater(s: State, t: State)
    requires Frame(s, t) && forall sl :: sl in s.triedTab ==> sl in t.triedTab
    ensures Later(s, t)
  {
  }

  lemma CollisionsKept(p: Params, s: State, t: State)
    requires CollisionsOk(p, s) && Later(s, t) && t.collisions <= s.collisions
    ensures CollisionsOk(p, t)
  {
    Subset(t.collisions, s.collisions);
  }

  lemma Subset<T>(a: set<T>, b: set<T>)
    requires a <= b
    ensures |a| <= |b|
  {
    assert b == a + (b - a);
  }

  lemma TimesKept(p: Params, s: State, t: State)
    requires TimesOk(s.info) && Kept(s.info, t.info) && TriedOk(p, t.key, t.info, t.triedTab)
    requires forall sl :: sl in t.triedTab ==>
               t.triedTab[sl] in s.info && s.info[t.triedTab[sl]].lastSuccess != 0
    ensures TimesOk(t.info)
  {
  }

  lemma SeatedTimes(p: Params, key: int, info: map<NodeId, AddrInfo>, triedTab: map<Slot, NodeId>)
    requires TimesOk(info) && TriedOk(p, key, info, triedTab)
    ensures forall sl :: sl in triedTab ==> triedTab[sl] in info && info[triedTab[sl]].lastSuccess != 0
  {
  }

  // ---------------------------------------------------------------- Good

  lemma MovedTo(p: Params, s: State, id: NodeId, time: int)
    requires Inv(p, s, {}, {}) && id in s.info && !s.info[id].inTried
    ensures Inv(p, Noted(s, id, time), {}, {})
    ensures var t := MakeTried(p, Noted(s, id, time), id);
            && Inv(p, t, {}, {}) && Frame(Noted(s, id, time), t)
            && t.triedTab == s.triedTab[TriedSlot(p, s.key, s.info[id].addr) := id]
  {
    hide RandomOk, IdsOk, TriedOk, NewOk, CountsOk, LooseOk, MakeTried, Frame, EvictedTab;
    NotedKeeps(p, s, id, time);
    var n := Noted(s, id, time);
    TriedIn(p, n, {}, {});
    MakeTriedKeeps(p, n, id);
    MakeTriedTables(p, n, id, TriedSlot(p, s.key, s.info[id].addr));
  }

  lemma GoodKeeps(p: Params, s: State, svc: Service, testBeforeEvict: bool, time: int)
    requires Inv(p, s, {}, {})
    ensures Inv(p, Good(p, s, svc, testBeforeEvict, time).0, {}, {})
  {
    hide RandomOk, IdsOk, TriedOk, NewOk, CountsOk, LooseOk, MakeTried;
    InsertReady(p, s, {}, {});
    if svc in s.ids {
      NotedKeeps(p, s, s.ids[svc], time);
      if Moves(p, s, s.ids[svc], testBeforeEvict) {
        MovedTo(p, s, s.ids[svc], time);
      }
    }
  }

  lemma GoodLater(p: Params, s: State, svc: Service, testBeforeEvict: bool, time: int)
    requires Inv(p, s, {}, {})
    ensures Later(s, Good(p, s, svc, testBeforeEvict, time).0)
  {
    hide RandomOk, IdsOk, TriedOk, NewOk, CountsOk, LooseOk, MakeTried, Frame, Later, Inv;
    InsertReady(p, s, {}, {});
    LaterSelf(s);
    if svc in s.ids {
      var n := Noted(s, s.ids[svc], time);
      NotedLater(s, s.ids[svc], time);
      if Moves(p, s, s.ids[svc], testBeforeEvict) {
        MovedTo(p, s, s.ids[svc], time);
        FrameLater(n, MakeTried(p, n, s.ids[svc]));
        LaterTrans(s, n, MakeTried(p, n, s.ids[svc]));
      }
    } else {
      LaterSame(s, s.(lastGood := time));
    }
  }

  lemma NotedLater(s: State, id: NodeId, time: int)
    requires id in s.info
    ensures Later(s, Noted(s, id, time)) && Later(s, Held(s, id, time))
  {
  }

  /** `Later` does not look at the waiting ids or the time of the last success. */
  lemma LaterSame(s: State, t: State)
    requires t == s.(lastGood := t.lastGood, collisions := t.collisions)
    ensures Later(s, t)
  {
  }

  lemma GoodCollisions(p: Params, s: State, svc: Service, testBeforeEvict: bool, time: int)
    requires Inv(p, s, {}, {}) && CollisionsOk(p, s)
    ensures CollisionsOk(p, Good(p, s, svc, testBeforeEvict, time).0)
    ensures !testBeforeEvict ==> Good(p, s, svc, testBeforeEvict, time).0.collisions == s.collisions
  {
    hide RandomOk, IdsOk, TriedOk, NewOk, CountsOk, LooseOk, MakeTried, CollisionsOk;
    InsertReady(p, s, {}, {});
    GoodLater(p, s, svc, testBeforeEvict, time);
    var t := Good(p, s, svc, testBeforeEvict, time).0;
    if svc in s.ids && !Moves(p, s, s.ids[svc], testBeforeEvict) {
      HeldCollisions(p, s, s.ids[svc], time);
    } else {
      if svc in s.ids {
        MovedTo(p, s, s.ids[svc], time);
      }
      CollisionsKept(p, s, t);
    }
  }

  lemma HeldCollisions(p: Params, s: State, id: NodeId, time: int)
    requires CollisionsOk(p, s) && id in s.info && IdsOk(s.info, s.ids, s.idCount)
    requires s.info[id].inTried || TriedSlot(p, s.key, s.info[id].addr) in s.triedTab
    ensures CollisionsOk(p, Held(s, id, time))
  {
  }

  lemma GoodTimes(p: Params, s: State, svc: Service, testBeforeEvict: bool, time: int)
    requires Inv(p, s, {}, {}) && TimesOk(s.info) && time > 0
    ensures TimesOk(Good(p, s, svc, testBeforeEvict, time).0.info)
  {
    hide RandomOk, IdsOk, NewOk, CountsOk, TriedOk, LooseOk, TimesOk, MakeTried, Kept;
    InsertReady(p, s, {}, {});
    if svc in s.ids {
      var id := s.ids[svc];
      NotedTimes(s, id, time);
      if Moves(p, s, id, testBeforeEvict) {
        MovedTo(p, s, id, time);
        SeatedTimes(p, s.key, s.info, s.triedTab);
        TimesKept(p, Noted(s, id, time), MakeTried(p, Noted(s, id, time), id));
      }
    }
  }

  lemma NotedTimes(s: State, id: NodeId, time: int)
    requires TimesOk(s.info) && id in s.info && time > 0
    ensures TimesOk(Noted(s, id, time).info)
  {
  }

  // ---------------------------------------------------------------- adding

  lemma CreatedLater(p: Params, s: State, a: Address, src: NetAddr, penalty: int)
    requires Inv(p, s, {}, {}) && a.svc !in s.ids
    ensures Later(s, Created(p, s, a, src, penalty))
    ensures TimesOk(s.info) ==> TimesOk(Created(p, s, a, src, penalty).info)
  {
    hide RandomOk, IdsOk, TriedOk, NewOk, CountsOk, LooseOk;
    IdUnused(s.info, s.ids, s.idCount);
  }

  lemma InsertLater(p: Params, s: State, b: State, id: NodeId, src: NetAddr, now: int)
    requires Later(s, b) && b.collisions == s.collisions && b.triedTab == s.triedTab
    requires RandomOk(b.info, b.random) && id in b.info
    requires forall sl :: sl in b.newTab ==> b.newTab[sl] in b.info
    ensures var t := Insert(p, b, id, src, now).0;
            Later(s, t) && t.collisions == s.collisions && t.triedTab == s.triedTab && Kept(b.info, t.info)
  {
    hide RandomOk, Insert, Later, Kept;
    InsertTables(p, b, id, src, now);
    FrameLater(b, Insert(p, b, id, src, now).0);
    LaterTrans(s, b, Insert(p, b, id, src, now).0);
  }

  lemma AddSingleLater(p: Params, s: State, a: Address, src: NetAddr, penalty: int, now: int, draw: nat)
    requires Inv(p, s, {}, {})
    ensures var t := AddSingle(p, s, a, src, penalty, now, draw).0;
            && Later(s, t) && t.collisions == s.collisions && t.triedTab == s.triedTab
            && (TimesOk(s.info) ==> TimesOk(t.info))
  {
    hide Inv, RandomOk, Insert, Later, TimesOk, Kept;
    InsertReady(p, s, {}, {});
    var pen := Penalty(a, src, penalty);
    LaterSelf(s);
    AddSingleKeeps(p, s, a, src, penalty, now, draw);
    if p.routable(a.svc) {
      if a.svc in s.ids {
        var t := Refreshed(s, a, pen, now);
        RefreshedKeeps(p, s, a, pen, now);
        InsertReady(p, t, {}, {});
        TouchLater(s, s.ids[a.svc], t.info[s.ids[a.svc]]);
        if MayAddRef(t.info[s.ids[a.svc]], a, draw) {
          InsertLater(p, s, t, s.ids[a.svc], src, now);
          KeptTimes(p, t, Insert(p, t, s.ids[a.svc], src, now).0, {});
        }
      } else {
        var id := NodeId(s.idCount);
        var t := Created(p, s, a, src, pen);
        CreatedKeeps(p, s, a, src, pen);
        InsertReady(p, t, {id}, {});
        CreatedLater(p, s, a, src, pen);
        InsertLater(p, s, t, id, src, now);
        KeptTimes(p, t, Insert(p, t, id, src, now).0, {id});
      }
    }
  }

  lemma LaterSelf(s: State)
    ensures Later(s, s)
  {
  }

  lemma TouchLater(s: State, id: NodeId, i: AddrInfo)
    requires id in s.info && s.info[id].addr == i.addr
    ensures Later(s, Touch(s, id, i))
    ensures TimesOk(s.info) && 0 <= i.lastTry && 0 <= i.lastSuccess && (i.inTried ==> i.lastSuccess != 0) ==>
              TimesOk(Touch(s, id, i).info)
    ensures TimesOk(s.info) && i.lastTry == s.info[id].lastTry && i.lastSuccess == s.info[id].lastSuccess
            && i.inTried == s.info[id].inTried ==>
              TimesOk(Touch(s, id, i).info)
  {
  }

  lemma KeptTimes(p: Params, b: State, t: State, zero: set<NodeId>)
    requires Inv(p, b, zero, {}) && Inv(p, t, {}, {}) && Kept(b.info, t.info) && t.triedTab == b.triedTab
    ensures TimesOk(b.info) ==> TimesOk(t.info)
  {
    hide RandomOk, IdsOk, TriedOk, NewOk, CountsOk, LooseOk, Kept, TimesOk;
    if TimesOk(b.info) {
      SeatedTimes(p, b.key, b.info, b.triedTab);
      TimesKept(p, b, t);
    }
  }

  // ---------------------------------------------------------------- settling collisions

  lemma ResolveKeeps(p: Params, s: State, id: NodeId, now: int)
    requires Inv(p, s, {}, {}) && CollisionsOk(p, s)
    ensures var t := ResolveOne(p, s, id, now);
            && Inv(p, t, {}, {}) && CollisionsOk(p, t) && Later(s, t)
            && s.collisions - {id} <= t.collisions <= s.collisions
            && (TimesOk(s.info) && now > 0 ==> TimesOk(t.info))
  {
    hide Inv, Later, CollisionsOk, TimesOk, Good;
    InsertReady(p, s, {}, {});
    LaterSelf(s);
    ForgetKeeps(p, s, id);
    if id in s.info {
      var svc := s.info[id].addr;
      var g := Good(p, s, svc, false, now).0;
      GoodKeeps(p, s, svc, false, now);
      GoodCollisions(p, s, svc, false, now);
      GoodLater(p, s, svc, false, now);
      ForgetKeeps(p, g, id);
      LaterTrans(s, g, Forget(g, id));
      if TimesOk(s.info) && now > 0 {
        GoodTimes(p, s, svc, false, now);
      }
    }
  }

  lemma ForgetKeeps(p: Params, s: State, id: NodeId)
    requires Inv(p, s, {}, {}) && CollisionsOk(p, s)
    ensures Inv(p, Forget(s, id), {}, {}) && CollisionsOk(p, Forget(s, id)) && Later(s, Forget(s, id))
  {
    hide RandomOk, IdsOk, TriedOk, NewOk, CountsOk, LooseOk, CollisionsOk;
    LaterSame(s, Forget(s, id));
    CollisionsKept(p, s, Forget(s, id));
  }

  /** The entry named by a waiting id that is still there can be read: its slot is never empty, so
      the branch "not actually a collision anymore" of the source is never taken. */
  lemma WaitingSlotOccupied(p: Params, s: State, id: NodeId)
    requires Inv(p, s, {}, {}) && CollisionsOk(p, s) && id in s.collisions && id in s.info
    ensures var sl := TriedSlot(p, s.key, s.info[id].addr);
            sl in s.triedTab && s.triedTab[sl] in s.info && s.info[s.triedTab[sl]].inTried
  {
    hide RandomOk, IdsOk, NewOk, CountsOk, LooseOk, TriedOk;
    SeatedOk(p, s.key, s.info, s.triedTab, TriedSlot(p, s.key, s.info[id].addr));
  }

  // ---------------------------------------------------------------- runs

  datatype Op =
    | Add(a: Address, src: NetAddr, penalty: int, now: int, draw: nat)
    | MarkGood(svc: Service, time: int)
    | Attempt(svc: Service, countFailure: bool, time: int)
    | MarkConnected(svc: Service, time: int)
    | SetServices(svc: Service, services: set<nat>)
    | Resolve(id: NodeId, now: int)
    | SelectCollision(id: NodeId)
    | Shuffle(i: int, j: int)

  predicate Positive(op: Op) {
    match op
    case MarkGood(_, time) => time > 0
    case Attempt(_, _, time) => time > 0
    case Resolve(_, now) => now > 0
    case _ => true
  }

  function Step(p: Params, s: State, op: Op): State
    requires Inv(p, s, {}, {})
  {
    InsertReady(p, s, {}, {});
    match op
    case Add(a, src, penalty, now, draw) => AddSingle(p, s, a, src, penalty, now, draw).0
    case MarkGood(svc, time) => Good(p, s, svc, true, time).0
    case Attempt(svc, countFailure, time) => OnEntry(s, svc, i => Attempted(i, countFailure, time, s.lastGood))
    case MarkConnected(svc, time) => OnEntry(s, svc, i => Connected(i, time))
    case SetServices(svc, services) => OnEntry(s, svc, (i: AddrInfo) => i.(services := services))
    case Resolve(id, now) => if id in s.collisions then ResolveOne(p, s, id, now) else s
    case SelectCollision(id) => if id in s.info then s else Forget(s, id)
    case Shuffle(i, j) =>
      if 0 <= i < |s.random| && 0 <= j < |s.random| then
        RandomIn(s.info, s.random);
        SwapRandom(s, i, j)
      else s
  }

  lemma RandomIn(info: map<NodeId, AddrInfo>, random: seq<NodeId>)
    requires RandomOk(info, random)
    ensures forall k :: 0 <= k < |random| ==> random[k] in info
  {
  }

  /** Everything that holds between operations. */
  ghost predicate Sound(p: Params, s: State) {
    Inv(p, s, {}, {}) && CollisionsOk(p, s)
  }

  lemma OnEntryKeeps(p: Params, s: State, svc: Service, f: AddrInfo -> AddrInfo)
    requires Sound(p, s)
    requires forall a :: a in s.ids ==> s.ids[a] in s.info
    requires forall i :: SamePlace(i, f(i))
    ensures Sound(p, OnEntry(s, svc, f)) && Later(s, OnEntry(s, svc, f))
    ensures TimesOk(s.info)
            && (forall i: AddrInfo :: 0 <= i.lastTry && 0 <= i.lastSuccess && (i.inTried ==> i.lastSuccess != 0) ==>
                  0 <= f(i).lastTry && f(i).lastSuccess == i.lastSuccess)
            ==> TimesOk(OnEntry(s, svc, f).info)
  {
    hide Inv, CollisionsOk, Later;
    LaterSelf(s);
    if svc in s.ids {
      var id := s.ids[svc];
      TouchKeeps(p, s, id, f(s.info[id]), {}, {});
      TouchLater(s, id, f(s.info[id]));
      CollisionsKept(p, s, OnEntry(s, svc, f));
    }
  }

  lemma StepKeeps(p: Params, s: State, op: Op)
    requires Sound(p, s)
    ensures Sound(p, Step(p, s, op)) && Later(s, Step(p, s, op))
    ensures TimesOk(s.info) && Positive(op) ==> TimesOk(Step(p, s, op).info)
  {
    hide Inv, CollisionsOk, Later, TimesOk, AddSingle, Good, ResolveOne, RandomOk;
    InsertReady(p, s, {}, {});
    LaterSelf(s);
    match op
    case Add(a, src, penalty, now, draw) =>
      AddSingleKeeps(p, s, a, src, penalty, now, draw);
      AddSingleLater(p, s, a, src, penalty, now, draw);
      CollisionsKept(p, s, Step(p, s, op));
    case MarkGood(svc, time) =>
      GoodKeeps(p, s, svc, true, time);
      GoodLater(p, s, svc, true, time);
      GoodCollisions(p, s, svc, true, time);
      if TimesOk(s.info) && time > 0 {
        GoodTimes(p, s, svc, true, time);
      }
    case Attempt(svc, countFailure, time) =>
      OnEntryKeeps(p, s, svc, i => Attempted(i, countFailure, time, s.lastGood));
    case MarkConnected(svc, time) =>
      OnEntryKeeps(p, s, svc, i => Connected(i, time));
    case SetServices(svc, services) =>
      OnEntryKeeps(p, s, svc, (i: AddrInfo) => i.(services := services));
    case Resolve(id, now) =>
      ResolveKeeps(p, s, id, now);
    case SelectCollision(id) =>
      ForgetKeeps(p, s, id);
    case Shuffle(i, j) =>
      if 0 <= i < |s.random| && 0 <= j < |s.random| {
        ShuffleKeeps(p, s, i, j);
      }
  }

  lemma ShuffleKeeps(p: Params, s: State, i: int, j: int)
    requires Sound(p, s) && 0 <= i < |s.random| && 0 <= j < |s.random|
    requires s.random[i] in s.info && s.random[j] in s.info
    ensures var t := SwapRandom(s, i, j); Sound(p, t) && Later(s, t) && (TimesOk(s.info) ==> TimesOk(t.info))
  {
    hide Inv, CollisionsOk;
    var t := SwapRandom(s, i, j);
    SwapRandomKeeps(p, s, i, j, {}, {});
    SwapFrame(s, i, j);
    FrameLater(s, t);
    CollisionsKept(p, s, t);
    KeptTimes(p, s, t, {});
  }

  ghost function Run(p: Params, s: State, ops: seq<Op>): State
    requires Sound(p, s)
    decreases |ops|
  {
    if ops == [] then s else
      StepKeeps(p, s, ops[0]);
      Run(p, Step(p, s, ops[0]), ops[1..])
  }

  /** The invariant, the collision set, the occupied tried slots and the meaning of ids survive every
      run; so do the time clauses when the times passed in are positive. */
  lemma {:induction false} RunKeeps(p: Params, s: State, ops: seq<Op>)
    requires Sound(p, s)
    ensures Sound(p, Run(p, s, ops)) && Later(s, Run(p, s, ops))
    ensures TimesOk(s.info) && (forall op :: op in ops ==> Positive(op)) ==> TimesOk(Run(p, s, ops).info)
    decreases |ops|
  {
    hide Inv, CollisionsOk, Later, TimesOk, Step, Positive;
    if ops == [] {
      LaterSelf(s);
    } else {
      var t := Step(p, s, ops[0]);
      StepKeeps(p, s, ops[0]);
      RunKeeps(p, t, ops[1..]);
      LaterTrans(s, t, Run(p, t, ops[1..]));
    }
  }

  ghost function AnyAdded(p: Params, s: State, ops: seq<Op>): bool
    requires Sound(p, s)
    decreases |ops|
  {
    if ops == [] then false else
      StepKeeps(p, s, ops[0]);
      || (ops[0].Add? && AddSingle(p, s, ops[0].a, ops[0].src, ops[0].penalty, ops[0].now, ops[0].draw).1)
      || AnyAdded(p, Step(p, s, ops[0]), ops[1..])
  }

  function Empty(key: int): State {
    State(key, 0, map[], map[], [], 0, map[], 0, map[], 1, {}, map[])
  }

  lemma EmptySound(p: Params, key: int)
    ensures Sound(p, Empty(key)) && TimesOk(Empty(key).info)
  {
    var s := Empty(key);
    var none: set<NodeId> := {};
    forall net ensures NewIds(p, s.info, none, net) == {} && TriedIds(p, s.info, net) == {} {}
  }
}
