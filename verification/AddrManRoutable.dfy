/** Only addresses that can be routed to are ever stored, over every run. */
module AddrManRoutable {
  import opened AddrManOps
  import opened AddrManRuns
  import opened AddrManSpec
  import opened AddrManSteps

  ghost predicate Routable(p: Params, info: map<NodeId, AddrInfo>) {
    forall id :: id in info ==> p.routable(info[id].addr)
  }

  lemma KeptRoutable(p: Params, a: map<NodeId, AddrInfo>, b: map<NodeId, AddrInfo>)
    requires Kept(a, b) && Routable(p, a)
    ensures Routable(p, b)
  {
  }

  lemma TouchRoutable(p: Params, s: State, id: NodeId, i: AddrInfo)
    requires id in s.info && i.addr == s.info[id].addr && Routable(p, s.info)
    ensures Routable(p, Touch(s, id, i).info)
  {
  }

  lemma CreatedRoutable(p: Params, s: State, a: Address, src: NetAddr, penalty: int)
    requires Routable(p, s.info) && p.routable(a.svc)
    ensures Routable(p, Created(p, s, a, src, penalty).info)
  {
  }

  lemma InsertRoutable(p: Params, s: State, id: NodeId, src: NetAddr, now: int)
    requires RandomOk(s.info, s.random) && id in s.info
    requires forall sl :: sl in s.newTab ==> s.newTab[sl] in s.info
    requires Routable(p, s.info)
    ensures Routable(p, Insert(p, s, id, src, now).0.info)
  {
    hide RandomOk, Insert, Routable;
    InsertTables(p, s, id, src, now);
    KeptRoutable(p, s.info, Insert(p, s, id, src, now).0.info);
  }

  lemma AddRoutable(p: Params, s: State, a: Address, src: NetAddr, penalty: int, now: int, draw: nat)
    requires Inv(p, s, {}, {}) && Routable(p, s.info)
    ensures Routable(p, AddSingle(p, s, a, src, penalty, now, draw).0.info)
  {
    hide Inv, RandomOk, Insert, Routable;
    InsertReady(p, s, {}, {});
    var pen := Penalty(a, src, penalty);
    if p.routable(a.svc) {
      if a.svc in s.ids {
        var t := Refreshed(s, a, pen, now);
        RefreshedKeeps(p, s, a, pen, now);
        InsertReady(p, t, {}, {});
        TouchRoutable(p, s, s.ids[a.svc], t.info[s.ids[a.svc]]);
        if MayAddRef(t.info[s.ids[a.svc]], a, draw) { InsertRoutable(p, t, s.ids[a.svc], src, now); }
      } else {
        CreatedKeeps(p, s, a, src, pen);
        InsertReady(p, Created(p, s, a, src, pen), {NodeId(s.idCount)}, {});
        CreatedRoutable(p, s, a, src, pen);
        InsertRoutable(p, Created(p, s, a, src, pen), NodeId(s.idCount), src, now);
      }
    }
  }

  lemma GoodRoutable(p: Params, s: State, svc: Service, testBeforeEvict: bool, time: int)
    requires Inv(p, s, {}, {}) && Routable(p, s.info)
    ensures Routable(p, Good(p, s, svc, testBeforeEvict, time).0.info)
  {
    hide Inv, MakeTried, Routable;
    InsertReady(p, s, {}, {});
    if svc in s.ids {
      var id := s.ids[svc];
      TouchRoutable(p, s.(lastGood := time), id, Succeeded(s.info[id], time));
      if Moves(p, s, id, testBeforeEvict) {
        MovedTo(p, s, id, time);
        KeptRoutable(p, Noted(s, id, time).info, MakeTried(p, Noted(s, id, time), id).info);
      }
    }
  }

  lemma OnEntryRoutable(p: Params, s: State, svc: Service, f: AddrInfo -> AddrInfo)
    requires forall a :: a in s.ids ==> s.ids[a] in s.info
    requires (forall i :: SamePlace(i, f(i))) && Routable(p, s.info)
    ensures Routable(p, OnEntry(s, svc, f).info)
  {
    hide Routable;
    if svc in s.ids { TouchRoutable(p, s, s.ids[svc], f(s.info[s.ids[svc]])); }
  }

  lemma StepRoutable(p: Params, s: State, op: Op)
    requires Sound(p, s) && Routable(p, s.info)
    ensures Routable(p, Step(p, s, op).info)
  {
    hide Inv, CollisionsOk, AddSingle, Good, RandomOk, Routable, Kept;
    InsertReady(p, s, {}, {});
    match op
    case Add(a, src, penalty, now, draw) => AddRoutable(p, s, a, src, penalty, now, draw);
    case MarkGood(svc, time) => GoodRoutable(p, s, svc, true, time);
    case Attempt(svc, countFailure, time) =>
      OnEntryRoutable(p, s, svc, i => Attempted(i, countFailure, time, s.lastGood));
    case MarkConnected(svc, time) => OnEntryRoutable(p, s, svc, i => Connected(i, time));
    case SetServices(svc, services) => OnEntryRoutable(p, s, svc, (i: AddrInfo) => i.(services := services));
    case Resolve(id, now) => if id in s.info { GoodRoutable(p, s, s.info[id].addr, false, now); }
    case SelectCollision(id) =>
    case Shuffle(i, j) =>
      if 0 <= i < |s.random| && 0 <= j < |s.random| {
        RandomIn(s.info, s.random);
        SwapFrame(s, i, j);
        KeptRoutable(p, s.info, SwapRandom(s, i, j).info);
      }
  }

  /** No run stores an address that cannot be routed to. */
  lemma {:induction false} RunRoutable(p: Params, s: State, ops: seq<Op>)
    requires Sound(p, s) && Routable(p, s.info)
    ensures Routable(p, Run(p, s, ops).info)
    decreases |ops|
  {
    hide Inv, CollisionsOk, Step, Routable, Later;
    if ops != [] {
      StepKeeps(p, s, ops[0]);
      StepRoutable(p, s, ops[0]);
      RunRoutable(p, Step(p, s, ops[0]), ops[1..]);
    }
  }
}
