/** Whole runs of the check queue: what Wait returns, that nothing runs twice, that no wake-up is lost and
    that every Wait ends. */
module CheckQueueRuns {
  import opened CheckQueue

  ghost predicate CanStep(s: State, l: Label) {
    Enabled(s, l) && s.total >= 0 && s.idle >= 0 && (l.Resume? ==> s.idle >= 1)
  }

  ghost predicate IsRun(limit: nat, s: State, ls: seq<Label>)
    decreases ls
  {
    ls != [] ==> CanStep(s, ls[0]) && IsRun(limit, Next(limit, s, ls[0]), ls[1..])
  }

  ghost function After(limit: nat, s: State, ls: seq<Label>): State
    requires IsRun(limit, s, ls)
    decreases ls
  {
    if ls == [] then s else After(limit, Next(limit, s, ls[0]), ls[1..])
  }

  /** Between steps nobody holds the lock. */
  ghost predicate Unlocked(threads: seq<Pc>) {
    forall j :: 0 <= j < |threads| ==> !threads[j].Locked?
  }

  ghost predicate Sound(s: State) {
    Inv(s) && Unlocked(s.threads)
  }

  lemma StepUnlocks(limit: nat, s: State, l: Label)
    requires CanStep(s, l) && Unlocked(s.threads)
    ensures Unlocked(Next(limit, s, l).threads)
  {
    hide Take, Settle, Fresh;
  }

  lemma {:induction false} RunKeeps(limit: nat, s: State, ls: seq<Label>)
    requires Sound(s) && IsRun(limit, s, ls)
    ensures Sound(After(limit, s, ls))
    decreases ls
  {
    hide Inv, Next, Unlocked;
    if ls != [] {
      StepKeeps(limit, s, ls[0]);
      StepUnlocks(limit, s, ls[0]);
      RunKeeps(limit, Next(limit, s, ls[0]), ls[1..]);
    }
  }

  lemma {:induction false} StartSums(workers: nat)
    ensures var threads := Initial(workers).threads;
            && Sum(IsIdle, threads) == 0 && Sum(IsMember, threads) == 0
            && Gather(Batch, threads) == multiset{} && Gather(Prefix, threads) == multiset{}
  {
    var threads := Initial(workers).threads;
    var n := |threads| - 1;
    if workers > 0 {
      StartSums(workers - 1);
      assert threads[..n] == Initial(workers - 1).threads;
    } else {
      assert threads[..n] == [];
    }
  }

  lemma StartSound(workers: nat)
    ensures Sound(Initial(workers))
  {
    StartSums(workers);
    EmptyRound(0);
  }

  lemma {:induction false} PrefixesInFlight(threads: seq<Pc>)
    ensures Gather(Prefix, threads) <= Gather(Batch, threads)
  {
    if threads != [] {
      var n := |threads| - 1;
      PrefixesInFlight(threads[..n]);
      var pc := threads[n];
      if pc.Running? && pc.i <= |pc.batch| {
        assert pc.batch == pc.batch[..pc.i] + pc.batch[pc.i..];
      }
    }
  }

  /** No check ever runs twice, and none is lost: each is queued, in flight or done. */
  lemma NothingTwice(s: State, c: Check)
    requires Inv(s)
    ensures s.ran[c] <= 1
    ensures s.base <= c.id < |s.added| ==> multiset(s.queue)[c] + Gather(Batch, s.threads)[c] + s.done[c] == 1
  {
    hide Issued, Gather;
    PrefixesInFlight(s.threads);
    IssuedOnce(0, s.base, c);
    IssuedOnce(s.base, |s.added|, c);
    assert (multiset(s.queue) + Gather(Batch, s.threads) + s.done)[c] == Issued(s.base, |s.added|)[c];
  }

  /** In every interleaving, every Wait that returned said whether all checks of its round pass; the rounds
      split all checks added so far; the work counter is exact and no check has run twice. */
  lemma EveryRun(limit: nat, workers: nat, ls: seq<Label>)
    requires IsRun(limit, Initial(workers), ls)
    ensures var s := After(limit, Initial(workers), ls);
            && (forall k :: 0 <= k < |s.rounds| ==> RoundOk(s, s.rounds[k]))
            && Chained(s.rounds, s.base)
            && s.todo == |s.queue| + |Gather(Batch, s.threads)|
            && forall c :: s.ran[c] <= 1
  {
    StartSound(workers);
    RunKeeps(limit, Initial(workers), ls);
    var s := After(limit, Initial(workers), ls);
    forall c ensures s.ran[c] <= 1 {
      NothingTwice(s, c);
    }
  }

  // ---------------------------------------------------------------- progress

  /** The steps the pool makes by itself, not counting wake-ups without notification. */
  predicate Internal(l: Label) {
    !l.Spurious? && !l.Add? && !l.Wait?
  }

  /** Some thread has a batch when the counter exceeds the queue. */
  lemma {:induction false} SomeoneRuns(threads: seq<Pc>) returns (t: nat)
    requires Gather(Batch, threads) != multiset{}
    ensures t < |threads| && threads[t].Running?
  {
    var n := |threads| - 1;
    if threads[n].Running? { t := n; } else { t := SomeoneRuns(threads[..n]); }
  }

  /** No wake-up is lost: inside Add or Wait the master, or a worker it waits for, has a step to take. */
  lemma Progress(s: State) returns (l: Label)
    requires Sound(s) && !s.threads[0].Away?
    ensures Internal(l) && Enabled(s, l)
  {
    var t := 0;
    if s.threads[0].Sleeping? {
      assert |Gather(Batch, s.threads)| > 0;
      t := SomeoneRuns(s.threads);
    }
    match s.threads[t] {
      case Running(batch, i, _) => l := if i < |batch| then Exec(t) else Enter(t);
      case Start => l := Enter(t);
      case Woken => l := Resume(t);
      case Notifying(all) =>
        if j :| 0 < j < |s.threads| && s.threads[j].Sleeping? { l := Notify(j); } else { l := Notify(0); }
    }
  }

  /** Work that is queued after Add has notified always finds a worker that is awake. */
  lemma QueuedWorkIsSeen(s: State)
    requires Sound(s) && s.queue != [] && |s.threads| > 1 && !s.threads[0].Notifying?
    ensures exists t :: 0 < t < |s.threads| && !s.threads[t].Sleeping?
  {
  }

  /** What a thread may still do before it sleeps. */
  function Weight(pc: Pc): int {
    match pc
    case Start => 1
    case Woken => 1
    case Locked => 1
    case Running(batch, i, _) => if i <= |batch| then |batch| - i + 2 else 0
    case _ => 0
  }

  /** The work left: queued checks, checks in flight, threads on their way, and a pending notification. */
  ghost function Work(s: State): int {
    3 * |s.queue| + Sum(Weight, s.threads) + (if s.threads != [] && s.threads[0].Notifying? then |s.threads| else 0)
  }

  lemma WorkNatural(s: State)
    ensures Work(s) >= 0
  {
    SumNatural(Weight, s.threads);
  }

  lemma TakeWorks(limit: nat, s: State, t: nat)
    requires t < |s.threads| && s.threads[t].Locked? && s.total >= 0 && s.idle >= 0
    ensures Work(Take(limit, s, t)) < Work(s)
  {
    hide Sum;
    SumUpdate(Weight, s.threads, t, Take(limit, s, t).threads[t]);
  }

  lemma SettleWorks(s: State, t: nat)
    requires Enabled(s, Enter(t))
    ensures Work(Settle(s, t)) <= Work(s) && Settle(s, t).threads[t].Locked?
  {
    hide Sum;
    SumUpdate(Weight, s.threads, t, Locked);
    SumUpdate(Weight, s.threads[t := Locked], 0, Woken);
  }

  lemma WakeAllWorks(threads: seq<Pc>)
    requires threads != []
    ensures Sum(Weight, WakeAll(threads)) <= Sum(Weight, threads) + |threads| - 1
    ensures WakeAll(threads)[0] == threads[0]
  {
    SumNear(Weight, WakeAll(threads), threads, 1);
  }

  lemma NotifyWorks(limit: nat, s: State, t: nat)
    requires CanStep(s, Notify(t))
    ensures Work(Next(limit, s, Notify(t))) < Work(s)
  {
    hide Sum, WakeAll;
    var threads := s.threads[0 := Away];
    SumUpdate(Weight, s.threads, 0, Away);
    WakeAllWorks(threads);
    if t < |threads| { SumUpdate(Weight, threads, t, Woken); }
  }

  lemma LockWorks(limit: nat, s: State, l: Label)
    requires Inv(s) && CanStep(s, l) && (l.Enter? || l.Resume?)
    ensures Work(Next(limit, s, l)) < Work(s)
  {
    hide Inv, Sum, Take, Work;
    if l.Enter? {
      SettleWorks(s, l.t);
      TakeWorks(limit, Settle(s, l.t), l.t);
    } else {
      RelockWorks(s, l.t);
      TakeWorks(limit, Shift(s, l.t, Locked), l.t);
    }
  }

  lemma RelockWorks(s: State, t: nat)
    requires Enabled(s, Resume(t))
    ensures Work(Shift(s, t, Locked)) == Work(s)
  {
    hide Sum;
    SumUpdate(Weight, s.threads, t, Locked);
  }

  lemma MoveWorks(s: State, t: nat)
    requires Enabled(s, Exec(t)) || Enabled(s, Spurious(t))
    ensures Enabled(s, Exec(t)) ==> Work(Executed(s, t)) == Work(s) - 1
    ensures Enabled(s, Spurious(t)) ==> Work(s.(threads := s.threads[t := Woken])) == Work(s) + 1
  {
    hide Sum;
    SumUpdate(Weight, s.threads, t, if s.threads[t].Running? then Executed(s, t).threads[t] else Woken);
  }

  /** Every step the pool makes by itself uses up work; a spurious wake-up adds one unit. */
  lemma StepWorks(limit: nat, s: State, l: Label)
    requires Inv(s) && CanStep(s, l) && (Internal(l) || l.Spurious?)
    ensures Work(Next(limit, s, l)) <= Work(s) + if l.Spurious? then 1 else -1
  {
    hide Inv, Work, Take, Settle, WakeAll;
    match l {
      case Enter(_) => LockWorks(limit, s, l);
      case Resume(_) => LockWorks(limit, s, l);
      case Exec(t) => MoveWorks(s, t);
      case Spurious(t) => MoveWorks(s, t);
      case Notify(t) => NotifyWorks(limit, s, t);
    }
  }

  function SpuriousIn(ls: seq<Label>): nat {
    if ls == [] then 0 else (if ls[0].Spurious? then 1 else 0) + SpuriousIn(ls[1..])
  }

  /** Left to itself the pool stops: spurious wake-ups aside, the number of steps is bounded by the work. */
  lemma {:induction false} RunBounded(limit: nat, s: State, ls: seq<Label>)
    requires Sound(s) && IsRun(limit, s, ls)
    requires forall k :: 0 <= k < |ls| ==> Internal(ls[k]) || ls[k].Spurious?
    ensures |ls| <= Work(s) + 2 * SpuriousIn(ls)
    decreases ls
  {
    hide Inv, Next, Unlocked, Work;
    WorkNatural(s);
    if ls != [] {
      assert Internal(ls[0]) || ls[0].Spurious?;
      StepWorks(limit, s, ls[0]);
      StepKeeps(limit, s, ls[0]);
      StepUnlocks(limit, s, ls[0]);
      RunBounded(limit, Next(limit, s, ls[0]), ls[1..]);
    }
  }

  /** The answer owed to a Wait called in `from`. */
  ghost function Owed(from: State): Round {
    Round(from.base, |from.added|, forall k :: from.base <= k < |from.added| ==> from.added[k])
  }

  /** That Wait has returned with the answer owed. */
  ghost predicate Returned(from: State, s: State) {
    s.threads != [] && s.threads[0].Away? && s.rounds == from.rounds + [Owed(from)]
  }

  ghost predicate Waiting(from: State, s: State) {
    && s.threads != [] && !s.threads[0].Away? && !s.threads[0].Notifying?
    && s.added == from.added && s.base == from.base && s.rounds == from.rounds
  }

  /** Taking the lock either leaves the Wait as it is or completes it. */
  lemma TakeAnswers(limit: nat, from: State, s: State, t: nat)
    requires t < |s.threads| && s.threads[t].Locked? && s.total >= 0 && s.idle >= 0 && RoundsOk(Take(limit, s, t))
    requires Waiting(from, s) || Returned(from, s)
    ensures var u := Take(limit, s, t);
            Waiting(from, u) || Returned(from, u)
  {
    hide BatchSize;
    var u := Take(limit, s, t);
    if t == 0 && s.queue == [] && s.todo == 0 {
      assert RoundOk(u, u.rounds[|u.rounds| - 1]);
    }
  }

  lemma SettleAnswers(from: State, s: State, t: nat)
    requires CanStep(s, Enter(t)) && (Waiting(from, s) || Returned(from, s))
    ensures var u := Settle(s, t);
            (Waiting(from, u) || Returned(from, u)) && u.threads[t].Locked? && u.total >= 0 && u.idle >= 0
  {
  }

  lemma StepAnswers(limit: nat, from: State, s: State, l: Label)
    requires Inv(s) && CanStep(s, l) && (Internal(l) || l.Spurious?) && (Waiting(from, s) || Returned(from, s))
    ensures var u := Next(limit, s, l);
            Waiting(from, u) || Returned(from, u)
  {
    hide Take, Settle, RoundsOk, Owed, Sum, Gather, Issued, WakeAll;
    assert RoundsOk(Next(limit, s, l)) by { StepKeeps(limit, s, l); }
    match l {
      case Enter(t) =>
        SettleAnswers(from, s, t);
        TakeAnswers(limit, from, Settle(s, t), t);
      case Resume(t) => TakeAnswers(limit, from, Shift(s, t, Locked), t);
      case _ =>
    }
  }

  /** Every Wait ends with the right answer: once the pool has no step left to take, the master has
      returned whether all checks added since the previous Wait pass. */
  lemma {:induction false} WaitAnswers(limit: nat, from: State, s: State, ls: seq<Label>)
    requires Sound(s) && IsRun(limit, s, ls) && (Waiting(from, s) || Returned(from, s))
    requires forall k :: 0 <= k < |ls| ==> Internal(ls[k]) || ls[k].Spurious?
    requires forall l :: Internal(l) ==> !Enabled(After(limit, s, ls), l)
    ensures Returned(from, After(limit, s, ls))
    decreases ls
  {
    hide Inv, Next, Unlocked, Enabled;
    if ls == [] {
      if !s.threads[0].Away? { var l := Progress(s); assert false; }
    } else {
      assert Internal(ls[0]) || ls[0].Spurious?;
      StepAnswers(limit, from, s, ls[0]);
      StepKeeps(limit, s, ls[0]);
      StepUnlocks(limit, s, ls[0]);
      WaitAnswers(limit, from, Next(limit, s, ls[0]), ls[1..]);
    }
  }
}
