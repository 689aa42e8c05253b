/** The check queue as a transition system: one step per critical section, per check executed and per
    notification, interleaved in any order. Thread 0 is the master, the others are workers. */
module CheckQueue {

  /** A check, named by its place among all checks ever added. */
  datatype Check = Check(id: nat)

  datatype Pc =
    | Away                                              // the master, outside Add and Wait
    | Notifying(all: bool)                              // the master, between the two halves of Add
    | Start                                             // about to enter the loop
    | Sleeping                                          // waiting on its condition variable
    | Woken                                             // notified, or woken for no reason; wants the lock
    | Locked                                            // inside the critical section
    | Running(batch: seq<Check>, i: nat, ok: bool)      // executing its batch outside the lock

  /** One completed Wait: the checks added since the previous one, and the verdict. */
  datatype Round = Round(from: nat, to: nat, ok: bool)

  /** The shared fields and the threads, then the history: the outcome of every check added, the first
      check of this round, those completed in this round, those ever executed, and the rounds so far. */
  datatype State = State(
    queue: seq<Check>, idle: int, total: int, allOk: bool, todo: int, threads: seq<Pc>,
    added: seq<bool>, base: nat, done: multiset<Check>, ran: multiset<Check>, rounds: seq<Round>)

  // ---------------------------------------------------------------- the steps

  /** The size of the next batch. */
  function BatchSize(limit: nat, queued: nat, total: int, idle: int): (n: nat)
    requires queued > 0 && total >= 0 && idle >= 0
    ensures 1 <= n <= queued && (n == 1 || n <= limit)
  {
    var share := queued / (total + idle + 1);
    ShareBounded(queued, total + idle + 1);
    var capped := if limit < share then limit else share;
    if capped < 1 then 1 else capped
  }

  /** A batch of more than one is within the limit and leaves as many for each other thread, and is the largest such. */
  lemma BatchFair(limit: nat, queued: nat, total: int, idle: int, k: nat)
    requires queued > 0 && total >= 0 && idle >= 0 && k > 1
    ensures k <= BatchSize(limit, queued, total, idle) <==> k <= limit && k * (total + idle + 1) <= queued
  {
    ShareIs(queued, total + idle + 1, k);
  }

  lemma ShareIs(queued: nat, d: int, k: nat)
    requires d >= 1
    ensures k * d <= queued <==> k <= queued / d
  {
    var q := queued / d;
    if k <= q { assert k * d <= q * d; } else { assert k * d >= (q + 1) * d; }
  }

  lemma ShareBounded(queued: nat, d: int)
    requires d >= 1
    ensures 0 <= queued / d <= queued
  {
  }

  /** Inside the lock: sleep, return from Wait, or take a batch from the end of the queue. */
  function Take(limit: nat, s: State, t: nat): (u: State)
    requires t < |s.threads| && s.total >= 0 && s.idle >= 0
    ensures |u.threads| == |s.threads| && !u.threads[t].Locked?
    ensures forall j :: 0 <= j < |s.threads| && j != t ==> u.threads[j] == s.threads[j]
  {
    if s.queue == [] then
      if t == 0 && s.todo == 0 then
        s.(total := s.total - 1, allOk := true, threads := s.threads[0 := Away],
           base := |s.added|, done := multiset{}, rounds := s.rounds + [Round(s.base, |s.added|, s.allOk)])
      else
        s.(idle := s.idle + 1, threads := s.threads[t := Sleeping])
    else
      var n := |s.queue| - BatchSize(limit, |s.queue|, s.total, s.idle);
      s.(queue := s.queue[..n], threads := s.threads[t := Running(s.queue[n..], 0, s.allOk)])
  }

  /** The clean-up of the previous batch, or the registration on the first time round. */
  function Settle(s: State, t: nat): (u: State)
    requires t < |s.threads|
    ensures |u.threads| == |s.threads|
    ensures forall j :: 0 <= j < |s.threads| && j != t && u.threads[j].Locked? ==> s.threads[j].Locked?
  {
    match s.threads[t]
    case Running(batch, _, ok) =>
      var todo := s.todo - |batch|;
      s.(allOk := s.allOk && ok, todo := todo, done := s.done + multiset(batch),
         threads := if todo == 0 && t != 0 then WakeMaster(s.threads[t := Locked]) else s.threads[t := Locked])
    case _ => s.(total := s.total + 1, threads := s.threads[t := Locked])
  }

  function WakeMaster(threads: seq<Pc>): (r: seq<Pc>)
    requires threads != []
    ensures |r| == |threads|
  {
    if threads[0].Sleeping? then threads[0 := Woken] else threads
  }

  function WakeAll(threads: seq<Pc>): (r: seq<Pc>)
    ensures |r| == |threads|
  {
    seq(|threads|, j requires 0 <= j < |threads| => if j > 0 && threads[j].Sleeping? then Woken else threads[j])
  }

  /** The state after the next check of a batch, executed only if all before it passed. */
  function Executed(s: State, t: nat): State
    requires t < |s.threads| && s.threads[t].Running? && s.threads[t].i < |s.threads[t].batch|
  {
    var r := s.threads[t];
    var c := r.batch[r.i];
    var outcome := c.id < |s.added| && s.added[c.id];
    s.(threads := s.threads[t := Running(r.batch, r.i + 1, r.ok && outcome)],
       ran := if r.ok then s.ran + multiset{c} else s.ran)
  }

  /** The state after the critical section of Add. */
  function Extended(s: State, outcomes: seq<bool>): State
    requires s.threads != []
  {
    if outcomes == [] then s
    else s.(queue := s.queue + Fresh(|s.added|, |outcomes|), todo := s.todo + |outcomes|, added := s.added + outcomes,
            threads := s.threads[0 := Notifying(|outcomes| != 1)])
  }

  datatype Label =
    | Enter(t: nat)                 // lock at the top of the loop
    | Resume(t: nat)                // lock again after waiting
    | Exec(t: nat)                  // the next check of a batch
    | Spurious(t: nat)              // a wake-up without notification
    | Notify(t: nat)                // the notification after Add; wakes worker t if it wakes one
    | Add(outcomes: seq<bool>)      // the critical section of Add
    | Wait                          // the master calls Wait

  ghost predicate Enabled(s: State, l: Label) {
    match l
    case Enter(t) => t < |s.threads| &&
        (s.threads[t].Start? || (s.threads[t].Running? && s.threads[t].i == |s.threads[t].batch|))
    case Resume(t) => t < |s.threads| && s.threads[t].Woken?
    case Exec(t) => t < |s.threads| && s.threads[t].Running? && s.threads[t].i < |s.threads[t].batch|
    case Spurious(t) => t < |s.threads| && s.threads[t].Sleeping?
    case Notify(t) =>
      s.threads != [] && s.threads[0].Notifying? &&
      (s.threads[0].all || (0 < t < |s.threads| && s.threads[t].Sleeping?) || NoneAsleep(s.threads))
    case Add(_) => s.threads != [] && s.threads[0].Away?
    case Wait => s.threads != [] && s.threads[0].Away?
  }

  ghost predicate NoneAsleep(threads: seq<Pc>) {
    forall j :: 0 < j < |threads| ==> !threads[j].Sleeping?
  }

  function Fresh(from: nat, n: nat): (r: seq<Check>)
    ensures |r| == n
  {
    seq(n, k requires 0 <= k < n => Check(from + k))
  }

  ghost function Next(limit: nat, s: State, l: Label): State
    requires Enabled(s, l) && s.total >= 0 && s.idle >= 0 && (l.Resume? ==> s.idle >= 1)
  {
    match l
    case Enter(t) => Take(limit, Settle(s, t), t)
    case Resume(t) => Take(limit, s.(idle := s.idle - 1, threads := s.threads[t := Locked]), t)
    case Exec(t) => Executed(s, t)
    case Spurious(t) => s.(threads := s.threads[t := Woken])
    case Notify(t) =>
      var threads := s.threads[0 := Away];
      s.(threads := if s.threads[0].all then WakeAll(threads)
                    else if 0 < t < |s.threads| && s.threads[t].Sleeping? then threads[t := Woken] else threads)
    case Add(outcomes) => Extended(s, outcomes)
    case Wait => s.(threads := s.threads[0 := Start])
  }

  function Initial(workers: nat): State {
    State([], 0, 0, true, 0, [Away] + seq(workers, _ => Start), [], 0, multiset{}, multiset{}, [])
  }

  // ---------------------------------------------------------------- sums over the threads

  ghost function Gather(f: Pc -> multiset<Check>, threads: seq<Pc>): multiset<Check> {
    if threads == [] then multiset{} else Gather(f, threads[..|threads| - 1]) + f(threads[|threads| - 1])
  }

  ghost function Sum(f: Pc -> int, threads: seq<Pc>): int {
    if threads == [] then 0 else Sum(f, threads[..|threads| - 1]) + f(threads[|threads| - 1])
  }

  lemma {:induction false} GatherUpdate(f: Pc -> multiset<Check>, threads: seq<Pc>, t: nat, pc: Pc)
    requires t < |threads|
    ensures Gather(f, threads[t := pc]) + f(threads[t]) == Gather(f, threads) + f(pc)
  {
    var n := |threads| - 1;
    if t < n {
      GatherUpdate(f, threads[..n], t, pc);
      assert threads[t := pc][..n] == threads[..n][t := pc];
      calc {
        Gather(f, threads[t := pc]) + f(threads[t]);
        Gather(f, threads[..n][t := pc]) + f(threads[n]) + f(threads[t]);
        (Gather(f, threads[..n][t := pc]) + f(threads[..n][t])) + f(threads[n]);
        (Gather(f, threads[..n]) + f(pc)) + f(threads[n]);
        Gather(f, threads) + f(pc);
      }
    } else {
      assert threads[t := pc][..n] == threads[..n];
    }
  }

  lemma {:induction false} SumUpdate(f: Pc -> int, threads: seq<Pc>, t: nat, pc: Pc)
    requires t < |threads|
    ensures Sum(f, threads[t := pc]) + f(threads[t]) == Sum(f, threads) + f(pc)
  {
    var n := |threads| - 1;
    if t < n {
      SumUpdate(f, threads[..n], t, pc);
      assert threads[t := pc][..n] == threads[..n][t := pc];
    } else {
      assert threads[t := pc][..n] == threads[..n];
    }
  }

  lemma {:induction false} GatherSame(f: Pc -> multiset<Check>, a: seq<Pc>, b: seq<Pc>)
    requires |a| == |b| && forall j :: 0 <= j < |a| ==> f(a[j]) == f(b[j])
    ensures Gather(f, a) == Gather(f, b)
  {
    if a != [] { GatherSame(f, a[..|a| - 1], b[..|b| - 1]); }
  }

  /** Sums differ by at most one for each thread after the first. */
  lemma {:induction false} SumNear(f: Pc -> int, a: seq<Pc>, b: seq<Pc>, slack: int)
    requires |a| == |b| && slack >= 0 && a != [] && f(a[0]) == f(b[0])
    requires forall j :: 0 <= j < |a| ==> f(b[j]) <= f(a[j]) <= f(b[j]) + slack
    ensures Sum(f, b) <= Sum(f, a) <= Sum(f, b) + slack * (|a| - 1)
  {
    var n := |a| - 1;
    if n == 0 {
      assert a[..0] == [] && b[..0] == [];
    } else {
      SumNear(f, a[..n], b[..n], slack);
      assert slack * n == slack * (n - 1) + slack;
    }
  }

  lemma {:induction false} SumAtLeast(f: Pc -> int, threads: seq<Pc>, t: nat)
    requires t < |threads| && forall j :: 0 <= j < |threads| ==> f(threads[j]) >= 0
    ensures Sum(f, threads) >= f(threads[t])
  {
    var n := |threads| - 1;
    if t < n { SumAtLeast(f, threads[..n], t); } else { SumNatural(f, threads[..n]); }
  }

  lemma {:induction false} SumNatural(f: Pc -> int, threads: seq<Pc>)
    requires forall j :: 0 <= j < |threads| ==> f(threads[j]) >= 0
    ensures Sum(f, threads) >= 0
  {
    if threads != [] { SumNatural(f, threads[..|threads| - 1]); }
  }

  function Batch(pc: Pc): multiset<Check> {
    if pc.Running? then multiset(pc.batch) else multiset{}
  }

  function Prefix(pc: Pc): multiset<Check> {
    if pc.Running? && pc.i <= |pc.batch| then multiset(pc.batch[..pc.i]) else multiset{}
  }

  function IsIdle(pc: Pc): int {
    if pc.Sleeping? || pc.Woken? then 1 else 0
  }

  function IsMember(pc: Pc): int {
    if pc.Sleeping? || pc.Woken? || pc.Locked? || pc.Running? then 1 else 0
  }

  // ---------------------------------------------------------------- the invariant

  /** Every check from `from` up to `to`, once. */
  ghost function Issued(from: nat, to: nat): multiset<Check>
    requires from <= to
  {
    if from == to then multiset{} else Issued(from, to - 1) + multiset{Check(to - 1)}
  }

  lemma {:induction false} IssuedOnce(from: nat, to: nat, c: Check)
    requires from <= to
    ensures Issued(from, to)[c] == if from <= c.id < to then 1 else 0
  {
    if from < to { IssuedOnce(from, to - 1, c); }
  }

  lemma {:induction false} IssuedSplit(from: nat, mid: nat, to: nat)
    requires from <= mid <= to
    ensures Issued(from, to) == Issued(from, mid) + Issued(mid, to)
  {
    if mid < to { IssuedSplit(from, mid, to - 1); }
  }

  lemma {:induction false} IssuedFresh(from: nat, n: nat)
    ensures Issued(from, from + n) == multiset(Fresh(from, n))
  {
    if n > 0 {
      IssuedFresh(from, n - 1);
      assert Fresh(from, n) == Fresh(from, n - 1) + [Check(from + n - 1)];
    } else {
      assert Fresh(from, 0) == [];
    }
  }

  /** Threads are where they can be. */
  ghost predicate Shape(threads: seq<Pc>) {
    && threads != []
    && (forall j :: 0 < j < |threads| ==> !threads[j].Away? && !threads[j].Notifying?)
    && (forall j :: 0 <= j < |threads| && threads[j].Running? ==>
          threads[j].i <= |threads[j].batch| && threads[j].batch != [])
  }

  /** The counters are exact. */
  ghost predicate CountersOk(s: State) {
    && s.idle == Sum(IsIdle, s.threads)
    && s.total == Sum(IsMember, s.threads)
    && s.todo == |s.queue| + |Gather(Batch, s.threads)|
  }

  /** Every check of the round is queued, in flight or completed, exactly once; none was executed that is
      not in an executed part, completed, or of an earlier round. */
  ghost predicate LedgerOk(s: State) {
    && s.base <= |s.added|
    && multiset(s.queue) + Gather(Batch, s.threads) + s.done == Issued(s.base, |s.added|)
    && s.ran <= Issued(0, s.base) + s.done + Gather(Prefix, s.threads)
  }

  /** The check passed, and it has been executed. */
  ghost predicate Passed(s: State, c: Check) {
    c.id < |s.added| && s.added[c.id] && c in s.ran
  }

  /** Some check of the round fails. */
  ghost predicate SomeFails(s: State) {
    exists k :: s.base <= k < |s.added| && !s.added[k]
  }

  /** What a thread's own result means. */
  ghost predicate PcVerdict(s: State, pc: Pc) {
    pc.Running? ==>
      && pc.i <= |pc.batch|
      && (if pc.ok then forall k :: 0 <= k < pc.i ==> Passed(s, pc.batch[k]) else SomeFails(s))
  }

  /** The shared result and every thread's own mean what they should. */
  ghost predicate VerdictOk(s: State) {
    && (if s.allOk then forall c :: c in s.done ==> Passed(s, c) else SomeFails(s))
    && forall j :: 0 <= j < |s.threads| ==> PcVerdict(s, s.threads[j])
  }

  /** A sleeping master has work in flight and nothing queued; once Add has notified, queued work never
      meets a pool that is all asleep. */
  ghost predicate WakesOk(s: State) {
    && s.threads != []
    && (s.threads[0].Sleeping? ==> s.queue == [] && s.todo > 0)
    && (s.queue != [] && !s.threads[0].Notifying? && |s.threads| > 1 ==> SomeAwake(s.threads))
  }

  ghost predicate SomeAwake(threads: seq<Pc>) {
    exists j :: 0 < j < |threads| && !threads[j].Sleeping?
  }

  /** A completed Wait returned true exactly when every check of its round passes, and then all ran. */
  ghost predicate RoundOk(s: State, r: Round) {
    && r.from <= r.to <= |s.added|
    && (r.ok <==> forall k :: r.from <= k < r.to ==> s.added[k])
    && (r.ok ==> forall k :: r.from <= k < r.to ==> Check(k) in s.ran)
  }

  /** The rounds are consecutive and reach up to the current one. */
  ghost predicate RoundsOk(s: State) {
    && (forall k :: 0 <= k < |s.rounds| ==> RoundOk(s, s.rounds[k]))
    && Chained(s.rounds, s.base)
  }

  ghost predicate Chained(rounds: seq<Round>, end: nat) {
    var n := |rounds| - 1;
    if rounds == [] then end == 0 else rounds[n].to == end && Chained(rounds[..n], rounds[n].from)
  }

  ghost predicate Inv(s: State) {
    Shape(s.threads) && CountersOk(s) && LedgerOk(s) && VerdictOk(s) && WakesOk(s) && RoundsOk(s)
  }

  // ---------------------------------------------------------------- every step keeps it

  /** What moving one thread does to the sums. */
  lemma Move(threads: seq<Pc>, t: nat, pc: Pc)
    requires t < |threads|
    ensures Sum(IsIdle, threads[t := pc]) == Sum(IsIdle, threads) - IsIdle(threads[t]) + IsIdle(pc)
    ensures Sum(IsMember, threads[t := pc]) == Sum(IsMember, threads) - IsMember(threads[t]) + IsMember(pc)
    ensures Gather(Batch, threads[t := pc]) + Batch(threads[t]) == Gather(Batch, threads) + Batch(pc)
    ensures Gather(Prefix, threads[t := pc]) + Prefix(threads[t]) == Gather(Prefix, threads) + Prefix(pc)
    ensures Batch(threads[t]) == Batch(pc) ==> Gather(Batch, threads[t := pc]) == Gather(Batch, threads)
    ensures Prefix(threads[t]) == Prefix(pc) ==> Gather(Prefix, threads[t := pc]) == Gather(Prefix, threads)
  {
    SumUpdate(IsIdle, threads, t, pc);
    SumUpdate(IsMember, threads, t, pc);
    GatherUpdate(Batch, threads, t, pc);
    GatherUpdate(Prefix, threads, t, pc);
    Cancel(Gather(Batch, threads[t := pc]), Gather(Batch, threads), Batch(pc));
    Cancel(Gather(Prefix, threads[t := pc]), Gather(Prefix, threads), Prefix(pc));
  }

  lemma Cancel(a: multiset<Check>, b: multiset<Check>, c: multiset<Check>)
    ensures a + c == b + c ==> a == b
  {
    if a + c == b + c {
      assert a == (a + c) - c && b == (b + c) - c;
    }
  }

  /** A thread's batch is among those in flight. */
  lemma {:induction false} InFlight(threads: seq<Pc>, t: nat)
    requires t < |threads|
    ensures Batch(threads[t]) <= Gather(Batch, threads)
  {
    var n := |threads| - 1;
    if t < n { InFlight(threads[..n], t); }
  }

  lemma {:induction false} NothingInFlight(f: Pc -> multiset<Check>, threads: seq<Pc>)
    requires forall j :: 0 <= j < |threads| ==> f(threads[j]) == multiset{}
    ensures Gather(f, threads) == multiset{}
  {
    if threads != [] { NothingInFlight(f, threads[..|threads| - 1]); }
  }

  /** Counters are never negative, and a waiting thread is counted. */
  lemma CountersPositive(s: State, t: nat)
    requires CountersOk(s) && t < |s.threads|
    ensures s.idle >= IsIdle(s.threads[t]) && s.total >= IsMember(s.threads[t])
  {
    SumAtLeast(IsIdle, s.threads, t);
    SumAtLeast(IsMember, s.threads, t);
  }

  /** Verdicts stay right while outcomes are only added and checks only executed. */
  lemma SameVerdict(s: State, u: State)
    requires u.base == s.base && s.added <= u.added && s.ran <= u.ran
    ensures forall c :: Passed(s, c) ==> Passed(u, c)
    ensures SomeFails(s) ==> SomeFails(u)
    ensures forall pc :: PcVerdict(s, pc) ==> PcVerdict(u, pc)
  {
    if SomeFails(s) {
      var k :| s.base <= k < |s.added| && !s.added[k];
      assert !u.added[k];
    }
  }

  lemma StillAwake(threads: seq<Pc>, t: nat, pc: Pc)
    requires t < |threads| && !pc.Sleeping?
    ensures SomeAwake(threads) ==> SomeAwake(threads[t := pc])
    ensures t > 0 ==> SomeAwake(threads[t := pc])
  {
    if t > 0 {
      assert !threads[t := pc][t].Sleeping?;
    } else if SomeAwake(threads) {
      var j :| 0 < j < |threads| && !threads[j].Sleeping?;
      assert !threads[t := pc][j].Sleeping?;
    }
  }

  /** The state with one thread moved, the counters of waiting and registered threads following. */
  function Shift(s: State, t: nat, pc: Pc): State
    requires t < |s.threads|
  {
    s.(idle := s.idle - IsIdle(s.threads[t]) + IsIdle(pc), total := s.total - IsMember(s.threads[t]) + IsMember(pc),
       threads := s.threads[t := pc])
  }

  /** Moves that touch no batch: a thread sleeps only on an empty queue, the master only with work in
      flight, and it ends an Add only when a worker is awake. */
  lemma ShiftKeeps(s: State, t: nat, pc: Pc)
    requires Inv(s) && t < |s.threads| && !s.threads[t].Running? && !pc.Running? && !pc.Notifying?
    requires (t > 0 ==> !pc.Away?) && (pc.Sleeping? ==> s.queue == [] && (t > 0 || s.todo != 0))
    requires s.threads[t].Notifying? && |s.threads| > 1 ==> SomeAwake(s.threads)
    ensures Inv(Shift(s, t, pc))
  {
    hide Sum, Gather, Issued, RoundOk, SomeFails, Passed;
    var u := Shift(s, t, pc);
    Move(s.threads, t, pc);
    SameVerdict(s, u);
    forall j | 0 <= j < |u.threads| ensures PcVerdict(u, u.threads[j]) { assert PcVerdict(s, s.threads[j]); }
    if !pc.Sleeping? { StillAwake(s.threads, t, pc); }
    SameRounds(s, u);
  }

  /** Rounds stay correct while outcomes are only added and checks only executed. */
  lemma SameRounds(s: State, u: State)
    requires RoundsOk(s) && u.rounds == s.rounds && u.base == s.base && s.added <= u.added && s.ran <= u.ran
    ensures RoundsOk(u)
  {
    forall k | 0 <= k < |u.rounds| ensures RoundOk(u, u.rounds[k]) {
      var r := s.rounds[k];
      assert RoundOk(s, r);
      assert forall j :: r.from <= j < r.to ==> u.added[j] == s.added[j];
    }
  }

  lemma BatchKeeps(s: State, t: nat, n: nat)
    requires Inv(s) && t < |s.threads| && s.threads[t].Locked? && n < |s.queue|
    ensures Inv(s.(queue := s.queue[..n], threads := s.threads[t := Running(s.queue[n..], 0, s.allOk)]))
  {
    hide Sum, Gather, Issued, RoundOk, SomeFails, Passed;
    var u := s.(queue := s.queue[..n], threads := s.threads[t := Running(s.queue[n..], 0, s.allOk)]);
    Move(s.threads, t, Running(s.queue[n..], 0, s.allOk));
    assert s.queue == s.queue[..n] + s.queue[n..];
    assert multiset(s.queue) == multiset(s.queue[..n]) + multiset(s.queue[n..]);
    assert Gather(Batch, u.threads) == Gather(Batch, s.threads) + multiset(s.queue[n..]);
    assert s.queue[n..][..0] == [];
    SameVerdict(s, u);
    forall j | 0 <= j < |u.threads| ensures PcVerdict(u, u.threads[j]) { assert PcVerdict(s, s.threads[j]); }
    StillAwake(s.threads, t, u.threads[t]);
    SameRounds(s, u);
  }

  /** With nothing left to do, all checks of the round are done and no thread has a batch. */
  lemma AllDone(s: State)
    requires Shape(s.threads) && CountersOk(s) && LedgerOk(s) && s.todo == 0
    ensures s.queue == [] && s.done == Issued(s.base, |s.added|)
    ensures Gather(Batch, s.threads) == multiset{} && Gather(Prefix, s.threads) == multiset{}
    ensures forall j :: 0 <= j < |s.threads| ==> !s.threads[j].Running?
  {
    assert Gather(Batch, s.threads) == multiset{};
    forall j | 0 <= j < |s.threads| ensures !s.threads[j].Running? {
      InFlight(s.threads, j);
      assert |Batch(s.threads[j])| == 0;
    }
    NothingInFlight(Prefix, s.threads);
  }

  lemma ReturnKeeps(s: State)
    requires Inv(s) && s.threads[0].Locked? && s.todo == 0
    ensures Inv(s.(total := s.total - 1, allOk := true, threads := s.threads[0 := Away], base := |s.added|,
                   done := multiset{}, rounds := s.rounds + [Round(s.base, |s.added|, s.allOk)]))
  {
    hide Sum, Gather, Issued, RoundOk;
    var u := s.(total := s.total - 1, allOk := true, threads := s.threads[0 := Away], base := |s.added|,
                done := multiset{}, rounds := s.rounds + [Round(s.base, |s.added|, s.allOk)]);
    AllDone(s);
    Move(s.threads, 0, Away);
    EmptyRound(|s.added|);
    IssuedSplit(0, s.base, |s.added|);
    RoundVerdict(s);
    RoundAdded(s, u);
  }

  lemma EmptyRound(n: nat)
    ensures Issued(n, n) == multiset{}
  {
  }

  /** The shared result is the verdict of the round once everything is done. */
  lemma RoundVerdict(s: State)
    requires VerdictOk(s) && s.base <= |s.added| && s.done == Issued(s.base, |s.added|)
    ensures RoundOk(s, Round(s.base, |s.added|, s.allOk))
  {
    forall k | s.base <= k < |s.added| ensures Check(k) in s.done {
      IssuedOnce(s.base, |s.added|, Check(k));
    }
    if s.allOk {
      forall k | s.base <= k < |s.added| ensures s.added[k] && Check(k) in s.ran {
        assert Passed(s, Check(k));
      }
    }
  }

  lemma RoundAdded(s: State, u: State)
    requires RoundsOk(s) && u.added == s.added && u.ran == s.ran && u.base == |s.added| && s.base <= |s.added|
    requires RoundOk(s, Round(s.base, |s.added|, s.allOk))
    requires u.rounds == s.rounds + [Round(s.base, |s.added|, s.allOk)]
    ensures RoundsOk(u)
  {
    forall k | 0 <= k < |u.rounds| ensures RoundOk(u, u.rounds[k]) {
      assert RoundOk(s, u.rounds[k]);
    }
    assert u.rounds[..|s.rounds|] == s.rounds;
  }

  /** Whatever a thread finds inside the lock, the invariant survives. */
  lemma TakeKeeps(limit: nat, s: State, t: nat)
    requires Inv(s) && t < |s.threads| && s.threads[t].Locked?
    ensures s.total >= 0 && s.idle >= 0 && Inv(Take(limit, s, t))
  {
    hide LedgerOk, VerdictOk, WakesOk, RoundsOk;
    CountersPositive(s, t);
    if s.queue == [] {
      if t == 0 && s.todo == 0 { ReturnKeeps(s); } else { ShiftKeeps(s, t, Sleeping); }
    } else {
      BatchKeeps(s, t, |s.queue| - BatchSize(limit, |s.queue|, s.total, s.idle));
    }
  }

  /** Waking the master leaves every sum as it is. */
  lemma WakeMasterSums(threads: seq<Pc>)
    requires threads != []
    ensures var r := WakeMaster(threads);
            && Sum(IsIdle, r) == Sum(IsIdle, threads) && Sum(IsMember, r) == Sum(IsMember, threads)
            && Gather(Batch, r) == Gather(Batch, threads) && Gather(Prefix, r) == Gather(Prefix, threads)
  {
    Move(threads, 0, Woken);
  }

  /** A finished batch leaves the ones in flight. */
  lemma SettleSums(s: State, t: nat)
    requires Enabled(s, Enter(t)) && s.threads[t].Running?
    ensures var u := Settle(s, t).threads;
            var batch := multiset(s.threads[t].batch);
            && Sum(IsIdle, u) == Sum(IsIdle, s.threads) && Sum(IsMember, u) == Sum(IsMember, s.threads)
            && Gather(Batch, u) + batch == Gather(Batch, s.threads)
            && Gather(Prefix, u) + batch == Gather(Prefix, s.threads)
  {
    hide Sum, Gather;
    var pc := s.threads[t];
    assert pc.batch[..pc.i] == pc.batch;
    Move(s.threads, t, Locked);
    WakeMasterSums(s.threads[t := Locked]);
  }

  lemma SettleLedger(s: State, t: nat)
    requires CountersOk(s) && LedgerOk(s) && Enabled(s, Enter(t)) && s.threads[t].Running?
    ensures CountersOk(Settle(s, t)) && LedgerOk(Settle(s, t))
  {
    hide Sum, Gather, Issued;
    var u := Settle(s, t);
    var batch := multiset(s.threads[t].batch);
    var g := Gather(Batch, u.threads);
    var p := Gather(Prefix, u.threads);
    assert g + batch == Gather(Batch, s.threads) && p + batch == Gather(Prefix, s.threads) by { SettleSums(s, t); }
    assert Sum(IsIdle, u.threads) == s.idle && Sum(IsMember, u.threads) == s.total by { SettleSums(s, t); }
    assert |g + batch| == |g| + |batch|;
    calc {
      multiset(u.queue) + g + u.done;
      multiset(s.queue) + g + (s.done + batch);
      multiset(s.queue) + (g + batch) + s.done;
      Issued(s.base, |s.added|);
    }
    calc {
      Issued(0, s.base) + u.done + p;
      Issued(0, s.base) + s.done + (p + batch);
    }
  }

  /** A finished batch is credited, its result folded in, and a sleeping master woken by the last one. */
  lemma SettleKeeps(s: State, t: nat)
    requires Inv(s) && Enabled(s, Enter(t)) && s.threads[t].Running?
    ensures Inv(Settle(s, t)) && Settle(s, t).threads[t].Locked?
    ensures t != 0 && s.threads[0].Sleeping? ==> (Settle(s, t).threads[0] != Sleeping <==> Settle(s, t).todo == 0)
  {
    hide Sum, Gather, LedgerOk, VerdictOk, RoundOk;
    SettleLedger(s, t);
    SettleVerdict(s, t);
    SettleAwake(s.threads, t);
    SameRounds(s, Settle(s, t));
  }

  lemma SettleVerdict(s: State, t: nat)
    requires VerdictOk(s) && Enabled(s, Enter(t)) && s.threads[t].Running?
    ensures VerdictOk(Settle(s, t))
  {
    hide SomeFails, Passed;
    var u := Settle(s, t);
    SameVerdict(s, u);
    forall j | 0 <= j < |u.threads| ensures PcVerdict(u, u.threads[j]) { assert PcVerdict(s, s.threads[j]); }
    assert PcVerdict(s, s.threads[t]);
    if u.allOk {
      forall c | c in u.done ensures Passed(u, c) {
        assert c in s.done || c in s.threads[t].batch;
      }
    }
  }

  lemma SettleAwake(threads: seq<Pc>, t: nat)
    requires t < |threads|
    ensures SomeAwake(threads) ==> SomeAwake(threads[t := Locked]) && SomeAwake(WakeMaster(threads[t := Locked]))
    ensures t > 0 ==> SomeAwake(threads[t := Locked]) && SomeAwake(WakeMaster(threads[t := Locked]))
  {
    StillAwake(threads, t, Locked);
    StillAwake(threads[t := Locked], 0, Woken);
  }

  lemma ExecLedger(s: State, t: nat)
    requires CountersOk(s) && LedgerOk(s) && Enabled(s, Exec(t))
    ensures CountersOk(Executed(s, t)) && LedgerOk(Executed(s, t))
  {
    hide Sum, Gather, Issued;
    var u := Executed(s, t);
    var pc := s.threads[t];
    var c := pc.batch[pc.i];
    Move(s.threads, t, u.threads[t]);
    assert pc.batch[..pc.i + 1] == pc.batch[..pc.i] + [c];
    assert Prefix(u.threads[t]) == Prefix(pc) + multiset{c};
    PrefixGrows(Gather(Prefix, u.threads), Gather(Prefix, s.threads), Prefix(pc), multiset{c});
  }

  lemma ExecKeeps(s: State, t: nat)
    requires Inv(s) && Enabled(s, Exec(t))
    ensures Inv(Executed(s, t))
  {
    hide CountersOk, LedgerOk, RoundOk, SomeFails, Passed;
    var u := Executed(s, t);
    ExecLedger(s, t);
    SameVerdict(s, u);
    IssuedHere(s, t);
    assert PcVerdict(s, s.threads[t]);
    ExecVerdict(s, u, s.threads[t]);
    forall j | 0 <= j < |u.threads| ensures PcVerdict(u, u.threads[j]) { assert PcVerdict(s, s.threads[j]); }
    StillAwake(s.threads, t, u.threads[t]);
    SameRounds(s, u);
  }

  lemma PrefixGrows(after: multiset<Check>, before: multiset<Check>, p: multiset<Check>, c: multiset<Check>)
    requires after + p == before + (p + c)
    ensures after == before + c
  {
    Cancel(after, before + c, p);
    assert before + (p + c) == (before + c) + p;
  }

  /** A check in a batch belongs to this round. */
  lemma IssuedHere(s: State, t: nat)
    requires LedgerOk(s) && t < |s.threads| && s.threads[t].Running? && s.threads[t].i < |s.threads[t].batch|
    ensures s.base <= s.threads[t].batch[s.threads[t].i].id < |s.added|
  {
    hide Gather, Issued;
    var c := s.threads[t].batch[s.threads[t].i];
    InFlight(s.threads, t);
    assert c in s.threads[t].batch;
    assert c in Issued(s.base, |s.added|);
    IssuedOnce(s.base, |s.added|, c);
  }

  lemma ExecVerdict(s: State, u: State, pc: Pc)
    requires pc.Running? && pc.i < |pc.batch| && PcVerdict(s, pc)
    requires s.base <= pc.batch[pc.i].id < |s.added| && u.added == s.added && u.base == s.base
    requires u.ran == if pc.ok then s.ran + multiset{pc.batch[pc.i]} else s.ran
    ensures PcVerdict(u, Running(pc.batch, pc.i + 1, pc.ok && s.added[pc.batch[pc.i].id]))
  {
    SameVerdict(s, u);
    if pc.ok && !s.added[pc.batch[pc.i].id] {
      assert SomeFails(u);
    }
  }

  lemma WakeAllSums(threads: seq<Pc>)
    requires threads != []
    ensures var r := WakeAll(threads);
            && Sum(IsIdle, r) == Sum(IsIdle, threads) && Sum(IsMember, r) == Sum(IsMember, threads)
            && Gather(Batch, r) == Gather(Batch, threads) && Gather(Prefix, r) == Gather(Prefix, threads)
  {
    hide Sum, Gather;
    var r := WakeAll(threads);
    GatherSame(Batch, r, threads);
    GatherSame(Prefix, r, threads);
    SumNear(IsIdle, r, threads, 0);
    SumNear(IsMember, r, threads, 0);
  }

  lemma WakeAllKeeps(s: State)
    requires Inv(s)
    ensures Inv(s.(threads := WakeAll(s.threads))) && NoneAsleep(WakeAll(s.threads))
  {
    hide Sum, Gather, Issued, RoundOk, SomeFails, Passed;
    var u := s.(threads := WakeAll(s.threads));
    WakeAllSums(s.threads);
    SameVerdict(s, u);
    forall j | 0 <= j < |u.threads| ensures PcVerdict(u, u.threads[j]) { assert PcVerdict(s, s.threads[j]); }
    if |u.threads| > 1 { assert !u.threads[1].Sleeping?; }
    SameRounds(s, u);
  }

  /** The notification after Add: the pool is not all asleep when the master goes on. */
  lemma NotifyKeeps(s: State, t: nat, limit: nat)
    requires Inv(s) && Enabled(s, Notify(t)) && s.total >= 0 && s.idle >= 0
    ensures Inv(Next(limit, s, Notify(t)))
  {
    hide CountersOk, LedgerOk, VerdictOk, WakesOk, RoundsOk;
    if s.threads[0].all {
      WakeAllKeeps(s);
      var u := s.(threads := WakeAll(s.threads));
      if |u.threads| > 1 { assert !u.threads[1].Sleeping?; }
      ShiftKeeps(u, 0, Away);
      assert WakeAll(s.threads[0 := Away]) == WakeAll(s.threads)[0 := Away];
    } else if 0 < t < |s.threads| && s.threads[t].Sleeping? {
      ShiftKeeps(s, t, Woken);
      StillAwake(s.threads, t, Woken);
      ShiftKeeps(Shift(s, t, Woken), 0, Away);
      assert s.threads[0 := Away][t := Woken] == s.threads[t := Woken][0 := Away];
    } else {
      if |s.threads| > 1 { assert !s.threads[1].Sleeping?; }
      ShiftKeeps(s, 0, Away);
    }
  }

  lemma AddLedger(s: State, outcomes: seq<bool>)
    requires CountersOk(s) && LedgerOk(s) && Enabled(s, Add(outcomes))
    ensures CountersOk(Extended(s, outcomes)) && LedgerOk(Extended(s, outcomes))
  {
    hide Sum, Gather, Issued, Fresh;
    var n := |s.added|;
    var f := Fresh(n, |outcomes|);
    IssuedSplit(s.base, n, n + |outcomes|);
    IssuedFresh(n, |outcomes|);
    Move(s.threads, 0, Notifying(|outcomes| != 1));
    assert multiset(s.queue + f) == multiset(s.queue) + multiset(f);
    Reorder(multiset(s.queue), multiset(f), Gather(Batch, s.threads), s.done);
  }

  lemma Reorder(q: multiset<Check>, f: multiset<Check>, g: multiset<Check>, d: multiset<Check>)
    ensures (q + f) + g + d == (q + g + d) + f
  {
  }

  lemma AddKeeps(s: State, outcomes: seq<bool>)
    requires Inv(s) && Enabled(s, Add(outcomes))
    ensures Inv(Extended(s, outcomes))
  {
    hide CountersOk, LedgerOk, RoundOk, SomeFails, Passed, Fresh;
    var u := Extended(s, outcomes);
    AddLedger(s, outcomes);
    SameVerdict(s, u);
    forall j | 0 <= j < |u.threads| ensures PcVerdict(u, u.threads[j]) { assert PcVerdict(s, s.threads[j]); }
    SameRounds(s, u);
  }

  lemma LockKeeps(limit: nat, s: State, l: Label)
    requires Inv(s) && Enabled(s, l) && (l.Enter? || l.Resume?)
    ensures s.total >= 0 && s.idle >= 0 && (l.Resume? ==> s.idle >= 1) && Inv(Next(limit, s, l))
  {
    hide Inv, Take, Sum;
    assert CountersOk(s) by { Parts(s); }
    CountersPositive(s, l.t);
    if l.Resume? {
      ShiftKeeps(s, l.t, Locked);
      TakeKeeps(limit, Shift(s, l.t, Locked), l.t);
    } else {
      if s.threads[l.t].Running? { SettleKeeps(s, l.t); } else { ShiftKeeps(s, l.t, Locked); }
      TakeKeeps(limit, Settle(s, l.t), l.t);
    }
  }

  lemma Parts(s: State)
    requires Inv(s)
    ensures CountersOk(s) && s.threads != []
  {
  }

  /** Every step of every thread keeps the invariant. */
  lemma StepKeeps(limit: nat, s: State, l: Label)
    requires Inv(s) && Enabled(s, l)
    ensures s.total >= 0 && s.idle >= 0 && (l.Resume? ==> s.idle >= 1) && Inv(Next(limit, s, l))
  {
    hide Inv, Take, Settle, Sum;
    Parts(s);
    CountersPositive(s, 0);
    match l {
      case Enter(t) => LockKeeps(limit, s, l);
      case Resume(t) => LockKeeps(limit, s, l);
      case Exec(t) => ExecKeeps(s, t);
      case Spurious(t) => ShiftKeeps(s, t, Woken);
      case Notify(t) => NotifyKeeps(s, t, limit);
      case Add(outcomes) => AddKeeps(s, outcomes);
      case Wait => ShiftKeeps(s, 0, Start);
    }
  }
}
