/** What the master learns from the check queue, in terms of what it asked: each Wait answers whether all checks handed
    to Add since the Wait before pass. */
module CheckQueueAnswers {
  import opened CheckQueue
  import opened CheckQueueRuns

  /** What the master asked: the outcomes of the checks added before each Wait and after the one before, and of those
      added since the last one. */
  datatype Asked = Asked(waits: seq<seq<bool>>, open: seq<bool>)

  function AskedBy(ls: seq<Label>): Asked {
    if ls == [] then Asked([], []) else Asking(AskedBy(ls[..|ls| - 1]), ls[|ls| - 1])
  }

  function Asking(a: Asked, l: Label): Asked {
    match l
    case Add(outcomes) => a.(open := a.open + outcomes)
    case Wait => Asked(a.waits + [a.open], [])
    case _ => a
  }

  function Joined(waits: seq<seq<bool>>): seq<bool> {
    if waits == [] then [] else Joined(waits[..|waits| - 1]) + waits[|waits| - 1]
  }

  /** The master is between the call of Wait and its return. */
  predicate InWait(s: State) {
    s.threads != [] && !s.threads[0].Away? && !s.threads[0].Notifying?
  }

  predicate IsRound(r: Round, waits: seq<seq<bool>>, k: nat)
    requires k < |waits|
  {
    r.from == |Joined(waits[..k])| && r.to == |Joined(waits[..k + 1])|
  }

  /** The books of the queue agree with what was asked. */
  ghost predicate Tracks(s: State, a: Asked) {
    && s.threads != [] && s.added == Joined(a.waits) + a.open
    && |a.waits| == |s.rounds| + (if InWait(s) then 1 else 0) && (InWait(s) ==> a.open == [])
    && s.base == |Joined(a.waits[..|s.rounds|])|
    && forall k :: 0 <= k < |s.rounds| ==> IsRound(s.rounds[k], a.waits, k)
  }

  // ---------------------------------------------------------------- steps

  /** Nothing that concerns the answers changes. */
  ghost predicate SameAnswers(s: State, u: State) {
    && s.threads != [] && u.threads != [] && u.added == s.added && u.rounds == s.rounds && u.base == s.base
    && (InWait(u) <==> InWait(s))
  }

  lemma SameTracks(s: State, u: State, a: Asked)
    requires Tracks(s, a) && SameAnswers(s, u)
    ensures Tracks(u, a)
  {
  }

  lemma SettleSame(s: State, t: nat)
    requires Enabled(s, Enter(t)) && s.threads != []
    ensures SameAnswers(s, Settle(s, t)) && Settle(s, t).threads[t].Locked?
  {
  }

  /** Taking a batch or going to sleep changes no answer; returning from Wait gives the one that is due. */
  lemma TakeTracks(limit: nat, s: State, t: nat, a: Asked)
    requires t < |s.threads| && s.total >= 0 && s.idle >= 0 && s.threads[t].Locked? && Tracks(s, a)
    ensures Tracks(Take(limit, s, t), a)
  {
    var u := Take(limit, s, t);
    if s.queue == [] && t == 0 && s.todo == 0 {
      assert a.waits[..|u.rounds|] == a.waits && Joined(a.waits) + a.open == Joined(a.waits);
      forall k | 0 <= k < |u.rounds| ensures IsRound(u.rounds[k], a.waits, k) {
        if k < |s.rounds| { assert IsRound(s.rounds[k], a.waits, k); }
      }
    } else {
      assert SameAnswers(s, u);
      SameTracks(s, u, a);
    }
  }

  lemma AddTracks(s: State, outcomes: seq<bool>, a: Asked)
    requires Enabled(s, Add(outcomes)) && Tracks(s, a)
    ensures Tracks(Extended(s, outcomes), Asking(a, Add(outcomes)))
  {
    assert Joined(a.waits) + (a.open + outcomes) == Joined(a.waits) + a.open + outcomes;
    if outcomes == [] { assert a.open + outcomes == a.open; }
  }

  lemma WaitTracks(s: State, a: Asked)
    requires Enabled(s, Wait) && Tracks(s, a)
    ensures Tracks(s.(threads := s.threads[0 := Start]), Asking(a, Wait))
  {
    var b := Asking(a, Wait);
    assert |s.rounds| == |a.waits| && a.waits[..|s.rounds|] == a.waits;
    assert b.waits[..|a.waits|] == a.waits && Joined(b.waits) + [] == Joined(a.waits) + a.open;
    forall k | 0 <= k < |s.rounds| ensures IsRound(s.rounds[k], b.waits, k) {
      assert IsRound(s.rounds[k], a.waits, k);
      assert b.waits[..k] == a.waits[..k] && b.waits[..k + 1] == a.waits[..k + 1];
    }
  }

  lemma StepTracks(limit: nat, s: State, l: Label, a: Asked)
    requires CanStep(s, l) && Tracks(s, a)
    ensures Tracks(Next(limit, s, l), Asking(a, l))
  {
    hide Tracks, Take, Settle, Extended, Fresh;
    assert s.threads != [] by { TracksThreads(s, a); }
    match l
    case Enter(t) =>
      SettleSame(s, t);
      SettleCounts(s, t);
      SameTracks(s, Settle(s, t), a);
      TakeTracks(limit, Settle(s, t), t, a);
    case Resume(t) =>
      var u := s.(idle := s.idle - 1, threads := s.threads[t := Locked]);
      SameTracks(s, u, a);
      TakeTracks(limit, u, t, a);
    case Add(outcomes) => AddTracks(s, outcomes, a);
    case Wait => WaitTracks(s, a);
    case _ => SameTracks(s, Next(limit, s, l), a);
  }

  lemma TracksThreads(s: State, a: Asked)
    requires Tracks(s, a)
    ensures s.threads != []
  {
  }

  lemma SettleCounts(s: State, t: nat)
    requires Enabled(s, Enter(t)) && s.total >= 0 && s.idle >= 0
    ensures Settle(s, t).total >= 0 && Settle(s, t).idle >= 0 && t < |Settle(s, t).threads|
  {
  }

  // ---------------------------------------------------------------- runs

  lemma RunLast(limit: nat, s: State, ls: seq<Label>)
    requires IsRun(limit, s, ls) && ls != []
    ensures var n := |ls| - 1;
            && IsRun(limit, s, ls[..n]) && CanStep(After(limit, s, ls[..n]), ls[n])
            && After(limit, s, ls) == Next(limit, After(limit, s, ls[..n]), ls[n])
    decreases ls
  {
    hide Next, Enabled;
    var n := |ls| - 1;
    if n > 0 {
      RunLast(limit, Next(limit, s, ls[0]), ls[1..]);
      assert ls[1..][..n - 1] == ls[..n][1..] && ls[1..][n - 1] == ls[n];
    } else {
      assert ls[..0] == [] && ls[1..] == [];
    }
  }

  lemma {:induction false} RunTracks(limit: nat, workers: nat, ls: seq<Label>)
    requires IsRun(limit, Initial(workers), ls)
    ensures Tracks(After(limit, Initial(workers), ls), AskedBy(ls))
  {
    if ls != [] {
      hide Tracks, Next, CanStep, Asking;
      var n := |ls| - 1;
      RunLast(limit, Initial(workers), ls);
      RunTracks(limit, workers, ls[..n]);
      StepTracks(limit, After(limit, Initial(workers), ls[..n]), ls[n], AskedBy(ls[..n]));
    }
  }

  lemma {:induction false} JoinedAt(waits: seq<seq<bool>>, k: nat)
    requires k < |waits|
    ensures |Joined(waits[..k])| + |waits[k]| == |Joined(waits[..k + 1])| <= |Joined(waits)|
    ensures Joined(waits)[|Joined(waits[..k])|..|Joined(waits[..k + 1])|] == waits[k]
  {
    var n := |waits| - 1;
    if k < n {
      JoinedAt(waits[..n], k);
      assert waits[..n][..k] == waits[..k] && waits[..n][..k + 1] == waits[..k + 1];
    } else {
      assert waits[..k + 1] == waits && waits[..k + 1][..k] == waits[..k];
    }
  }

  /** In every interleaving, the answers given so far are those to the first calls of Wait, one for each but the one
      that is going on, and each says whether all checks added since the call before pass. */
  lemma EveryAnswer(limit: nat, workers: nat, ls: seq<Label>, k: nat)
    requires IsRun(limit, Initial(workers), ls)
    ensures var s, waits := After(limit, Initial(workers), ls), AskedBy(ls).waits;
            && |waits| == |s.rounds| + (if InWait(s) then 1 else 0)
            && (k < |s.rounds| ==> (s.rounds[k].ok <==> forall i :: 0 <= i < |waits[k]| ==> waits[k][i]))
  {
    hide Joined, After, AskedBy;
    var s, a := After(limit, Initial(workers), ls), AskedBy(ls);
    RunTracks(limit, workers, ls);
    if k < |s.rounds| {
      EveryRun(limit, workers, ls);
      JoinedAt(a.waits, k);
      assert RoundOk(s, s.rounds[k]) && IsRound(s.rounds[k], a.waits, k);
      RoundSays(s, s.rounds[k], Joined(a.waits), a.open, a.waits[k]);
    }
  }

  lemma RoundSays(s: State, r: Round, joined: seq<bool>, open: seq<bool>, seg: seq<bool>)
    requires RoundOk(s, r) && s.added == joined + open && r.to <= |joined| && joined[r.from..r.to] == seg
    ensures r.ok <==> forall i :: 0 <= i < |seg| ==> seg[i]
  {
    assert forall i :: 0 <= i < |seg| ==> seg[i] == s.added[r.from + i];
    if forall i :: 0 <= i < |seg| ==> seg[i] {
      forall k | r.from <= k < r.to ensures s.added[k] { assert seg[k - r.from] == s.added[k]; }
    }
  }
}
