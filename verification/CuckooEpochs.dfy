/** How the epochs of the cuckoo cache bound what it keeps: old elements become erasable, and the kept slots never fill
    the table. */
module CuckooEpochs {
  import opened Cuckoo
  import opened Options

  // ---------------------------------------------------------------- when an epoch turns

  /** The next check of the epochs scans the table. */
  predicate Scans(s: State) {
    s.counter == 0
  }

  /** The number of kept slots of the current epoch, or of the old one. */
  function KeptOf(collect: seq<bool>, epoch: seq<bool>, recent: bool): nat
    requires |collect| == |epoch|
  {
    if collect == [] then 0
    else
      var n := |collect| - 1;
      KeptOf(collect[..n], epoch[..n], recent) + if !collect[n] && epoch[n] == recent then 1 else 0
  }

  /** The next check of the epochs starts a new one: it scans, and the current epoch is full. */
  predicate Turns(s: State)
    requires |s.collect| == |s.epoch|
  {
    Scans(s) && KeptOf(s.collect, s.epoch, true) >= s.epochSize
  }

  lemma {:induction false} RecentIs(collect: seq<bool>, epoch: seq<bool>)
    requires |collect| == |epoch|
    ensures Recent(collect, epoch) == KeptOf(collect, epoch, true)
  {
    if collect != [] { RecentIs(collect[..|collect| - 1], epoch[..|epoch| - 1]); }
  }

  /** So many insertions until the next scan are due: at least one and a sixteenth of an epoch, and enough that the
      current epoch could fill up. */
  predicate IsDue(s: State, n: nat)
    requires |s.collect| == |s.epoch|
  {
    n >= 1 && n >= s.epochSize / 16 && KeptOf(s.collect, s.epoch, true) + n >= s.epochSize
  }

  /** What a check does: a new epoch keeps exactly what was recent and calls none of it recent, any other check changes
      no flag. After a scan the next one is after an epoch, or after the least number of insertions that is due. */
  lemma CheckAges(s: State)
    requires |s.collect| == |s.epoch|
    ensures var t := EpochChecked(s);
            && t == s.(collect := t.collect, epoch := t.epoch, counter := t.counter)
            && |t.collect| == |t.epoch| == |s.epoch|
            && (forall i :: 0 <= i < |s.epoch| ==>
                  if Turns(s) then !t.epoch[i] && (t.collect[i] <==> s.collect[i] || !s.epoch[i])
                  else t.epoch[i] == s.epoch[i] && t.collect[i] == s.collect[i])
            && (!Scans(s) ==> t.counter == s.counter - 1)
            && (Turns(s) ==> t.counter == s.epochSize)
            && (Scans(s) && !Turns(s) ==> IsDue(s, t.counter) && forall n: nat :: IsDue(s, n) ==> n >= t.counter)
  {
    RecentIs(s.collect, s.epoch);
  }

  /** The size of an epoch, in arithmetic of 32 bits. */
  function EpochSize(size: nat): nat {
    Max(1, 45 * size % 0x1_0000_0000 / 100)
  }

  /** An epoch is 45 percent of the table, as documented, exactly if 45 times the size fits 32 bits, and never more. */
  lemma EpochShare(size: nat)
    requires 3 <= size < 0x1_0000_0000
    ensures EpochSize(size) == 45 * size / 100 <==> 45 * size < 0x1_0000_0000
    ensures EpochSize(size) <= 45 * size / 100
  {
  }

  /** A table of some three gigabytes has epochs of one element. */
  lemma EpochWraps()
    ensures EpochSize(95443718) == 1 && 45 * 95443718 / 100 == 42949673
  {
  }

  // ---------------------------------------------------------------- counting kept slots

  lemma {:induction false} KeptUpdate(collect: seq<bool>, epoch: seq<bool>, i: nat, c: bool, e: bool, age: bool)
    requires i < |collect| == |epoch|
    ensures KeptOf(collect[i := c], epoch[i := e], age) ==
            KeptOf(collect, epoch, age) + (if !c && e == age then 1 else 0)
                                        - (if !collect[i] && epoch[i] == age then 1 else 0)
  {
    var n := |collect| - 1;
    if i < n {
      KeptUpdate(collect[..n], epoch[..n], i, c, e, age);
      assert collect[i := c][..n] == collect[..n][i := c] && epoch[i := e][..n] == epoch[..n][i := e];
    } else {
      assert collect[i := c][..n] == collect[..n] && epoch[i := e][..n] == epoch[..n];
    }
  }

  function CountOf(s: State, age: bool): nat
    requires |s.collect| == |s.epoch|
  {
    KeptOf(s.collect, s.epoch, age)
  }

  lemma {:induction false} DisplaceCounts(h: Hash, s: State, e: Elem, last: int, recent: bool, depth: nat, age: bool)
    requires Shape(h, s)
    ensures var t := Displace(h, s, e, last, recent, depth).0;
            Shape(h, t) && CountOf(t, age) <= CountOf(s, age) + if recent == age then 1 else 0
    decreases depth
  {
    hide Displace, KeptOf;
    Round(h, s, e, last, recent, depth);
    if depth > 0 {
      match FirstFree(h(e), s.collect) {
        case Some(loc) => KeptUpdate(s.collect, s.epoch, loc, false, recent, age);
        case None =>
          var loc := NextLoc(h(e), last);
          KeptUpdate(s.collect, s.epoch, loc, false, recent, age);
          assert s.collect[loc := false] == s.collect;
          DisplaceCounts(h, Swapped(s, loc, e, recent), s.table[loc], loc, s.epoch[loc], depth - 1, age);
      }
    }
  }

  lemma {:induction false} TurnCounts(collect: seq<bool>, epoch: seq<bool>, c: seq<bool>, e: seq<bool>)
    requires |collect| == |epoch| == |c| == |e|
    requires forall i :: 0 <= i < |e| ==> !e[i] && (c[i] <==> collect[i] || !epoch[i])
    ensures KeptOf(c, e, true) == 0 && KeptOf(c, e, false) == KeptOf(collect, epoch, true)
  {
    if collect != [] {
      var n := |collect| - 1;
      TurnCounts(collect[..n], epoch[..n], c[..n], e[..n]);
    }
  }

  // ---------------------------------------------------------------- the bound

  /** An epoch and the least interval between scans. */
  function Most(epochSize: nat): nat {
    epochSize + Max(1, epochSize / 16)
  }

  /** The current epoch cannot grow beyond the bound before the next scan, and the old one is within it. */
  ghost predicate Bounded(s: State) {
    && |s.collect| == |s.epoch|
    && CountOf(s, true) + s.counter <= Most(s.epochSize) && CountOf(s, false) <= Most(s.epochSize)
  }

  lemma CheckBounds(s: State)
    requires Bounded(s)
    ensures var t := EpochChecked(s);
            && |t.collect| == |t.epoch| && t.epochSize == s.epochSize
            && CountOf(t, true) + t.counter + 1 <= Most(s.epochSize) && CountOf(t, false) <= Most(s.epochSize)
  {
    hide KeptOf, EpochChecked;
    var t := EpochChecked(s);
    CheckAges(s);
    if Turns(s) {
      TurnCounts(s.collect, s.epoch, t.collect, t.epoch);
    } else {
      assert t.collect == s.collect && t.epoch == s.epoch;
      if Scans(s) { assert IsDue(s, Max(1, Max(s.epochSize / 16, s.epochSize - CountOf(s, true)))); }
    }
  }

  lemma InsertBounds(h: Hash, s: State, e: Elem, depth: nat)
    requires Shape(h, s) && Bounded(s)
    ensures Bounded(Inserted(h, s, e, depth).0)
  {
    hide KeptOf, EpochChecked, Displace;
    var s1 := EpochChecked(s);
    CheckBounds(s);
    CheckShape(h, s);
    match FirstHolding(h(e), s1.table, e) {
      case Some(loc) =>
        KeptUpdate(s1.collect, s1.epoch, loc, false, true, true);
        KeptUpdate(s1.collect, s1.epoch, loc, false, true, false);
      case None =>
        DisplaceCounts(h, s1, e, -1, true, depth, true);
        DisplaceCounts(h, s1, e, -1, true, depth, false);
        DisplaceCounter(h, s1, e, -1, true, depth);
    }
  }

  lemma CheckShape(h: Hash, s: State)
    requires Shape(h, s)
    ensures Shape(h, EpochChecked(s))
  {
  }

  lemma LookBounds(h: Hash, s: State, e: Elem, erase: bool)
    requires Shape(h, s) && Bounded(s)
    ensures Bounded(Looked(h, s, e, erase))
  {
    hide KeptOf;
    if FirstHolding(h(e), s.table, e).Some? && erase {
      var loc := FirstHolding(h(e), s.table, e).value;
      KeptUpdate(s.collect, s.epoch, loc, true, s.epoch[loc], true);
      KeptUpdate(s.collect, s.epoch, loc, true, s.epoch[loc], false);
      assert s.epoch[loc := s.epoch[loc]] == s.epoch;
    }
  }

  /** A cache that keeps nothing and has an epoch to go until its first scan. */
  ghost predicate IsNew(s: State) {
    && |s.collect| == |s.epoch| && s.counter == s.epochSize
    && forall i :: 0 <= i < |s.collect| ==> s.collect[i]
  }

  lemma {:induction false} NothingKept(collect: seq<bool>, epoch: seq<bool>, age: bool)
    requires |collect| == |epoch| && forall i :: 0 <= i < |collect| ==> collect[i]
    ensures KeptOf(collect, epoch, age) == 0
  {
    if collect != [] { NothingKept(collect[..|collect| - 1], epoch[..|epoch| - 1], age); }
  }

  lemma {:induction false} RunBounds(h: Hash, s: State, us: seq<Use>, depth: nat)
    requires Sound(h, s) && Bounded(s)
    ensures var t := UseAll(h, s, us, depth);
            Bounded(t) && t.epochSize == s.epochSize
    decreases us
  {
    hide Sound, Inserted, Looked, Bounded;
    if us != [] {
      SoundShape(h, s);
      UseKeeps(h, s, us[0], depth);
      match us[0] {
        case Put(e) =>
          InsertBounds(h, s, e, depth);
          InsertEpochSize(h, s, e, depth);
        case Look(e, erase) =>
          LookBounds(h, s, e, erase);
          LookSize(h, s, e, erase);
      }
      RunBounds(h, Used(h, s, us[0], depth).0, us[1..], depth);
    }
  }

  lemma LookSize(h: Hash, s: State, e: Elem, erase: bool)
    requires Shape(h, s)
    ensures Looked(h, s, e, erase).epochSize == s.epochSize
  {
  }

  /** Over every run from a new cache, neither epoch keeps more slots than its size and the least interval between
      scans, so at most twice that many slots are kept; the rest can be overwritten. */
  lemma KeptBound(h: Hash, s: State, us: seq<Use>, depth: nat)
    requires Sound(h, s) && IsNew(s)
    ensures var t := UseAll(h, s, us, depth);
            && |t.collect| == |t.epoch|
            && KeptOf(t.collect, t.epoch, true) <= s.epochSize + Max(1, s.epochSize / 16)
            && KeptOf(t.collect, t.epoch, false) <= s.epochSize + Max(1, s.epochSize / 16)
  {
    NothingKept(s.collect, s.epoch, true);
    NothingKept(s.collect, s.epoch, false);
    hide Sound;
    RunBounds(h, s, us, depth);
  }

  lemma {:induction false} AllKept(collect: seq<bool>, epoch: seq<bool>)
    requires |collect| == |epoch| && forall i :: 0 <= i < |collect| ==> !collect[i]
    ensures KeptOf(collect, epoch, true) + KeptOf(collect, epoch, false) == |collect|
  {
    if collect != [] { AllKept(collect[..|collect| - 1], epoch[..|epoch| - 1]); }
  }

  /** Epochs of at most 45 percent leave room: over every run from a new cache of more than 20 slots, some slot can be
      overwritten. */
  lemma NeverFull(h: Hash, s: State, us: seq<Use>, depth: nat)
    requires Sound(h, s) && IsNew(s) && |s.table| > 20 && s.epochSize <= 45 * |s.table| / 100
    ensures var t := UseAll(h, s, us, depth);
            |t.table| == |s.table| && exists i :: 0 <= i < |t.collect| && t.collect[i]
  {
    hide Sound, UseAll;
    var t := UseAll(h, s, us, depth);
    KeptBound(h, s, us, depth);
    RunSize(h, s, us, depth);
    if forall i :: 0 <= i < |t.collect| ==> !t.collect[i] { AllKept(t.collect, t.epoch); }
  }

  lemma {:induction false} RunSize(h: Hash, s: State, us: seq<Use>, depth: nat)
    requires Sound(h, s)
    ensures var t := UseAll(h, s, us, depth);
            |t.table| == |t.collect| == |s.table|
    decreases us
  {
    hide Sound, Inserted, Looked;
    if us == [] {
      SoundShape(h, s);
    } else {
      UseKeeps(h, s, us[0], depth);
      UseSize(h, s, us[0], depth);
      RunSize(h, Used(h, s, us[0], depth).0, us[1..], depth);
    }
  }

  lemma UseSize(h: Hash, s: State, u: Use, depth: nat)
    requires Sound(h, s)
    ensures |Used(h, s, u, depth).0.table| == |s.table|
  {
    hide Sound, Displace, EpochChecked;
    SoundShape(h, s);
    if u.Put? {
      CheckAges(s);
      CheckShape(h, s);
      DisplaceSize(h, EpochChecked(s), u.e, -1, true, depth);
    }
  }

  lemma {:induction false} DisplaceSize(h: Hash, s: State, e: Elem, last: int, recent: bool, depth: nat)
    requires Shape(h, s)
    ensures |Displace(h, s, e, last, recent, depth).0.table| == |s.table|
    decreases depth
  {
    hide Displace;
    Round(h, s, e, last, recent, depth);
    if depth > 0 && FirstFree(h(e), s.collect).None? {
      var loc := NextLoc(h(e), last);
      DisplaceSize(h, Swapped(s, loc, e, recent), s.table[loc], loc, s.epoch[loc], depth - 1);
    }
  }

  // ---------------------------------------------------------------- growing old

  /** No kept slot of the current epoch has the element. */
  ghost predicate NotRecent(s: State, x: Elem) {
    && |s.table| == |s.collect| == |s.epoch|
    && forall i :: 0 <= i < |s.table| && s.table[i] == x && !s.collect[i] ==> !s.epoch[i]
  }

  /** No kept slot has the element. */
  ghost predicate NotKept(s: State, x: Elem) {
    |s.table| == |s.collect| == |s.epoch| && forall i :: 0 <= i < |s.table| && s.table[i] == x ==> s.collect[i]
  }

  lemma {:induction false} DisplaceAges(h: Hash, s: State, e: Elem, last: int, recent: bool, depth: nat, x: Elem)
    requires Shape(h, s)
    ensures NotRecent(s, x) && (e == x ==> !recent) ==> NotRecent(Displace(h, s, e, last, recent, depth).0, x)
    ensures NotKept(s, x) && e != x ==> NotKept(Displace(h, s, e, last, recent, depth).0, x)
    decreases depth
  {
    hide Displace;
    Round(h, s, e, last, recent, depth);
    if depth > 0 && FirstFree(h(e), s.collect).None? {
      var loc := NextLoc(h(e), last);
      assert !s.collect[loc];
      DisplaceAges(h, Swapped(s, loc, e, recent), s.table[loc], loc, s.epoch[loc], depth - 1, x);
    }
  }

  lemma InsertAges(h: Hash, s: State, e: Elem, depth: nat, x: Elem)
    requires Shape(h, s) && e != x
    ensures var t := Inserted(h, s, e, depth).0;
            && (Turns(s) || NotRecent(s, x) ==> NotRecent(t, x))
            && ((Turns(s) && NotRecent(s, x)) || NotKept(s, x) ==> NotKept(t, x))
  {
    hide EpochChecked, Displace;
    var s1 := EpochChecked(s);
    CheckAges(s);
    CheckShape(h, s);
    if FirstHolding(h(e), s1.table, e).None? { DisplaceAges(h, s1, e, -1, true, depth, x); }
  }

  lemma LookAges(h: Hash, s: State, e: Elem, erase: bool, x: Elem)
    requires Shape(h, s)
    ensures var t := Looked(h, s, e, erase);
            (NotRecent(s, x) ==> NotRecent(t, x)) && (NotKept(s, x) ==> NotKept(t, x))
  {
  }

  /** How many epochs turn in a run. */
  ghost function TurnsOf(h: Hash, s: State, us: seq<Use>, depth: nat): nat
    requires Sound(h, s)
    decreases us
  {
    if us == [] then 0
    else
      UseKeeps(h, s, us[0], depth);
      (if us[0].Put? && Turns(s) then 1 else 0) + TurnsOf(h, Used(h, s, us[0], depth).0, us[1..], depth)
  }

  lemma UseAges(h: Hash, s: State, u: Use, depth: nat, x: Elem)
    requires Sound(h, s) && u != Put(x)
    ensures var t := Used(h, s, u, depth).0;
            var turn := u.Put? && Turns(s);
            && (turn || NotRecent(s, x) ==> NotRecent(t, x))
            && ((turn && NotRecent(s, x)) || NotKept(s, x) ==> NotKept(t, x))
  {
    hide Sound, Inserted, Looked, Turns;
    SoundShape(h, s);
    match u
    case Put(e) => InsertAges(h, s, e, depth, x);
    case Look(e, erase) => LookAges(h, s, e, erase, x);
  }

  /** An element that is not inserted again is of the old epoch after one turn, and erasable after two, wherever it was
      moved to in between. */
  lemma {:induction false} OldAfterTurns(h: Hash, s: State, us: seq<Use>, depth: nat, x: Elem)
    requires Sound(h, s) && Put(x) !in us
    ensures var t := UseAll(h, s, us, depth);
            var turns := TurnsOf(h, s, us, depth);
            && (turns >= 1 || NotRecent(s, x) ==> NotRecent(t, x))
            && (turns >= 2 || (turns >= 1 && NotRecent(s, x)) || NotKept(s, x) ==> NotKept(t, x))
    decreases us
  {
    hide Sound, Turns, NotRecent, NotKept;
    if us != [] {
      UseKeeps(h, s, us[0], depth);
      UseAges(h, s, us[0], depth, x);
      OldAfterTurns(h, Used(h, s, us[0], depth).0, us[1..], depth, x);
    }
  }
}
