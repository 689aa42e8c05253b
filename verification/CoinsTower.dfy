/** A stack of coin caches of any depth over a database, and the proof that it behaves like a stack of
    flat maps from outpoints to coins. */
module CoinsTower {
  import opened CoinsSpec
  import opened Options

  const NULL_HASH := 0

  datatype Level = Level(coins: Entries, best: int)

  /** The database and the caches on it, lowest first. */
  datatype Tower = Tower(db: Coins, dbBest: int, levels: seq<Level>)

  /** What the lowest `k` levels show. */
  ghost function Flat(t: Tower, k: nat): Coins
    requires k <= |t.levels|
  {
    if k == 0 then t.db else Overlay(Flat(t, k - 1), t.levels[k - 1].coins)
  }

  ghost predicate TowerOk(t: Tower) {
    && Present(t.db)
    && forall k :: 0 <= k < |t.levels| ==> Truthful(t, k)
  }

  /** The flags of level `k` are truthful towards the view below it. */
  ghost predicate Truthful(t: Tower, k: nat)
    requires k < |t.levels|
  {
    LevelOk(Flat(t, k), t.levels[k].coins)
  }

  lemma {:induction false} FlatPresent(t: Tower, k: nat)
    requires TowerOk(t) && k <= |t.levels|
    ensures Present(Flat(t, k))
  {
    if k > 0 {
      hide LevelOk, Overlay, Present;
      FlatPresent(t, k - 1);
      OverlayPresent(Flat(t, k - 1), t.levels[k - 1].coins);
    }
  }

  /** The view of the lowest `k` levels depends on nothing else. */
  lemma {:induction false} FlatBelow(t: Tower, u: Tower, k: nat)
    requires k <= |t.levels| && k <= |u.levels| && t.db == u.db
    requires forall j :: 0 <= j < k ==> t.levels[j].coins == u.levels[j].coins
    ensures Flat(t, k) == Flat(u, k)
  {
    if k > 0 {
      FlatBelow(t, u, k - 1);
    }
  }

  lemma FlatBottom(t: Tower)
    ensures Flat(t, 0) == t.db
  {
  }

  lemma FlatNext(t: Tower, k: nat)
    requires k < |t.levels|
    ensures Flat(t, k + 1) == Overlay(Flat(t, k), t.levels[k].coins)
  {
  }

  /** If the view of the lowest `i` levels is the same, so is everything above. */
  lemma {:induction false} FlatAbove(t: Tower, u: Tower, i: nat, k: nat)
    requires i <= k <= |t.levels| && |t.levels| == |u.levels| && Flat(t, i) == Flat(u, i)
    requires forall j :: i <= j < k ==> t.levels[j].coins == u.levels[j].coins
    ensures Flat(t, k) == Flat(u, k)
  {
    hide Overlay;
    if k > i {
      FlatAbove(t, u, i, k - 1);
    }
  }

  // ---------------------------------------------------------------- reading through the levels

  function SetCoins(t: Tower, i: nat, coins: Entries): Tower
    requires i < |t.levels|
  {
    t.(levels := t.levels[i := t.levels[i].(coins := coins)])
  }

  /** Looking up `o` in the lowest `k` levels fills the caches on the way. */
  ghost function Read(t: Tower, k: nat, o: OutPoint): (u: Tower)
    requires k <= |t.levels|
    ensures |u.levels| == |t.levels| && u.db == t.db && u.dbBest == t.dbBest
    ensures forall j :: k <= j < |t.levels| ==> u.levels[j] == t.levels[j]
    ensures forall j :: 0 <= j < |t.levels| ==> u.levels[j].best == t.levels[j].best
  {
    if k == 0 || o in t.levels[k - 1].coins then t else
      var u := Read(t, k - 1, o);
      SetCoins(u, k - 1, Fetched(Flat(t, k - 1), t.levels[k - 1].coins, o))
  }

  /** A lookup changes no view at any level; the coin is then cached iff the view has it. */
  lemma {:induction false} ReadKeeps(t: Tower, k: nat, o: OutPoint)
    requires TowerOk(t) && k <= |t.levels|
    ensures TowerOk(Read(t, k, o))
    ensures forall j :: 0 <= j <= |t.levels| ==> Flat(Read(t, k, o), j) == Flat(t, j)
    ensures k > 0 ==> var c := Read(t, k, o).levels[k - 1].coins;
                      Get(Flat(t, k), o) == (if o in c then Shown(c[o]) else None) && (o in c || o !in Flat(t, k - 1))
  {
    hide LevelOk, Overlay, Present;
    if k > 0 {
      FlatPresent(t, k - 1);
      assert Truthful(t, k - 1);
      FetchKeeps(Flat(t, k - 1), t.levels[k - 1].coins, o);
      if o !in t.levels[k - 1].coins {
        ReadKeeps(t, k - 1, o);
        var u := Read(t, k - 1, o);
        assert u.levels[k - 1] == t.levels[k - 1];
        SetKeeps(u, k - 1, Fetched(Flat(t, k - 1), t.levels[k - 1].coins, o));
      }
    }
  }

  /** Reading the lowest `k` levels does not depend on what is stacked above them. */
  lemma {:induction false} ReadBelow(t: Tower, top: Level, k: nat, o: OutPoint)
    requires k <= |t.levels|
    ensures Read(Stack(t, top), k, o) == Stack(Read(t, k, o), top)
  {
    hide Overlay;
    if k > 0 {
      ReadBelow(t, top, k - 1, o);
      FlatBelow(t, Stack(t, top), k - 1);
    }
  }

  /** Reading through the top level. */
  lemma ReadTop(t: Tower, top: Level, o: OutPoint)
    ensures Read(Stack(t, top), |t.levels| + 1, o) ==
            if o in top.coins then Stack(t, top)
            else Stack(Read(t, |t.levels|, o), top.(coins := Fetched(Top(t), top.coins, o)))
  {
    hide Overlay, Fetched;
    ReadBelow(t, top, |t.levels|, o);
    FlatBelow(t, Stack(t, top), |t.levels|);
  }

  /** The tower with one more level. */
  function Stack(t: Tower, top: Level): Tower {
    t.(levels := t.levels + [top])
  }

  lemma SetStack(t: Tower, top: Level, coins: Entries, best: int)
    ensures SetCoins(Stack(t, top), |t.levels|, coins) == Stack(t, top.(coins := coins))
    ensures SetBest(Stack(t, top), |t.levels|, best) == Stack(t, top.(best := best))
  {
  }

  lemma {:induction false} ReadBestBelow(t: Tower, top: Level, k: nat)
    requires k <= |t.levels|
    ensures ReadBest(Stack(t, top), k) == Stack(ReadBest(t, k), top)
  {
    if k > 0 {
      ReadBestBelow(t, top, k - 1);
      BestBelow(t, Stack(t, top), k - 1);
    }
  }

  /** A tower is sound iff the part below its top is and the top is truthful towards it. */
  lemma StackOk(t: Tower, top: Level)
    ensures TowerOk(Stack(t, top)) <==> TowerOk(t) && LevelOk(Top(t), top.coins)
    ensures Flat(Stack(t, top), |t.levels|) == Top(t)
    ensures Top(Stack(t, top)) == Overlay(Top(t), top.coins)
  {
    hide LevelOk, Overlay, Present;
    var u := Stack(t, top);
    forall k | 0 <= k <= |t.levels| ensures Flat(u, k) == Flat(t, k) {
      FlatBelow(t, u, k);
    }
    assert Truthful(u, |t.levels|) <==> LevelOk(Top(t), top.coins);
    assert forall k :: 0 <= k < |t.levels| ==> (Truthful(u, k) <==> Truthful(t, k));
  }

  /** Replacing the entries of one level by entries that show the same keeps every view. */
  lemma SetKeeps(t: Tower, i: nat, coins: Entries)
    requires TowerOk(t) && i < |t.levels|
    requires LevelOk(Flat(t, i), coins) && Overlay(Flat(t, i), coins) == Overlay(Flat(t, i), t.levels[i].coins)
    ensures TowerOk(SetCoins(t, i, coins))
    ensures forall j :: 0 <= j <= |t.levels| ==> Flat(SetCoins(t, i, coins), j) == Flat(t, j)
  {
    hide LevelOk, Overlay, Present, Flat;
    var u := SetCoins(t, i, coins);
    forall j | 0 <= j <= |t.levels| ensures Flat(u, j) == Flat(t, j) {
      SetAt(t, i, coins, j);
    }
    forall k | 0 <= k < |u.levels| ensures Truthful(u, k) {
      assert Truthful(t, k);
    }
  }

  lemma SetAt(t: Tower, i: nat, coins: Entries, j: nat)
    requires i < |t.levels| && j <= |t.levels|
    requires Overlay(Flat(t, i), coins) == Overlay(Flat(t, i), t.levels[i].coins)
    ensures Flat(SetCoins(t, i, coins), j) == Flat(t, j)
  {
    hide Overlay;
    var u := SetCoins(t, i, coins);
    FlatBelow(t, u, if j <= i then j else i);
    if j > i { FlatAbove(t, u, i + 1, j); }
  }

  /** Changing what the top level shows changes no other view. */
  lemma SetTop(t: Tower, coins: Entries)
    requires TowerOk(t) && t.levels != [] && LevelOk(Flat(t, |t.levels| - 1), coins)
    ensures var u := SetCoins(t, |t.levels| - 1, coins);
            && TowerOk(u)
            && Flat(u, |t.levels|) == Overlay(Flat(t, |t.levels| - 1), coins)
            && forall j :: 0 <= j < |t.levels| ==> Flat(u, j) == Flat(t, j)
  {
    hide LevelOk, Overlay, Present;
    var u := SetCoins(t, |t.levels| - 1, coins);
    forall j | 0 <= j < |t.levels| ensures Flat(u, j) == Flat(t, j) && Truthful(u, j) {
      FlatBelow(t, u, j);
      assert Truthful(t, j);
    }
  }

  // ---------------------------------------------------------------- writing back

  /** The tower after level `i` has been written to the level below it, before the level is cleared. */
  ghost function WriteBack(t: Tower, i: nat): Tower
    requires i < |t.levels|
  {
    if i == 0 then t.(db := Written(t.db, t.levels[0].coins), dbBest := t.levels[0].best)
    else t.(levels := t.levels[i - 1 := Level(Merged(t.levels[i - 1].coins, t.levels[i].coins), t.levels[i].best)])
  }

  /** Flush empties the written level, Sync keeps its unspent coins without flags. */
  ghost function Flush(t: Tower, i: nat, erase: bool): (u: Tower)
    requires i < |t.levels|
    ensures |u.levels| == |t.levels|
  {
    SetCoins(WriteBack(t, i), i, if erase then map[] else Cleaned(t.levels[i].coins))
  }

  lemma FlushBelow(t: Tower, i: nat, erase: bool)
    requires TowerOk(t) && i < |t.levels|
    ensures var u := Flush(t, i, erase);
            && Flat(u, i) == Flat(t, i + 1) && Flat(u, i + 1) == Flat(t, i + 1)
            && Truthful(u, i)
            && (i > 0 ==> Flat(u, i - 1) == Flat(t, i - 1) && Truthful(u, i - 1))
            && (i == 0 ==> Present(u.db))
  {
    hide LevelOk, Overlay, Present, Merged, Written, Cleaned;
    var u := Flush(t, i, erase);
    var c := t.levels[i].coins;
    assert Truthful(t, i);
    CleanKeeps(Flat(t, i), c);
    if i == 0 {
      WrittenIs(t.db, c);
      OverlayPresent(t.db, c);
      assert Flat(u, 0) == Flat(t, 1);
    } else {
      FlatBelow(t, u, i - 1);
      assert Truthful(t, i - 1);
      MergeKeeps(Flat(t, i - 1), t.levels[i - 1].coins, c);
      assert Flat(u, i) == Flat(t, i + 1);
    }
  }

  /** Flushing or syncing any level makes the level below show what it shows, and changes nothing else. */
  lemma FlushKeeps(t: Tower, i: nat, erase: bool)
    requires TowerOk(t) && i < |t.levels|
    ensures TowerOk(Flush(t, i, erase))
    ensures Flat(Flush(t, i, erase), i) == Flat(t, i + 1)
    ensures forall j :: 0 <= j <= |t.levels| && j != i ==> Flat(Flush(t, i, erase), j) == Flat(t, j)
  {
    hide LevelOk, Overlay, Present, Merged, Written, Cleaned;
    var u := Flush(t, i, erase);
    FlushBelow(t, i, erase);
    forall j | 0 <= j <= |t.levels| && j != i ensures Flat(u, j) == Flat(t, j) {
      if j < i { FlatBelow(t, u, j); } else { FlatAbove(t, u, i + 1, j); }
    }
    forall k | 0 <= k < |u.levels| ensures Truthful(u, k) {
      if k != i && k != i - 1 { assert Truthful(t, k); }
    }
  }

  // ---------------------------------------------------------------- the best block

  /** The best block the lowest `k` levels report: the first one set, from the top down. */
  function BestAt(t: Tower, k: nat): int
    requires k <= |t.levels|
  {
    if k == 0 then t.dbBest
    else if t.levels[k - 1].best != NULL_HASH then t.levels[k - 1].best
    else BestAt(t, k - 1)
  }

  function SetBest(t: Tower, i: nat, best: int): Tower
    requires i < |t.levels|
  {
    t.(levels := t.levels[i := t.levels[i].(best := best)])
  }

  /** Asking for the best block remembers the answer at every level on the way. */
  function ReadBest(t: Tower, k: nat): (u: Tower)
    requires k <= |t.levels|
    ensures |u.levels| == |t.levels| && u.db == t.db && u.dbBest == t.dbBest
    ensures forall j :: 0 <= j < |t.levels| ==> u.levels[j].coins == t.levels[j].coins
    ensures forall j :: k <= j < |t.levels| ==> u.levels[j] == t.levels[j]
  {
    if k == 0 || t.levels[k - 1].best != NULL_HASH then t
    else SetBest(ReadBest(t, k - 1), k - 1, BestAt(t, k - 1))
  }

  /** Recording at level `i` what it reports anyway changes no level's answer. */
  lemma {:induction false} BestKnown(t: Tower, i: nat, j: nat)
    requires i < |t.levels| && j <= |t.levels| && t.levels[i].best == NULL_HASH
    ensures BestAt(SetBest(t, i, BestAt(t, i)), j) == BestAt(t, j)
  {
    if j > i + 1 {
      BestKnown(t, i, j - 1);
    } else if j == i + 1 {
      BestBelow(t, SetBest(t, i, BestAt(t, i)), i);
    } else {
      BestBelow(t, SetBest(t, i, BestAt(t, i)), j);
    }
  }

  /** It changes no level's answer. */
  lemma {:induction false} ReadBestKeeps(t: Tower, k: nat, j: nat)
    requires k <= |t.levels| && j <= |t.levels|
    ensures BestAt(ReadBest(t, k), j) == BestAt(t, j)
    ensures k > 0 ==> ReadBest(t, k).levels[k - 1].best == BestAt(t, k)
    decreases k
  {
    if k > 0 && t.levels[k - 1].best == NULL_HASH {
      ReadBestKeeps(t, k - 1, j);
      BestKnown(ReadBest(t, k - 1), k - 1, j);
      ReadBestKeeps(t, k - 1, k - 1);
    }
  }

  lemma {:induction false} BestBelow(t: Tower, u: Tower, k: nat)
    requires k <= |t.levels| && k <= |u.levels| && t.dbBest == u.dbBest
    requires forall j :: 0 <= j < k ==> t.levels[j].best == u.levels[j].best
    ensures BestAt(t, k) == BestAt(u, k)
  {
    if k > 0 {
      BestBelow(t, u, k - 1);
    }
  }

  /** A cache passes its own, possibly unset, best block down. The best block it reports survives, and
      becomes its parent's, exactly when it was set or the parent added nothing of its own. */
  lemma FlushBest(t: Tower, i: nat, erase: bool)
    requires 0 < i < |t.levels|
    ensures var kept := t.levels[i].best != NULL_HASH || BestAt(t, i) == BestAt(t, i - 1);
            && (BestAt(Flush(t, i, erase), i) == BestAt(t, i + 1) <==> kept)
            && (BestAt(Flush(t, i, erase), i + 1) == BestAt(t, i + 1) <==> kept)
  {
    BestBelow(t, Flush(t, i, erase), i - 1);
  }

  /** A best block set below an unset one is forgotten by a flush. */
  lemma FlushForgetsBest()
    ensures var t := Tower(map[], 7, [Level(map[], 8), Level(map[], NULL_HASH)]);
            TowerOk(t) && BestAt(t, 2) == 8 && BestAt(Flush(t, 1, true), 2) == 7
  {
    var t := Tower(map[], 7, [Level(map[], 8), Level(map[], NULL_HASH)]);
    BestBelow(t, Flush(t, 1, true), 0);
    assert BestAt(t, 1) == 8 && BestAt(t, 0) == 7;
    FlushBest(t, 1, true);
    assert BestAt(Flush(t, 1, true), 1) == BestAt(Flush(t, 1, true), 0);
  }

  // ---------------------------------------------------------------- whole runs

  datatype Op =
    | Look(k: nat, o: OutPoint)
    | LookBest(k: nat)
    | MarkBest(i: nat, best: int)
    | Add(o: OutPoint, coin: Coin, overwrite: bool)
    | Spend(o: OutPoint)
    | Uncache(i: nat, o: OutPoint)
    | Write(i: nat, erase: bool)
    | Push
    | Pop

  ghost function Top(t: Tower): Coins {
    Flat(t, |t.levels|)
  }

  /** What callers must respect. Coins change at the top only; a coin is added without the overwrite flag
      only where the whole view has none; the database is written with a best block. */
  ghost predicate Allowed(t: Tower, op: Op) {
    match op
    case Look(k, _) => k <= |t.levels|
    case LookBest(k) => k <= |t.levels|
    case MarkBest(i, _) => i < |t.levels|
    case Add(o, coin, overwrite) => t.levels != [] && coin.Unspent? && (overwrite || o !in Top(t))
    case Spend(_) => t.levels != []
    case Uncache(i, _) => i < |t.levels|
    case Write(i, _) => i < |t.levels| && (i == 0 ==> t.levels[0].best != NULL_HASH)
    case Push => true
    case Pop => t.levels != []
  }

  ghost function Step(t: Tower, op: Op): Tower
    requires Allowed(t, op)
  {
    var top := |t.levels| - 1;
    match op
    case Look(k, o) => Read(t, k, o)
    case LookBest(k) => ReadBest(t, k)
    case MarkBest(i, best) => SetBest(t, i, best)
    case Add(o, coin, overwrite) =>
      if IsUnspendable(coin.out.script) then t
      else SetCoins(t, top, Added(t.levels[top].coins, o, coin, overwrite))
    case Spend(o) =>
      var u := Read(t, |t.levels|, o);
      SetCoins(u, top, SpentFrom(u.levels[top].coins, o))
    case Uncache(i, o) => SetCoins(t, i, Uncached(t.levels[i].coins, o))
    case Write(i, erase) => Flush(t, i, erase)
    case Push => t.(levels := t.levels + [Level(map[], NULL_HASH)])
    case Pop => t.(levels := t.levels[..top])
  }

  /** The specification: one flat map per level, the database's first. Only adding and spending change
      the last one; writing a level back copies its map to the one below. */
  function FlatStep(flats: seq<Coins>, op: Op): (r: seq<Coins>)
    requires flats != []
    ensures r != []
  {
    var n := |flats| - 1;
    match op
    case Look(_, _) => flats
    case LookBest(_) => flats
    case MarkBest(_, _) => flats
    case Add(o, coin, _) =>
      if coin.Spent? || IsUnspendable(coin.out.script) then flats else flats[n := flats[n][o := coin]]
    case Spend(o) => flats[n := flats[n] - {o}]
    case Uncache(_, _) => flats
    case Write(i, _) => if i < n then flats[i := flats[i + 1]] else flats
    case Push => flats + [flats[n]]
    case Pop => if n > 0 then flats[..n] else flats
  }

  ghost function Flats(t: Tower): seq<Coins> {
    seq(|t.levels| + 1, k requires 0 <= k <= |t.levels| => Flat(t, k))
  }

  lemma AddStep(t: Tower, o: OutPoint, coin: Coin, overwrite: bool)
    requires TowerOk(t) && Allowed(t, Add(o, coin, overwrite))
    ensures TowerOk(Step(t, Add(o, coin, overwrite)))
    ensures Flats(Step(t, Add(o, coin, overwrite))) == FlatStep(Flats(t), Add(o, coin, overwrite))
  {
    hide LevelOk, Overlay, Present;
    if !IsUnspendable(coin.out.script) {
      var top := |t.levels| - 1;
      assert Truthful(t, top);
      AddAllowed(Flat(t, top), t.levels[top].coins, o, coin, overwrite);
      SetTop(t, Added(t.levels[top].coins, o, coin, overwrite));
    }
  }

  lemma AddShows(t: Tower, o: OutPoint, coin: Coin, overwrite: bool)
    requires TowerOk(t) && Allowed(t, Add(o, coin, overwrite))
    ensures Top(Step(t, Add(o, coin, overwrite))) ==
            if IsUnspendable(coin.out.script) then Top(t) else Top(t)[o := coin]
  {
    hide TowerOk, Flat;
    AddStep(t, o, coin, overwrite);
    var u := Step(t, Add(o, coin, overwrite));
    assert Top(u) == Flats(u)[|u.levels|];
  }

  lemma SpendStep(t: Tower, o: OutPoint)
    requires TowerOk(t) && t.levels != []
    ensures TowerOk(Step(t, Spend(o)))
    ensures Flats(Step(t, Spend(o))) == FlatStep(Flats(t), Spend(o))
  {
    hide LevelOk, Overlay, Present, Flat;
    var top := |t.levels| - 1;
    ReadKeeps(t, top + 1, o);
    var u := Read(t, top + 1, o);
    FlatNext(u, top);
    assert Truthful(u, top) && (o in u.levels[top].coins || o !in Flat(u, top));
    SpendKeeps(Flat(u, top), u.levels[top].coins, o);
    SetTop(u, SpentFrom(u.levels[top].coins, o));
  }

  lemma StackStep(t: Tower, op: Op)
    requires TowerOk(t) && Allowed(t, op) && (op.Push? || op.Pop?)
    ensures TowerOk(Step(t, op)) && Flats(Step(t, op)) == FlatStep(Flats(t), op)
  {
    hide LevelOk, Overlay, Present;
    var u := Step(t, op);
    var n := if op.Push? then |t.levels| else |t.levels| - 1;
    forall k | 0 <= k <= n ensures Flat(u, k) == Flat(t, k) {
      FlatBelow(t, u, k);
    }
    forall k | 0 <= k < n ensures Truthful(u, k) {
      assert Truthful(t, k);
    }
    if op.Push? {
      EmptyLevel(Flat(t, n));
      assert u.levels[n].coins == map[] && Truthful(u, n);
    }
  }

  lemma EmptyLevel(parent: Coins)
    ensures LevelOk(parent, map[]) && Overlay(parent, map[]) == parent
  {
    OverlayAt(parent, map[]);
    SameLookups(Overlay(parent, map[]), parent);
  }

  lemma QuietStep(t: Tower, op: Op)
    requires TowerOk(t) && Allowed(t, op) && (op.Look? || op.LookBest? || op.MarkBest? || op.Uncache?)
    ensures TowerOk(Step(t, op)) && Flats(Step(t, op)) == FlatStep(Flats(t), op)
  {
    hide LevelOk, Overlay, Present;
    var u := Step(t, op);
    match op {
      case Look(k, o) => ReadKeeps(t, k, o);
      case Uncache(i, o) =>
        assert Truthful(t, i);
        UncacheKeeps(Flat(t, i), t.levels[i].coins, o);
        SetKeeps(t, i, Uncached(t.levels[i].coins, o));
      case LookBest(_) => SameCoins(t, u);
      case MarkBest(_, _) => SameCoins(t, u);
    }
  }

  lemma SameCoins(t: Tower, u: Tower)
    requires TowerOk(t) && t.db == u.db && |t.levels| == |u.levels|
    requires forall j :: 0 <= j < |t.levels| ==> t.levels[j].coins == u.levels[j].coins
    ensures TowerOk(u) && Flats(u) == Flats(t)
  {
    hide LevelOk, Overlay, Present;
    forall k | 0 <= k <= |t.levels| ensures Flat(u, k) == Flat(t, k) {
      FlatBelow(t, u, k);
    }
    forall k | 0 <= k < |t.levels| ensures Truthful(u, k) {
      assert Truthful(t, k);
    }
  }

  lemma WriteStep(t: Tower, i: nat, erase: bool)
    requires TowerOk(t) && Allowed(t, Write(i, erase))
    ensures TowerOk(Step(t, Write(i, erase)))
    ensures Flats(Step(t, Write(i, erase))) == FlatStep(Flats(t), Write(i, erase))
  {
    hide TowerOk, Overlay, Flat, Flush;
    FlushKeeps(t, i, erase);
  }

  /** Every operation does to the views exactly what the flat maps say, and keeps the flags truthful. */
  lemma StepRefines(t: Tower, op: Op)
    requires TowerOk(t) && Allowed(t, op)
    ensures TowerOk(Step(t, op)) && Flats(Step(t, op)) == FlatStep(Flats(t), op)
  {
    hide TowerOk, Flats, FlatStep, Step;
    match op {
      case Add(o, coin, overwrite) => AddStep(t, o, coin, overwrite);
      case Spend(o) => SpendStep(t, o);
      case Write(i, erase) => WriteStep(t, i, erase);
      case Push => StackStep(t, op);
      case Pop => StackStep(t, op);
      case _ => QuietStep(t, op);
    }
  }

  ghost predicate RunAllowed(t: Tower, ops: seq<Op>)
    decreases ops
  {
    ops != [] ==> Allowed(t, ops[0]) && RunAllowed(Step(t, ops[0]), ops[1..])
  }

  ghost function Run(t: Tower, ops: seq<Op>): Tower
    requires RunAllowed(t, ops)
    decreases ops
  {
    if ops == [] then t else Run(Step(t, ops[0]), ops[1..])
  }

  function FlatRun(flats: seq<Coins>, ops: seq<Op>): seq<Coins>
    requires flats != []
    decreases ops
  {
    if ops == [] then flats else FlatRun(FlatStep(flats, ops[0]), ops[1..])
  }

  /** Over every run a tower of any depth shows at every level what the flat maps hold. */
  lemma {:induction false} RunRefines(t: Tower, ops: seq<Op>)
    requires TowerOk(t) && RunAllowed(t, ops)
    ensures TowerOk(Run(t, ops)) && Flats(Run(t, ops)) == FlatRun(Flats(t), ops)
    decreases ops
  {
    hide TowerOk, Step, Allowed, Flats, FlatStep;
    if ops != [] {
      StepRefines(t, ops[0]);
      RunRefines(Step(t, ops[0]), ops[1..]);
    }
  }

  /** Operations that neither change the top view nor take the top level away. */
  predicate Quiet(op: Op) {
    !op.Add? && !op.Spend? && !op.Pop?
  }

  /** Reading, uncaching, syncing, flushing and stacking a cache on top never change the top view. */
  lemma {:induction false} QuietRun(t: Tower, ops: seq<Op>)
    requires TowerOk(t) && RunAllowed(t, ops)
    requires forall k :: 0 <= k < |ops| ==> Quiet(ops[k])
    ensures Top(Run(t, ops)) == Top(t)
    decreases ops
  {
    hide TowerOk, Allowed, Step;
    if ops != [] {
      StepRefines(t, ops[0]);
      assert Quiet(ops[0]);
      assert Top(Step(t, ops[0])) == Flats(Step(t, ops[0]))[|Step(t, ops[0]).levels|];
      QuietRun(Step(t, ops[0]), ops[1..]);
    }
  }

  /** What is below the top after the top has been written back. */
  ghost function Fold(t: Tower): (u: Tower)
    requires t.levels != []
    ensures |u.levels| == |t.levels| - 1
  {
    var n := |t.levels| - 1;
    var top := t.levels[n];
    if n == 0 then Tower(Written(t.db, top.coins), top.best, [])
    else t.(levels := t.levels[..n - 1] + [Level(Merged(t.levels[n - 1].coins, top.coins), top.best)])
  }

  lemma FlushFold(t: Tower, erase: bool)
    requires t.levels != []
    ensures var n := |t.levels| - 1;
            var top := t.levels[n];
            Flush(t, n, erase) == Stack(Fold(t), top.(coins := if erase then map[] else Cleaned(top.coins)))
  {
    hide Written, Merged, Cleaned;
  }

  /** A sound tower never trips over a misapplied FRESH flag. */
  lemma NeverMisapplied(t: Tower, mid: Level, top: Level)
    requires TowerOk(Stack(Stack(t, mid), top))
    ensures forall o :: !Misapplied(mid.coins, top.coins, o)
  {
    hide TowerOk, LevelOk, Overlay, Misapplied;
    StackOk(Stack(t, mid), top);
    StackOk(t, mid);
    MergeKeeps(Top(t), mid.coins, top.coins);
  }
}
