/** The coin caches as objects: each updates its own map in place, also when it is only read, and writes
    back into the object below it. */
module CoinsCache {
  import opened CoinsSpec
  import opened CoinsTower
  import opened CoinsUsage
  import opened Options

  /** The coin database at the bottom. Changes are written in batches, each as a whole; while not all are
      written two hashes are there in place of the best block, the one to come and the one before. */
  class CoinsDb {
    const isFull: nat -> bool
    var coins: Coins
    var best: int
    var heads: seq<int>

    /** `isFull` says whether a batch of so many changes is to be written at once. */
    constructor (isFull: nat -> bool)
      ensures coins == map[] && best == NULL_HASH && heads == [] && this.isFull == isFull
    {
      this.isFull := isFull;
      coins := map[];
      best := NULL_HASH;
      heads := [];
    }

    /** An interrupted write may only be taken up again for the same block. */
    ghost predicate Ready(hash: int)
      reads this
    {
      hash != NULL_HASH && (best == NULL_HASH && |heads| == 2 ==> heads[0] == hash)
    }

    /** The block that the coins were written for, or were last complete for. */
    function Tip(): int
      reads this
    {
      if best == NULL_HASH && |heads| == 2 then heads[1] else best
    }

    /** Writes the dirty entries of `child` in any order; `erase` empties the child on the way. It may crash
        after the batches that `crashes` tells; then the two hashes are there, and every coin is as it was or as
        it is to be. */
    method BatchWrite(child: Cache, hash: int, erase: bool, crashes: nat -> bool) returns (alive: bool)
      requires Ready(hash)
      modifies this, child`cacheCoins
      ensures Calm(crashes) ==> alive
      ensures alive ==> coins == Written(old(coins), old(child.cacheCoins)) && best == hash && heads == []
      ensures alive ==> child.cacheCoins == if erase then map[] else old(child.cacheCoins)
      ensures !alive ==> best == NULL_HASH && heads == [hash, old(Tip())]
      ensures !alive ==> Between(old(coins), coins, old(child.cacheCoins))
    {
      hide Pending, Applied, Between;
      ghost var was := coins;
      ghost var all := child.cacheCoins;
      var tip := Tip();
      var batch: Batch := map[];
      var batches := 0;
      var todo := child.cacheCoins.Keys;
      PendingStart(coins, all);
      while todo != {}
        invariant todo <= all.Keys && Pending(was, coins, batch, all, todo)
        invariant child.cacheCoins == if erase then map o | o in todo :: all[o] else all
      {
        var o :| o in todo;
        var e := child.cacheCoins[o];
        PendingOne(was, coins, batch, all, todo, o);
        if e.isDirty {
          batch := batch[o := Shown(e)];
        }
        todo := todo - {o};
        if erase {
          child.cacheCoins := child.cacheCoins - {o};
        }
        if isFull(|batch|) {
          PendingWritten(was, coins, batch, all, todo);
          best, heads := NULL_HASH, [hash, tip];
          coins := Applied(coins, batch);
          batch := map[];
          batches := batches + 1;
          if crashes(batches) {
            PendingBetween(was, coins, batch, all, todo);
            return false;
          }
        }
      }
      PendingWritten(was, coins, batch, all, {});
      coins := Applied(coins, batch);
      best, heads := hash, [];
      PendingDone(was, coins, all);
      alive := true;
    }
  }

  /** Changes that are collected and not written yet: no coin stands for an erased one. */
  type Batch = map<OutPoint, Option<Coin>>

  /** What is still to be collected and what is in the batch is as it was; the rest is as it is to be. */
  ghost predicate Pending(was: Coins, now: Coins, batch: Batch, all: Entries, todo: set<OutPoint>) {
    && (forall o :: o in batch ==> o !in todo && o in all && all[o].isDirty && batch[o] == Shown(all[o]))
    && (forall o :: o in todo || o in batch ==> Get(now, o) == Get(was, o))
    && (forall o :: o !in todo && o !in batch ==> Get(now, o) == WrittenAt(was, all, o))
  }

  lemma PendingStart(was: Coins, all: Entries)
    ensures Pending(was, was, map[], all, all.Keys)
  {
  }

  lemma PendingOne(was: Coins, now: Coins, batch: Batch, all: Entries, todo: set<OutPoint>, o: OutPoint)
    requires Pending(was, now, batch, all, todo) && o in todo && o in all
    ensures Pending(was, now, if all[o].isDirty then batch[o := Shown(all[o])] else batch, all, todo - {o})
  {
    forall x ensures x in todo - {o} || x in batch || x == o || Get(now, x) == WrittenAt(was, all, x) {}
  }

  lemma PendingWritten(was: Coins, now: Coins, batch: Batch, all: Entries, todo: set<OutPoint>)
    requires Pending(was, now, batch, all, todo)
    ensures Pending(was, Applied(now, batch), map[], all, todo)
  {
    hide Applied;
    AppliedAt(now, batch);
  }

  lemma PendingBetween(was: Coins, now: Coins, batch: Batch, all: Entries, todo: set<OutPoint>)
    requires Pending(was, now, batch, all, todo)
    ensures Between(was, now, all)
  {
    forall o ensures Get(now, o) == Get(was, o) || Get(now, o) == WrittenAt(was, all, o) {
      if o !in todo && o !in batch { assert Get(now, o) == WrittenAt(was, all, o); }
    }
  }

  lemma PendingDone(was: Coins, now: Coins, all: Entries)
    requires Pending(was, now, map[], all, {})
    ensures now == Written(was, all)
  {
    forall o ensures Get(now, o) == Get(Written(was, all), o) {
      assert Get(now, o) == WrittenAt(was, all, o);
    }
    SameLookups(now, Written(was, all));
  }

  ghost predicate Calm(crashes: nat -> bool) {
    forall n :: !crashes(n)
  }

  /** The coins after the changes of a batch. */
  function Applied(coins: Coins, batch: Batch): Coins {
    map o | o in coins.Keys + batch.Keys && (if o in batch then batch[o] else Get(coins, o)).Some? ::
      (if o in batch then batch[o] else Get(coins, o)).value
  }

  lemma AppliedAt(coins: Coins, batch: Batch)
    ensures forall o :: Get(Applied(coins, batch), o) == if o in batch then batch[o] else Get(coins, o)
  {
  }

  /** Every coin is as it was or as it is to be. */
  ghost predicate Between(was: Coins, now: Coins, child: Entries) {
    forall o :: Get(now, o) == Get(was, o) || Get(now, o) == WrittenAt(was, child, o)
  }

  /** Writing the same entries over what an interrupted write left gives what it would have given. */
  lemma WriteAgain(was: Coins, now: Coins, child: Entries)
    requires Between(was, now, child)
    ensures Written(now, child) == Written(was, child)
  {
    forall o ensures Get(Written(now, child), o) == Get(Written(was, child), o) {
      assert Get(Written(now, child), o) == WrittenAt(now, child, o);
      assert Get(Written(was, child), o) == WrittenAt(was, child, o);
    }
    SameLookups(Written(now, child), Written(was, child));
  }

  lemma BetweenAgain(was: Coins, mid: Coins, now: Coins, child: Entries)
    requires Between(was, mid, child) && Between(mid, now, child)
    ensures Between(was, now, child)
  {
    forall o ensures Get(now, o) == Get(was, o) || Get(now, o) == WrittenAt(was, child, o) {
      assert Get(mid, o) == Get(was, o) || Get(mid, o) == WrittenAt(was, child, o);
      assert Get(now, o) == Get(mid, o) || Get(now, o) == WrittenAt(mid, child, o);
    }
  }

  /** Writes the same entries again and again until one attempt does not crash. However often it crashed before,
      that attempt leaves what the first would have left, and until then the last complete block is known. */
  method CrashAndRetry(db: CoinsDb, attempts: seq<Cache>, ghost all: Entries, hash: int, crashes: seq<nat -> bool>)
    returns (done: bool)
    requires db.Ready(hash) && |crashes| == |attempts|
    requires forall i :: 0 <= i < |attempts| ==> attempts[i].cacheCoins == all
    requires forall i, j :: 0 <= i < j < |attempts| ==> attempts[i] != attempts[j]
    modifies db, (set c | c in attempts)`cacheCoins
    ensures done ==> db.coins == Written(old(db.coins), all) && db.best == hash && db.heads == []
    ensures !done ==> Between(old(db.coins), db.coins, all) && db.Tip() == old(db.Tip())
    ensures (exists k :: 0 <= k < |crashes| && Calm(crashes[k])) ==> done
  {
    hide Between, Calm;
    ghost var was := db.coins;
    BetweenStart(was, all);
    var k := 0;
    while k < |attempts|
      invariant 0 <= k <= |attempts| && db.Ready(hash) && db.Tip() == old(db.Tip())
      invariant Between(was, db.coins, all)
      invariant forall i :: k <= i < |attempts| ==> attempts[i].cacheCoins == all
      invariant forall i :: 0 <= i < k ==> !Calm(crashes[i])
    {
      ghost var mid := db.coins;
      WriteAgain(was, mid, all);
      var alive := db.BatchWrite(attempts[k], hash, true, crashes[k]);
      if alive {
        return true;
      }
      BetweenAgain(was, mid, db.coins, all);
      k := k + 1;
    }
    done := false;
  }

  lemma BetweenStart(was: Coins, all: Entries)
    ensures Between(was, was, all)
  {
  }

  class Cache {
    const below: Cache?
    const db: CoinsDb
    ghost const depth: nat
    var cacheCoins: Entries
    var hashBlock: int
    var cachedCoinsUsage: int

    /** Caches are stacked on older ones, over one database. */
    ghost predicate Linked()
      decreases depth
    {
      if below == null then depth == 0
      else depth == below.depth + 1 && below.db == db && below.Linked()
    }

    /** This cache and those below it. */
    ghost function Caches(): (r: set<Cache>)
      requires Linked()
      ensures this in r && forall c :: c in r ==> c.depth <= depth
      ensures below != null ==> this !in below.Caches() && below.Caches() <= r
      decreases depth
    {
      if below == null then {this} else {this} + below.Caches()
    }

    /** The tower with this cache on top, as a value. */
    ghost function Value(): (t: Tower)
      requires Linked()
      reads Caches(), db
      ensures |t.levels| == depth + 1 && t.levels[depth] == Level(cacheCoins, hashBlock)
      ensures t.db == db.coins && t.dbBest == db.best
      decreases depth
    {
      Stack(Under(), Level(cacheCoins, hashBlock))
    }

    /** The tower below this cache. */
    ghost function Under(): (t: Tower)
      requires Linked()
      reads if below == null then {} else below.Caches(), db
      ensures |t.levels| == depth
      ensures below != null ==> this !in below.Caches()
      ensures t.db == db.coins && t.dbBest == db.best
      decreases depth, 0
    {
      if below == null then Tower(db.coins, db.best, []) else below.Value()
    }

    /** The memory of the coins is accounted for, here and below. */
    ghost predicate Metered()
      requires Linked()
      reads Caches()
      decreases depth
    {
      cachedCoinsUsage == Usage(cacheCoins) && (below != null ==> below.Metered())
    }

    ghost predicate UnderMetered()
      requires Linked()
      reads if below == null then {} else below.Caches()
    {
      below != null ==> below.Metered()
    }

    ghost predicate Valid()
      reads this, if Linked() then Caches() else {}, db
    {
      Linked() && TowerOk(Value()) && Metered()
    }

    /** The flat map this cache stands for. */
    ghost function View(): Coins
      requires Linked()
      reads Caches(), db
    {
      Top(Value())
    }

    constructor OnDb(db: CoinsDb)
      requires Present(db.coins)
      ensures Valid() && this.db == db && depth == 0 && Caches() == {this}
      ensures View() == db.coins && hashBlock == NULL_HASH
    {
      this.db := db;
      below := null;
      depth := 0;
      cacheCoins := map[];
      hashBlock := NULL_HASH;
      cachedCoinsUsage := 0;
      new;
      UsageNone();
      StackOk(Under(), Level(map[], NULL_HASH));
      EmptyLevel(Top(Under()));
    }

    constructor OnCache(below: Cache)
      requires below.Valid()
      ensures Valid() && this.db == below.db && this.below == below && depth == below.depth + 1
      ensures Caches() == {this} + below.Caches()
      ensures Value() == Step(below.Value(), Push)
    {
      hide TowerOk, LevelOk, Overlay;
      this.below := below;
      this.db := below.db;
      depth := below.depth + 1;
      cacheCoins := map[];
      hashBlock := NULL_HASH;
      cachedCoinsUsage := 0;
      new;
      UsageNone();
      assert this !in below.Caches();
      assert Under() == old(below.Value()) && below.Metered();
      StackOk(below.Value(), Level(map[], NULL_HASH));
      EmptyLevel(below.View());
    }

    /** Looks `o` up, pulling it through the caches below if this one has no entry. */
    method FetchCoin(o: OutPoint) returns (found: bool)
      requires Valid()
      modifies Caches()`cacheCoins, Caches()`cachedCoinsUsage
      ensures Valid() && Value() == Read(old(Value()), depth + 1, o)
      ensures found == (o in cacheCoins)
      decreases depth, 1
    {
      hide TowerOk, LevelOk, Overlay, Flat, Read, Usage;
      ghost var under := Under();
      ghost var top := Level(cacheCoins, hashBlock);
      ReadKeeps(Value(), depth + 1, o);
      ReadTop(under, top, o);
      if o in cacheCoins {
        return true;
      }
      StackOk(under, top);
      var coin := BaseCoin(o);
      ghost var below := Read(under, depth, o);
      assert Under() == below && cacheCoins == top.coins && hashBlock == top.best;
      if coin == None {
        return false;
      }
      UsageSet(cacheCoins, o, Entry(coin.value, false, coin.value.Spent?));
      cacheCoins := cacheCoins[o := Entry(coin.value, false, coin.value.Spent?)];
      cachedCoinsUsage := cachedCoinsUsage + CoinUsage(coin.value);
      assert Under() == below && UnderMetered();
      assert Value() == Stack(below, top.(coins := Fetched(Top(under), top.coins, o)));
      found := true;
    }

    /** What the view below answers. */
    method BaseCoin(o: OutPoint) returns (coin: Option<Coin>)
      requires Linked() && TowerOk(Under()) && UnderMetered()
      modifies (Caches() - {this})`cacheCoins, (Caches() - {this})`cachedCoinsUsage
      ensures Under() == Read(old(Under()), depth, o) && UnderMetered()
      ensures coin == Get(Top(old(Under())), o)
      decreases depth, 0
    {
      if below == null {
        FlatBottom(Under());
        coin := Get(db.coins, o);
      } else {
        coin := below.GetCoin(o);
      }
    }

    /** The coin at `o` in the flat map; whatever it pulls into the caches, the view stays. */
    method GetCoin(o: OutPoint) returns (coin: Option<Coin>)
      requires Valid()
      modifies Caches()`cacheCoins, Caches()`cachedCoinsUsage
      ensures Valid() && Value() == Read(old(Value()), depth + 1, o)
      ensures coin == Get(View(), o) && View() == old(View())
      decreases depth, 2
    {
      hide TowerOk, LevelOk, Overlay, Flat, Read;
      ReadKeeps(Value(), depth + 1, o);
      var found := FetchCoin(o);
      coin := if found then Shown(cacheCoins[o]) else None;
    }

    method HaveCoin(o: OutPoint) returns (have: bool)
      requires Valid()
      modifies Caches()`cacheCoins, Caches()`cachedCoinsUsage
      ensures Valid() && View() == old(View()) && have == (o in View())
    {
      var coin := GetCoin(o);
      have := coin.Some?;
    }

    /** Adds an unspent coin. Unless overwriting is allowed the whole view must have none at `o`; of this
        only the part held by this cache is checked, and the refusal is the failure result. */
    method AddCoin(o: OutPoint, coin: Coin, overwrite: bool) returns (ok: bool)
      requires Linked() && coin.Unspent?
      modifies this`cacheCoins, this`cachedCoinsUsage
      ensures ok == (IsUnspendable(coin.out.script) || !AddThrows(old(cacheCoins), o, overwrite))
      ensures cacheCoins == if !ok || IsUnspendable(coin.out.script) then old(cacheCoins)
                            else Added(old(cacheCoins), o, coin, overwrite)
      ensures old(Metered()) ==> cachedCoinsUsage == Usage(cacheCoins) - if ok then 0 else EntryUsage(cacheCoins, o)
      ensures old(Metered()) ==>
                (Metered() <==> IsUnspendable(coin.out.script) || !AddThrows(old(cacheCoins), o, overwrite)
                                || EntryUsage(old(cacheCoins), o) == 0)
      ensures old(Valid() && Allowed(Value(), Add(o, coin, overwrite))) ==>
                ok && Valid() && Value() == Step(old(Value()), Add(o, coin, overwrite))
    {
      hide TowerOk, LevelOk, Overlay, Flat, Usage, CoinUsage, IsUnspendable;
      ghost var t := Value();
      if Valid() && Allowed(t, Add(o, coin, overwrite)) {
        AddStep(t, o, coin, overwrite);
        StackOk(Under(), Level(cacheCoins, hashBlock));
        if !IsUnspendable(coin.out.script) { AddAllowed(Top(Under()), cacheCoins, o, coin, overwrite); }
      }
      if IsUnspendable(coin.out.script) {
        return true;
      }
      SetStack(Under(), Level(cacheCoins, hashBlock), Added(cacheCoins, o, coin, overwrite), 0);
      ok := PutCoin(o, coin, overwrite);
    }

    /** Puts a spendable coin into this cache. A refusal comes after the memory of the coin that was there has
        been taken off. */
    method PutCoin(o: OutPoint, coin: Coin, overwrite: bool) returns (ok: bool)
      requires Linked() && coin.Unspent?
      modifies this`cacheCoins, this`cachedCoinsUsage
      ensures Under() == old(Under()) && (old(UnderMetered()) ==> UnderMetered())
      ensures ok == !AddThrows(old(cacheCoins), o, overwrite)
      ensures cacheCoins == if ok then Added(old(cacheCoins), o, coin, overwrite) else old(cacheCoins)
      ensures old(Metered()) ==> cachedCoinsUsage == Usage(cacheCoins) - if ok then 0 else EntryUsage(cacheCoins, o)
    {
      hide Usage, CoinUsage;
      var e := if o in cacheCoins then cacheCoins[o] else Entry(Spent, false, false);
      var isFresh := false;
      if o in cacheCoins {
        cachedCoinsUsage := cachedCoinsUsage - CoinUsage(e.coin);
      }
      if !overwrite {
        if e.coin.Unspent? {
          return false;
        }
        isFresh := !e.isDirty;
      }
      UsageSet(cacheCoins, o, Entry(coin, true, e.isFresh || isFresh));
      cacheCoins := cacheCoins[o := Entry(coin, true, e.isFresh || isFresh)];
      cachedCoinsUsage := cachedCoinsUsage + CoinUsage(coin);
      ok := true;
    }

    /** Spends the coin at `o`. Success only means that an entry was found: the coin moved out tells
        whether the view had one. */
    method SpendCoin(o: OutPoint) returns (ok: bool, moved: Coin)
      requires Valid()
      modifies Caches()`cacheCoins, Caches()`cachedCoinsUsage
      ensures Valid() && Value() == Step(old(Value()), Spend(o))
      ensures View() == old(View()) - {o}
      ensures Get(old(View()), o) == if ok && moved.Unspent? then Some(moved) else None
    {
      hide TowerOk, LevelOk, Overlay, Flat, Read, Usage;
      ghost var t := Value();
      SpendStep(t, o);
      assert View() == Flats(t)[depth + 1];
      ReadKeeps(t, depth + 1, o);
      ok := FetchCoin(o);
      moved := Spent;
      SetStack(Under(), Level(cacheCoins, hashBlock), SpentFrom(cacheCoins, o), 0);
      if ok {
        moved := TakeCoin(o);
      }
      assert Value() == Step(t, Spend(o));
      assert View() == Flats(Value())[depth + 1];
    }

    /** Takes the coin of an entry out of this cache. */
    method TakeCoin(o: OutPoint) returns (moved: Coin)
      requires Linked() && Metered() && o in cacheCoins
      modifies this`cacheCoins, this`cachedCoinsUsage
      ensures Under() == old(Under()) && Metered()
      ensures moved == old(cacheCoins)[o].coin && cacheCoins == SpentFrom(old(cacheCoins), o)
    {
      hide Usage;
      moved := cacheCoins[o].coin;
      UsageDrop(cacheCoins, o);
      UsageSet(cacheCoins, o, Entry(Spent, true, false));
      cachedCoinsUsage := cachedCoinsUsage - CoinUsage(moved);
      if cacheCoins[o].isFresh {
        cacheCoins := cacheCoins - {o};
      } else {
        cacheCoins := cacheCoins[o := Entry(Spent, true, false)];
      }
    }

    method UncacheCoin(o: OutPoint)
      requires Valid()
      modifies this`cacheCoins, this`cachedCoinsUsage
      ensures Valid() && Value() == Step(old(Value()), Uncache(depth, o))
      ensures View() == old(View()) && (o in cacheCoins ==> cacheCoins[o].isDirty || cacheCoins[o].isFresh)
    {
      hide TowerOk, LevelOk, Overlay, Flat, Usage;
      ghost var t := Value();
      ghost var under := Under();
      QuietStep(t, Uncache(depth, o));
      assert View() == Flats(t)[depth + 1];
      SetStack(Under(), Level(cacheCoins, hashBlock), Uncached(cacheCoins, o), 0);
      if o in cacheCoins && !cacheCoins[o].isDirty && !cacheCoins[o].isFresh {
        UsageDrop(cacheCoins, o);
        cachedCoinsUsage := cachedCoinsUsage - CoinUsage(cacheCoins[o].coin);
        cacheCoins := cacheCoins - {o};
      }
      assert Under() == under;
      assert View() == Flats(Value())[depth + 1];
    }

    method GetBestBlock() returns (best: int)
      requires Linked()
      modifies Caches()`hashBlock
      ensures Value() == ReadBest(old(Value()), depth + 1)
      ensures best == BestAt(old(Value()), depth + 1)
      decreases depth
    {
      ghost var under := Under();
      ghost var top := Level(cacheCoins, hashBlock);
      BestBelow(under, Value(), depth);
      ReadBestBelow(under, top, depth);
      if hashBlock == NULL_HASH {
        if below == null {
          hashBlock := db.best;
        } else {
          hashBlock := below.GetBestBlock();
        }
      }
      best := hashBlock;
    }

    method SetBestBlock(best: int)
      requires Linked()
      modifies this`hashBlock
      ensures Value() == SetBest(old(Value()), depth, best)
    {
      SetStack(Under(), Level(cacheCoins, hashBlock), map[], best);
      ghost var under := Under();
      hashBlock := best;
      assert Under() == under;
    }

    /** Merges one entry of a child; fails on a FRESH entry over an unspent coin. */
    method MergeEntry(o: OutPoint, e: Entry) returns (ok: bool)
      requires Linked()
      modifies this`cacheCoins, this`cachedCoinsUsage
      ensures Under() == old(Under()) && (old(Metered()) && ok ==> Metered())
      ensures ok <==> !(e.isDirty && e.isFresh && o in old(cacheCoins) && old(cacheCoins)[o].coin.Unspent?)
      ensures ok ==> Get(cacheCoins, o) == Merge(Get(old(cacheCoins), o), e)
      ensures forall p :: p != o ==> Get(cacheCoins, p) == Get(old(cacheCoins), p)
    {
      hide Usage, CoinUsage;
      if e.isDirty {
        if o !in cacheCoins {
          if !(e.isFresh && e.coin.Spent?) {
            UsageSet(cacheCoins, o, Entry(e.coin, true, e.isFresh));
            cacheCoins := cacheCoins[o := Entry(e.coin, true, e.isFresh)];
            cachedCoinsUsage := cachedCoinsUsage + CoinUsage(e.coin);
          }
        } else {
          if e.isFresh && cacheCoins[o].coin.Unspent? {
            return false;
          }
          cachedCoinsUsage := cachedCoinsUsage - CoinUsage(cacheCoins[o].coin);
          if cacheCoins[o].isFresh && e.coin.Spent? {
            UsageDrop(cacheCoins, o);
            cacheCoins := cacheCoins - {o};
          } else {
            UsageSet(cacheCoins, o, Entry(e.coin, true, cacheCoins[o].isFresh));
            cacheCoins := cacheCoins[o := Entry(e.coin, true, cacheCoins[o].isFresh)];
            cachedCoinsUsage := cachedCoinsUsage + CoinUsage(e.coin);
          }
        }
      }
      ok := true;
    }

    /** Merges the dirty entries of a child into this cache, in any order. It fails exactly when a FRESH
        flag was misapplied. */
    method BatchWrite(child: Cache, hash: int, erase: bool) returns (ok: bool)
      requires child.Linked() && child.below == this
      modifies this, child`cacheCoins
      ensures Under() == old(Under()) && (old(Metered()) && ok ==> Metered())
      ensures ok <==> forall o :: !Misapplied(old(cacheCoins), old(child.cacheCoins), o)
      ensures ok ==> cacheCoins == Merged(old(cacheCoins), old(child.cacheCoins)) && hashBlock == hash
      ensures ok ==> child.cacheCoins == if erase then map[] else old(child.cacheCoins)
    {
      ghost var was := cacheCoins;
      ghost var all := child.cacheCoins;
      var todo := child.cacheCoins.Keys;
      while todo != {}
        invariant todo <= all.Keys
        invariant forall o :: o in todo ==> Get(cacheCoins, o) == Get(was, o)
        invariant Under() == old(Under()) && (old(Metered()) ==> Metered())
        invariant forall o :: o !in todo ==> Get(cacheCoins, o) == MergeAt(was, all, o) && !Misapplied(was, all, o)
        invariant child.cacheCoins == if erase then map o | o in todo :: all[o] else all
      {
        var o :| o in todo;
        var e := child.cacheCoins[o];
        assert Get(cacheCoins, o) == Get(was, o);
        var merged := MergeEntry(o, e);
        if !merged {
          assert Misapplied(was, all, o);
          return false;
        }
        todo := todo - {o};
        if erase {
          child.cacheCoins := child.cacheCoins - {o};
        }
      }
      hashBlock := hash;
      MergedAt(was, all);
      SameEntries(cacheCoins, Merged(was, all));
      ok := true;
    }

    /** Writes every change back to the level below, which then shows what this cache shows. */
    method WriteBase(erase: bool) returns (ok: bool)
      requires Valid() && (below == null ==> db.Ready(hashBlock))
      modifies this`cacheCoins, db, if below == null then {} else {below}
      ensures ok && Linked() && hashBlock == old(hashBlock)
      ensures UnderMetered() && cachedCoinsUsage == old(cachedCoinsUsage)
      ensures cacheCoins == if erase then map[] else old(cacheCoins)
      ensures Under() == Fold(old(Value()))
    {
      hide TowerOk, LevelOk, Overlay, Flat, Usage;
      if below == null {
        ok := db.BatchWrite(this, hashBlock, erase, n => false);
      } else {
        ghost var lower := below.Under();
        assert below.Metered();
        assert Under() == Stack(lower, Level(below.cacheCoins, below.hashBlock));
        NeverMisapplied(below.Under(), Level(below.cacheCoins, below.hashBlock), Level(cacheCoins, hashBlock));
        ok := below.BatchWrite(this, hashBlock, erase);
      }
    }

    method FlushAll() returns (ok: bool)
      requires Valid() && (below == null ==> db.Ready(hashBlock))
      modifies this`cacheCoins, this`cachedCoinsUsage, db, if below == null then {} else {below}
      ensures ok && Valid() && cacheCoins == map[] && Value() == Flush(old(Value()), depth, true)
      ensures View() == old(View()) && Top(Under()) == old(View())
    {
      hide TowerOk, LevelOk, Overlay, Flat, Flush, Usage;
      ghost var t := Value();
      FlushFold(t, true);
      FlushKeeps(t, depth, true);
      ok := WriteBase(true);
      cachedCoinsUsage := 0;
      UsageNone();
      StackOk(Under(), Level(cacheCoins, hashBlock));
    }

    /** Drops the spent entries and clears the flags of the others. */
    method ClearFlags()
      requires Linked()
      modifies this`cacheCoins, this`cachedCoinsUsage
      ensures Under() == old(Under()) && (old(Metered()) ==> Metered())
      ensures cacheCoins == Cleaned(old(cacheCoins))
    {
      hide Usage, CoinUsage;
      ghost var was := cacheCoins;
      var todo := cacheCoins.Keys;
      while todo != {}
        invariant todo <= was.Keys
        invariant forall o :: o in todo ==> Get(cacheCoins, o) == Get(was, o)
        invariant forall o :: o !in todo ==> Get(cacheCoins, o) == Get(Cleaned(was), o)
        invariant Under() == old(Under()) && (old(Metered()) ==> Metered())
      {
        var o :| o in todo;
        assert Get(cacheCoins, o) == Get(was, o);
        UsageDrop(cacheCoins, o);
        UsageSet(cacheCoins, o, Entry(cacheCoins[o].coin, false, false));
        if cacheCoins[o].coin.Spent? {
          cachedCoinsUsage := cachedCoinsUsage - CoinUsage(cacheCoins[o].coin);
          cacheCoins := cacheCoins - {o};
        } else {
          cacheCoins := cacheCoins[o := Entry(cacheCoins[o].coin, false, false)];
        }
        todo := todo - {o};
      }
      SameEntries(cacheCoins, Cleaned(was));
    }

    method Sync() returns (ok: bool)
      requires Valid() && (below == null ==> db.Ready(hashBlock))
      modifies this`cacheCoins, this`cachedCoinsUsage, db, if below == null then {} else {below}
      ensures ok && Valid() && Value() == Flush(old(Value()), depth, false)
      ensures View() == old(View()) && Top(Under()) == old(View())
    {
      hide TowerOk, LevelOk, Overlay, Flat, Flush, Usage;
      ghost var t := Value();
      FlushFold(t, false);
      FlushKeeps(t, depth, false);
      ok := WriteBase(false);
      ClearFlags();
      StackOk(Under(), Level(cacheCoins, hashBlock));
    }

    /** Checks that only the five legal combinations of flags occur and adds up the memory of the coins; every
        valid cache passes. */
    method SanityCheck() returns (ok: bool)
      requires Linked()
      ensures ok <==>
                && (forall o :: o in cacheCoins ==> LegalFlags(cacheCoins[o]))
                && Usage(cacheCoins) == cachedCoinsUsage
      ensures Valid() ==> ok
    {
      hide Usage, TowerOk, Overlay;
      var todo := cacheCoins.Keys;
      var recomputed := 0;
      ok := true;
      ghost var left := cacheCoins;
      while todo != {}
        invariant todo <= cacheCoins.Keys && left == map o | o in todo :: cacheCoins[o]
        invariant ok <==> forall o :: o in cacheCoins && o !in todo ==> LegalFlags(cacheCoins[o])
        invariant recomputed + Usage(left) == Usage(cacheCoins)
      {
        var o :| o in todo;
        var e := cacheCoins[o];
        var attr := (if e.isDirty then 1 else 0) + (if e.isFresh then 2 else 0) + (if e.coin.Spent? then 4 else 0);
        if attr == 2 || attr == 4 || attr == 7 {
          ok := false;
        }
        UsageDrop(left, o);
        left := left - {o};
        recomputed := recomputed + CoinUsage(e.coin);
        todo := todo - {o};
      }
      UsageNone();
      if recomputed != cachedCoinsUsage {
        ok := false;
      }
      if Valid() {
        StackOk(Under(), Level(cacheCoins, hashBlock));
      }
    }
  }

  /** A refused addition leaves the memory miscounted: a coin with a script of 29 bytes is added, then another in
      its place without leave to overwrite. */
  method RefusalMiscounts() returns (first: bool, second: bool, sane: bool)
    ensures first && !second && !sane
  {
    hide TowerOk, LevelOk, Overlay, Flat, Usage, CoinUsage, Step;
    var db := new CoinsDb(n => false);
    var cache := new Cache.OnDb(db);
    var coin := Unspent(TxOut(1, seq(29, _ => 0)), 0, false, false, 0);
    var o := OutPoint(1, 0);
    LongScript(coin);
    assert !AddThrows(cache.cacheCoins, o, true);
    first := cache.AddCoin(o, coin, true);
    assert cache.Metered();
    second := cache.AddCoin(o, coin, false);
    assert EntryUsage(cache.cacheCoins, o) > 0;
    sane := cache.SanityCheck();
  }

  lemma LongScript(coin: Coin)
    requires coin.Unspent? && |coin.out.script| == 29
    ensures CoinUsage(coin) == 48
  {
  }

  /** The amount that marks a nulled-out output, which counts as spent. */
  const NULL_VALUE := -1

  datatype Tx = Tx(txid: int, outs: seq<TxOut>, coinBase: bool, coinStake: bool, time: int)

  /** The view shows the first `n` outputs that can be spent, each as its own coin with what the transaction and the
      block say about it, and is as it was elsewhere. */
  ghost predicate ShowsOutputs(view: Coins, was: Coins, tx: Tx, height: nat, n: nat)
    requires n <= |tx.outs|
  {
    forall o: OutPoint ::
      Get(view, o) == if o.txid == tx.txid && o.n < n && !IsUnspendable(tx.outs[o.n].script)
                      then Some(Unspent(tx.outs[o.n], height, tx.coinBase, tx.coinStake, tx.time))
                      else Get(was, o)
  }

  /** Adds every output of a transaction to the view. Overwriting is allowed for a coinbase, or where a
      look at the view asks for it; otherwise the caller vouches that the outputs are new. */
  method AddCoins(cache: Cache, tx: Tx, height: nat, checkForOverwrite: bool) returns (ok: bool)
    requires cache.Valid() && forall n :: 0 <= n < |tx.outs| ==> tx.outs[n].value != NULL_VALUE
    requires checkForOverwrite || tx.coinBase ||
             forall n :: 0 <= n < |tx.outs| ==> OutPoint(tx.txid, n) !in cache.View()
    modifies cache.Caches()`cacheCoins, cache.Caches()`cachedCoinsUsage
    ensures ok && cache.Valid()
    ensures ShowsOutputs(cache.View(), old(cache.View()), tx, height, |tx.outs|)
  {
    hide TowerOk, LevelOk, Overlay, Flat, Step;
    var i := 0;
    ok := true;
    while i < |tx.outs|
      invariant 0 <= i <= |tx.outs| && ok && cache.Valid()
      invariant ShowsOutputs(cache.View(), old(cache.View()), tx, height, i)
    {
      var o := OutPoint(tx.txid, i);
      var overwrite := tx.coinBase;
      if checkForOverwrite {
        overwrite := cache.HaveCoin(o);
      }
      assert Get(cache.View(), o) == Get(old(cache.View()), o);
      ghost var t := cache.Value();
      var coin := Unspent(tx.outs[i], height, tx.coinBase, tx.coinStake, tx.time);
      AddShows(t, o, coin, overwrite);
      ok := cache.AddCoin(o, coin, overwrite);
      i := i + 1;
    }
  }
}
