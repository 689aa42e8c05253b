/** One level of the coin cache hierarchy: entries with their DIRTY and FRESH flags against the view
    of the level below. */
module CoinsSpec {
  import opened Options

  datatype OutPoint = OutPoint(txid: int, n: nat)

  datatype TxOut = TxOut(value: int, script: seq<int>)

  /** A coin, or the nulled-out coin that is left of a spent one. */
  datatype Coin = Spent | Unspent(out: TxOut, height: nat, coinBase: bool, coinStake: bool, time: int)

  datatype Entry = Entry(coin: Coin, isDirty: bool, isFresh: bool)

  type Coins = map<OutPoint, Coin>
  type Entries = map<OutPoint, Entry>

  const OP_RETURN := 0x6a
  const MAX_SCRIPT_SIZE := 10000

  predicate IsUnspendable(script: seq<int>) {
    (|script| > 0 && script[0] == OP_RETURN) || |script| > MAX_SCRIPT_SIZE
  }

  /** A script cannot be spent if it starts with the opcode 0x6a or has more than ten thousand bytes. */
  lemma UnspendableIff(script: seq<int>)
    ensures IsUnspendable(script) <==> |script| >= 10001 || (script != [] && script[0] == 0x6a)
  {
  }

  function Get<K, V>(m: map<K, V>, k: K): Option<V> {
    if k in m then Some(m[k]) else None
  }

  /** The unspent coin an entry stands for, if any. */
  function Shown(e: Entry): Option<Coin> {
    if e.coin.Spent? then None else Some(e.coin)
  }

  /** What a level shows on top of what its parent shows: the one flat map from outpoints to coins. */
  ghost function Overlay(parent: Coins, cache: Entries): Coins {
    map o | o in parent.Keys + cache.Keys && At(parent, cache, o).Some? :: At(parent, cache, o).value
  }

  function At(parent: Coins, cache: Entries, o: OutPoint): Option<Coin> {
    if o in cache then Shown(cache[o]) else Get(parent, o)
  }

  lemma OverlayAt(parent: Coins, cache: Entries)
    ensures forall o :: Get(Overlay(parent, cache), o) == At(parent, cache, o)
  {
  }

  /** Two flat maps are equal when every lookup agrees. */
  lemma SameLookups(a: Coins, b: Coins)
    requires forall o :: Get(a, o) == Get(b, o)
    ensures a == b
  {
    forall o ensures o in a <==> o in b {
      assert Get(a, o) == Get(b, o);
    }
    forall o | o in a ensures a[o] == b[o] {
      assert Get(a, o) == Get(b, o);
    }
  }

  lemma SameEntries(a: Entries, b: Entries)
    requires forall o :: Get(a, o) == Get(b, o)
    ensures a == b
  {
    forall o ensures o in a <==> o in b {
      assert Get(a, o) == Get(b, o);
    }
    forall o | o in a ensures a[o] == b[o] {
      assert Get(a, o) == Get(b, o);
    }
  }

  /** The five combinations of flags and spentness that may occur. */
  predicate LegalFlags(e: Entry) {
    if e.coin.Spent? then e.isDirty != e.isFresh else e.isFresh ==> e.isDirty
  }

  /** DIRTY is set whenever the entry differs from the parent; FRESH only if the parent has no coin. */
  predicate EntryOk(e: Entry, below: Option<Coin>) {
    && LegalFlags(e)
    && (!e.isDirty ==> Shown(e) == below)
    && (e.isFresh ==> below == None)
  }

  ghost predicate LevelOk(parent: Coins, cache: Entries) {
    forall o :: o in cache ==> EntryOk(cache[o], Get(parent, o))
  }

  // ---------------------------------------------------------------- operations of one level

  /** Pulls a coin of the parent into the cache. */
  function Fetched(parent: Coins, cache: Entries, o: OutPoint): Entries {
    if o in cache || o !in parent then cache
    else cache[o := Entry(parent[o], false, parent[o].Spent?)]
  }

  lemma FetchKeeps(parent: Coins, cache: Entries, o: OutPoint)
    requires LevelOk(parent, cache) && Present(parent)
    ensures LevelOk(parent, Fetched(parent, cache, o))
    ensures Overlay(parent, Fetched(parent, cache, o)) == Overlay(parent, cache)
    ensures Get(Overlay(parent, cache), o) ==
            if o in Fetched(parent, cache, o) then Shown(Fetched(parent, cache, o)[o]) else None
  {
    OverlayAt(parent, cache);
    OverlayAt(parent, Fetched(parent, cache, o));
    SameLookups(Overlay(parent, cache), Overlay(parent, Fetched(parent, cache, o)));
  }

  /** A flat map holds unspent coins only. */
  ghost predicate Present(coins: Coins) {
    forall o :: o in coins ==> coins[o].Unspent?
  }

  lemma OverlayPresent(parent: Coins, cache: Entries)
    requires Present(parent)
    ensures Present(Overlay(parent, cache))
  {
  }

  /** Refused: an unspent coin is cached at `o` and overwriting was ruled out. */
  predicate AddThrows(cache: Entries, o: OutPoint, overwrite: bool) {
    !overwrite && o in cache && cache[o].coin.Unspent?
  }

  function Added(cache: Entries, o: OutPoint, coin: Coin, overwrite: bool): Entries {
    var e := if o in cache then cache[o] else Entry(Spent, false, false);
    var mayBeFresh := !overwrite && !e.isDirty;
    cache[o := Entry(coin, true, e.isFresh || mayBeFresh)]
  }

  /** Adding a coin shows it; it keeps the flags truthful exactly when overwriting is allowed, or the
      entry was already DIRTY, or the parent has no coin there. */
  lemma AddExact(parent: Coins, cache: Entries, o: OutPoint, coin: Coin, overwrite: bool)
    requires LevelOk(parent, cache) && coin.Unspent? && !AddThrows(cache, o, overwrite)
    ensures Overlay(parent, Added(cache, o, coin, overwrite)) == Overlay(parent, cache)[o := coin]
    ensures LevelOk(parent, Added(cache, o, coin, overwrite)) <==>
            overwrite || (o in cache && cache[o].isDirty) || o !in parent
  {
    var next := Added(cache, o, coin, overwrite);
    OverlayAt(parent, cache);
    OverlayAt(parent, next);
    SameLookups(Overlay(parent, next), Overlay(parent, cache)[o := coin]);
    assert LevelOk(parent, next) ==> EntryOk(next[o], Get(parent, o));
  }

  /** The caller's side of the bargain: without overwriting there is no coin in the whole view. */
  lemma AddAllowed(parent: Coins, cache: Entries, o: OutPoint, coin: Coin, overwrite: bool)
    requires LevelOk(parent, cache) && coin.Unspent? && (overwrite || o !in Overlay(parent, cache))
    ensures !AddThrows(cache, o, overwrite)
    ensures LevelOk(parent, Added(cache, o, coin, overwrite))
    ensures Overlay(parent, Added(cache, o, coin, overwrite)) == Overlay(parent, cache)[o := coin]
  {
    OverlayAt(parent, cache);
    assert Get(Overlay(parent, cache), o) == At(parent, cache, o);
    AddExact(parent, cache, o, coin, overwrite);
  }

  /** Spends the entry that fetching brought in, if any. */
  function SpentFrom(cache: Entries, o: OutPoint): Entries {
    if o !in cache then cache
    else if cache[o].isFresh then cache - {o}
    else cache[o := Entry(Spent, true, false)]
  }

  lemma SpendKeeps(parent: Coins, cache: Entries, o: OutPoint)
    requires LevelOk(parent, cache) && (o in cache || o !in parent)
    ensures LevelOk(parent, SpentFrom(cache, o))
    ensures Overlay(parent, SpentFrom(cache, o)) == Overlay(parent, cache) - {o}
    ensures o in SpentFrom(cache, o) <==> o in cache && !cache[o].isFresh
  {
    var next := SpentFrom(cache, o);
    OverlayAt(parent, cache);
    OverlayAt(parent, next);
    SameLookups(Overlay(parent, next), Overlay(parent, cache) - {o});
  }

  function Uncached(cache: Entries, o: OutPoint): Entries {
    if o in cache && !cache[o].isDirty && !cache[o].isFresh then cache - {o} else cache
  }

  lemma UncacheKeeps(parent: Coins, cache: Entries, o: OutPoint)
    requires LevelOk(parent, cache)
    ensures LevelOk(parent, Uncached(cache, o))
    ensures Overlay(parent, Uncached(cache, o)) == Overlay(parent, cache)
    ensures o in Uncached(cache, o) <==> o in cache && (cache[o].isDirty || cache[o].isFresh)
  {
    OverlayAt(parent, cache);
    OverlayAt(parent, Uncached(cache, o));
    SameLookups(Overlay(parent, Uncached(cache, o)), Overlay(parent, cache));
  }

  // ---------------------------------------------------------------- writing a child back

  /** The "FRESH flag misapplied" condition: the child says the parent has no coin, but it has one cached. */
  predicate Misapplied(us: Entries, child: Entries, o: OutPoint) {
    o in child && child[o].isDirty && child[o].isFresh && o in us && us[o].coin.Unspent?
  }

  /** What becomes of the parent's entry when a child entry is written back. */
  function Merge(us: Option<Entry>, e: Entry): Option<Entry> {
    if !e.isDirty then us
    else match us
      case None => if e.isFresh && e.coin.Spent? then None else Some(Entry(e.coin, true, e.isFresh))
      case Some(u) => if u.isFresh && e.coin.Spent? then None else Some(Entry(e.coin, true, u.isFresh))
  }

  function MergeAt(us: Entries, child: Entries, o: OutPoint): Option<Entry> {
    if o in child then Merge(Get(us, o), child[o]) else Get(us, o)
  }

  /** The parent's cache after every child entry has been written back. */
  ghost function Merged(us: Entries, child: Entries): Entries {
    map o | o in us.Keys + child.Keys && MergeAt(us, child, o).Some? :: MergeAt(us, child, o).value
  }

  lemma MergedAt(us: Entries, child: Entries)
    ensures forall o :: Get(Merged(us, child), o) == MergeAt(us, child, o)
  {
  }

  /** Writing back one truthful entry over a truthful entry keeps the parent truthful towards the
      grandparent and makes it show what the child showed. What the grandparent is known to lack stays known, and a
      spent coin of that kind leaves no entry. */
  lemma MergeOne(grand: Option<Coin>, us: Option<Entry>, e: Entry)
    requires us.Some? ==> EntryOk(us.value, grand)
    requires EntryOk(e, if us.Some? then Shown(us.value) else grand)
    ensures !(e.isDirty && e.isFresh && us.Some? && us.value.coin.Unspent?)
    ensures Merge(us, e).Some? ==> EntryOk(Merge(us, e).value, grand)
    ensures (if Merge(us, e).Some? then Shown(Merge(us, e).value) else grand) == Shown(e)
    ensures var lacks := if us.Some? then us.value.isFresh else e.isFresh;
            e.isDirty ==> if lacks && e.coin.Spent? then Merge(us, e) == None
                          else Merge(us, e).Some? && Merge(us, e).value.isFresh == lacks
  {
  }

  lemma MergeKeeps(grand: Coins, us: Entries, child: Entries)
    requires LevelOk(grand, us) && LevelOk(Overlay(grand, us), child)
    ensures forall o :: !Misapplied(us, child, o)
    ensures LevelOk(grand, Merged(us, child))
    ensures Overlay(grand, Merged(us, child)) == Overlay(Overlay(grand, us), child)
  {
    OverlayAt(grand, us);
    MergedAt(us, child);
    forall o | o in child
      ensures !Misapplied(us, child, o)
      ensures MergeAt(us, child, o).Some? ==> EntryOk(MergeAt(us, child, o).value, Get(grand, o))
      ensures (if MergeAt(us, child, o).Some? then Shown(MergeAt(us, child, o).value) else Get(grand, o)) ==
              Shown(child[o])
    {
      assert Get(Overlay(grand, us), o) == At(grand, us, o);
      MergeOne(Get(grand, o), Get(us, o), child[o]);
    }
    MergeLevel(grand, us, child);
    MergeShows(grand, us, child);
  }

  lemma MergeLevel(grand: Coins, us: Entries, child: Entries)
    requires LevelOk(grand, us)
    requires forall o :: o in child && MergeAt(us, child, o).Some? ==>
               EntryOk(MergeAt(us, child, o).value, Get(grand, o))
    ensures LevelOk(grand, Merged(us, child))
  {
    MergedAt(us, child);
    forall o | o in Merged(us, child) ensures EntryOk(Merged(us, child)[o], Get(grand, o)) {
      assert Get(Merged(us, child), o) == MergeAt(us, child, o);
    }
  }

  lemma MergeShows(grand: Coins, us: Entries, child: Entries)
    requires forall o :: o in child ==>
               (if MergeAt(us, child, o).Some? then Shown(MergeAt(us, child, o).value) else Get(grand, o)) ==
                   Shown(child[o])
    ensures Overlay(grand, Merged(us, child)) == Overlay(Overlay(grand, us), child)
  {
    var m := Merged(us, child);
    OverlayAt(grand, us);
    OverlayAt(grand, m);
    OverlayAt(Overlay(grand, us), child);
    MergedAt(us, child);
    forall o ensures Get(Overlay(grand, m), o) == Get(Overlay(Overlay(grand, us), child), o) {
      assert Get(m, o) == MergeAt(us, child, o);
    }
    SameLookups(Overlay(grand, m), Overlay(Overlay(grand, us), child));
  }

  /** The database after a batch: dirty spent coins erased, dirty unspent coins written. */
  ghost function Written(db: Coins, child: Entries): Coins {
    map o | o in db.Keys + child.Keys && WrittenAt(db, child, o).Some? :: WrittenAt(db, child, o).value
  }

  function WrittenAt(db: Coins, child: Entries, o: OutPoint): Option<Coin> {
    if o in child && child[o].isDirty then Shown(child[o]) else Get(db, o)
  }

  lemma WrittenIs(db: Coins, child: Entries)
    requires LevelOk(db, child)
    ensures Written(db, child) == Overlay(db, child)
  {
    OverlayAt(db, child);
    forall o ensures Get(Written(db, child), o) == Get(Overlay(db, child), o) {
      assert Get(Overlay(db, child), o) == At(db, child, o);
    }
    SameLookups(Written(db, child), Overlay(db, child));
  }

  /** The cache after Sync: unspent coins stay, with their flags cleared. */
  function Cleaned(cache: Entries): Entries {
    map o | o in cache && cache[o].coin.Unspent? :: Entry(cache[o].coin, false, false)
  }

  lemma CleanKeeps(parent: Coins, cache: Entries)
    ensures LevelOk(Overlay(parent, cache), Cleaned(cache))
    ensures Overlay(Overlay(parent, cache), Cleaned(cache)) == Overlay(parent, cache)
    ensures forall o :: o in Cleaned(cache) <==> o in cache && cache[o].coin.Unspent?
    ensures LevelOk(Overlay(parent, cache), map[])
    ensures Overlay(Overlay(parent, cache), map[]) == Overlay(parent, cache)
  {
    var flat := Overlay(parent, cache);
    OverlayAt(parent, cache);
    OverlayAt(flat, Cleaned(cache));
    OverlayAt(flat, map[]);
    forall o | o in Cleaned(cache) ensures EntryOk(Cleaned(cache)[o], Get(flat, o)) {
      assert Get(flat, o) == At(parent, cache, o);
    }
    forall o ensures Get(Overlay(flat, Cleaned(cache)), o) == Get(flat, o) {
      assert Get(flat, o) == At(parent, cache, o);
    }
    SameLookups(Overlay(flat, Cleaned(cache)), flat);
    SameLookups(Overlay(flat, map[]), flat);
  }
}
