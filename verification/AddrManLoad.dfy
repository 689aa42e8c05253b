/** Reading the file of the address manager: any file is handled without a fault, what is accepted is
    consistent, and a saved address manager comes back as it was. */
module AddrManLoad {
  import opened AddrManCheck
  import opened AddrManFile
  import opened AddrManObject
  import opened AddrManPrune
  import opened AddrManReload
  import opened AddrManRoutable
  import opened AddrManRuns
  import opened AddrManSpec
  import opened AddrManSteps
  import opened AddrManStore
  import opened Options

  datatype LoadResult =
    | Loaded
    | BadCompat
    | UnsupportedVersion
    | BadCount
    | EndOfData
    | Inconsistent(code: int)

  /** The number of buckets the file says it has. */
  function BucketCount(f: File): int {
    if f.format >= 1 then Mark(f.bucketField) else f.bucketField
  }

  predicate Restorable(p: Params, f: File) {
    BucketCount(f) == p.newBuckets && (if f.format >= 2 then f.asmap else 0) == p.asmapChecksum
  }

  /** What is checked before any entry is read. */
  function Header(p: Params, f: File): LoadResult {
    if f.compat < INCOMPATIBILITY_BASE then BadCompat
    else if f.compat - INCOMPATIBILITY_BASE > FILE_FORMAT then UnsupportedVersion
    else if f.nNew > p.newBuckets * p.bucketSize || f.nNew < 0 then BadCount
    else if f.nTried > p.triedBuckets * p.bucketSize || f.nTried < 0 then BadCount
    else if |f.news| < f.nNew || |f.trieds| < f.nTried || |f.buckets| < BucketCount(f) then EndOfData
    else LoadResult.Loaded
  }

  /** Entries are numbered from 0 and `random` lists them. */
  ghost predicate Numbered(s: State) {
    && 0 <= s.idCount && RandomOk(s.info, s.random)
    && forall id :: id in s.info <==> 0 <= id.n < s.idCount
  }

  lemma LoadedNumbered(p: Params, s: State, r: Record)
    requires Numbered(s)
    ensures Numbered(AddrManFile.Loaded(p, s, r))
  {
    hide RandomOk;
    var id := NodeId(s.idCount);
    var u := AddrManFile.Loaded(p, s, r);
    RandomPush(s.info, s.random, id, u.info[id]);
    assert u.info == s.info[id := u.info[id]];
  }

  lemma LoadedTriedNumbered(p: Params, s: State, r: Record)
    requires Numbered(s)
    ensures Numbered(LoadedTried(p, s, r)) && s.idCount <= LoadedTried(p, s, r).idCount
  {
    hide RandomOk;
    if Takes(p, s, r) {
      LoadedNumbered(p, s, r);
      var id := NodeId(s.idCount);
      var u := AddrManFile.Loaded(p, s, r);
      RandomUpdate(u.info, u.random, id, u.info[id].(inTried := true));
    }
  }

  lemma {:induction false} NewsNumbered(p: Params, s: State, rs: seq<Record>)
    requires Numbered(s)
    ensures Numbered(LoadNews(p, s, rs)) && LoadNews(p, s, rs).idCount == s.idCount + |rs|
    decreases |rs|
  {
    hide Numbered;
    if rs != [] {
      NewsNumbered(p, s, rs[..|rs| - 1]);
      LoadedNumbered(p, LoadNews(p, s, rs[..|rs| - 1]), rs[|rs| - 1]);
    }
  }

  lemma {:induction false} TriedsNumbered(p: Params, s: State, rs: seq<Record>)
    requires Numbered(s)
    ensures Numbered(LoadTrieds(p, s, rs)) && s.idCount <= LoadTrieds(p, s, rs).idCount
    decreases |rs|
  {
    hide Numbered;
    if rs != [] {
      TriedsNumbered(p, s, rs[..|rs| - 1]);
      LoadedTriedNumbered(p, LoadTrieds(p, s, rs[..|rs| - 1]), rs[|rs| - 1]);
    }
  }

  lemma {:induction false} RowInRange(bucket: int, row: seq<int>, nNew: int)
    ensures forall r :: r in RowRefs(bucket, row, nNew) ==> 0 <= r.index < nNew && r.bucket == bucket
    decreases |row|
  {
    if row != [] {
      RowInRange(bucket, row[..|row| - 1], nNew);
    }
  }

  lemma {:induction false} RefsInRange(buckets: seq<seq<int>>, nNew: int)
    ensures forall r :: r in AllRefs(buckets, nNew) ==> 0 <= r.index < nNew && 0 <= r.bucket < |buckets|
    decreases |buckets|
  {
    if buckets != [] {
      RefsInRange(buckets[..|buckets| - 1], nNew);
      RowInRange(|buckets| - 1, buckets[|buckets| - 1], nNew);
    }
  }

  /** The entries of a file with a good header. */
  ghost function LoadEntries(p: Params, f: File): State
    requires Header(p, f).Loaded?
  {
    LoadTrieds(p, LoadNews(p, Empty(f.key), f.news[..f.nNew]), f.trieds[..f.nTried])
  }

  ghost function StoredRefs(p: Params, f: File): seq<Ref>
    requires Header(p, f).Loaded?
  {
    var n := BucketCount(f);
    AllRefs(f.buckets[..if n < 0 then 0 else n], f.nNew)
  }

  lemma EntriesNumbered(p: Params, f: File)
    requires Header(p, f).Loaded?
    ensures Numbered(LoadEntries(p, f))
    ensures forall r :: r in StoredRefs(p, f) ==> NodeId(r.index) in LoadEntries(p, f).info
    ensures forall r :: r in StoredRefs(p, f) && Restorable(p, f) ==> 0 <= r.bucket < p.newBuckets
  {
    assert Numbered(Empty(f.key));
    NewsNumbered(p, Empty(f.key), f.news[..f.nNew]);
    TriedsNumbered(p, LoadNews(p, Empty(f.key), f.news[..f.nNew]), f.trieds[..f.nTried]);
    var n := BucketCount(f);
    hide BucketCount, LoadNews, LoadTrieds, AllRefs;
    RefsInRange(f.buckets[..if n < 0 then 0 else n], f.nNew);
  }

  /** The state after reading, before entries without a slot are pruned. */
  ghost function LoadFile(p: Params, f: File): State
    requires Header(p, f).Loaded?
  {
    EntriesNumbered(p, f);
    LoadRefs(p, LoadEntries(p, f), Restorable(p, f), StoredRefs(p, f))
  }

  /** No entry holds a slot of the new table yet. */
  ghost predicate NoneHeld(s: State) {
    s.newTab == map[] && forall id :: id in s.info ==> s.info[id].refCount == 0
  }

  lemma {:induction false} NewsHoldNone(p: Params, s: State, rs: seq<Record>)
    requires NoneHeld(s)
    ensures NoneHeld(LoadNews(p, s, rs))
  {
    if rs != [] { NewsHoldNone(p, s, rs[..|rs| - 1]); }
  }

  lemma {:induction false} TriedsHoldNone(p: Params, s: State, rs: seq<Record>)
    requires NoneHeld(s)
    ensures NoneHeld(LoadTrieds(p, s, rs))
  {
    if rs != [] { TriedsHoldNone(p, s, rs[..|rs| - 1]); }
  }

  /** A file of another bucket count or another asmap, or too old to name one, does not decide where entries go: each
      slot of the new table is the one that the source of its entry assigns. */
  lemma OtherBuckets(p: Params, f: File)
    requires Header(p, f).Loaded?
    requires || BucketCount(f) != p.newBuckets
             || if f.format < 2 then p.asmapChecksum != 0 else f.asmap != p.asmapChecksum
    ensures OwnSlotsOnly(p, LoadFile(p, f))
  {
    hide LoadNews, LoadTrieds, LoadRefs, AllRefs;
    EntriesNumbered(p, f);
    var news := LoadNews(p, Empty(f.key), f.news[..f.nNew]);
    NewsHoldNone(p, Empty(f.key), f.news[..f.nNew]);
    TriedsHoldNone(p, news, f.trieds[..f.nTried]);
    Rebucketed(p, LoadEntries(p, f), StoredRefs(p, f));
  }

  // ---------------------------------------------------------------- record by record

  method LoadNewRecord(m: AddrMan, n: int, r: Record)
    modifies m
    ensures m.View().(idCount := n + 1, nNew := n + 1) ==
            AddrManFile.Loaded(m.p, old(m.View()).(idCount := n, nNew := n), r)
    ensures m.nIdCount == old(m.nIdCount) && m.nNew == old(m.nNew)
  {
    hide Table, Bump;
    var id := NodeId(n);
    var i := EntryOf(r, false, |m.vRandom|);
    m.mapInfo := m.mapInfo[id := i];
    m.mapAddr := m.mapAddr[r.addr := id];
    m.vRandom := m.vRandom + [id];
    m.networkCounts := Bump(m.networkCounts, m.p.network(r.addr), 1, 0);
  }

  method LoadTriedRecord(m: AddrMan, r: Record, ghost nTried: int) returns (kept: bool)
    requires m.Shape() && 0 <= m.nIdCount
    modifies m, m.vvTried
    ensures kept == Takes(m.p, old(m.View()), r) && m.nTried == old(m.nTried)
    ensures m.View().(nTried := if kept then nTried + 1 else nTried) ==
            LoadedTried(m.p, old(m.View()).(nTried := nTried), r)
  {
    hide Table, Bump, EntryOf;
    ghost var s := m.View().(nTried := nTried);
    var sl := TriedSlot(m.p, m.nKey, r.addr);
    Occupied(m.vvTried, sl);
    kept := m.p.valid(r.addr) && m.vvTried[sl.bucket, sl.pos] == EMPTY;
    if kept {
      LoadedTriedIs(m.p, s, r);
      hide LoadedTried;
      SeatRecord(m, r, sl);
    }
  }

  /** Makes a record the next entry, in a slot of the tried table. */
  method SeatRecord(m: AddrMan, r: Record, sl: Slot)
    requires m.Shape() && InTable(m.vvTried, sl) && 0 <= m.nIdCount
    modifies m, m.vvTried
    ensures m.View() ==
            old(m.View()).(idCount := old(m.nIdCount) + 1,
               info := old(m.mapInfo)[NodeId(old(m.nIdCount)) := EntryOf(r, true, |old(m.vRandom)|)],
               ids := old(m.mapAddr)[r.addr := NodeId(old(m.nIdCount))],
               random := old(m.vRandom) + [NodeId(old(m.nIdCount))],
               triedTab := old(m.View()).triedTab[sl := NodeId(old(m.nIdCount))],
               counts := Bump(old(m.networkCounts), m.p.network(r.addr), 0, 1))
  {
    hide Table, Bump, EntryOf;
    var id := NodeId(m.nIdCount);
    m.mapInfo := m.mapInfo[id := EntryOf(r, true, |m.vRandom|)];
    m.vRandom := m.vRandom + [id];
    m.mapAddr := m.mapAddr[r.addr := id];
    SetSlot(m.vvTried, sl, id.n);
    m.nIdCount := m.nIdCount + 1;
    m.networkCounts := Bump(m.networkCounts, m.p.network(r.addr), 0, 1);
  }

  method LoadOneRef(m: AddrMan, restore: bool, bucket: int, k: int)
    requires m.Shape() && NodeId(k) in m.mapInfo && 0 <= k && (restore ==> 0 <= bucket < m.p.newBuckets)
    modifies m, m.vvNew
    ensures m.View() == LoadedRef(m.p, old(m.View()), restore, bucket, NodeId(k))
  {
    hide Table;
    var id := NodeId(k);
    var i := m.mapInfo[id];
    if !m.p.valid(i.addr) { return; }
    if i.refCount >= NEW_BUCKETS_PER_ADDRESS { return; }
    var sl := NewSlotIn(m.p, m.nKey, i.addr, bucket);
    if restore {
      Occupied(m.vvNew, sl);
    }
    if !(restore && m.vvNew[sl.bucket, sl.pos] == EMPTY) {
      sl := NewSlot(m.p, m.nKey, i.addr, i.source);
      Occupied(m.vvNew, sl);
      if m.vvNew[sl.bucket, sl.pos] != EMPTY { return; }
    }
    SetSlot(m.vvNew, sl, k);
    m.mapInfo := m.mapInfo[id := i.(refCount := i.refCount + 1)];
  }

  // ---------------------------------------------------------------- the loops

  method ReadNews(m: AddrMan, f: File)
    requires m.View() == Empty(f.key).(nNew := f.nNew, nTried := f.nTried) && 0 <= f.nNew <= |f.news|
    modifies m
    ensures m.View().(nTried := 0) == LoadNews(m.p, Empty(f.key), f.news[..f.nNew]) && m.nTried == f.nTried
  {
    hide Table, AddrManFile.Loaded;
    ghost var s0 := Empty(f.key);
    var n := 0;
    assert m.View().(idCount := 0, nNew := 0, nTried := 0) == s0;
    while n < f.nNew
      invariant 0 <= n <= f.nNew && m.nNew == f.nNew && m.nTried == f.nTried && m.nIdCount == 0
      invariant m.View().(idCount := n, nNew := n, nTried := 0) == LoadNews(m.p, s0, f.news[..n])
    {
      assert f.news[..n + 1][..n] == f.news[..n] && f.news[..n + 1][n] == f.news[n];
      ghost var s := m.View().(idCount := n, nNew := n);
      LoadedTriedCount(m.p, s, f.news[n]);
      LoadNewRecord(m, n, f.news[n]);
      n := n + 1;
    }
    m.nIdCount := f.nNew;
  }

  /** Reading a new record does not look at the number of tried entries. */
  lemma LoadedTriedCount(p: Params, s: State, r: Record)
    ensures AddrManFile.Loaded(p, s, r).(nTried := 0) == AddrManFile.Loaded(p, s.(nTried := 0), r)
    ensures AddrManFile.Loaded(p, s, r).nTried == s.nTried
  {
  }

  method ReadTrieds(m: AddrMan, f: File)
    requires m.Shape() && 0 <= f.nTried <= |f.trieds| && m.nTried == f.nTried && Numbered(m.View())
    modifies m, m.vvTried
    ensures m.View() == LoadTrieds(m.p, old(m.View()).(nTried := 0), f.trieds[..f.nTried])
  {
    hide Table, LoadedTried, RandomOk;
    ghost var s0 := m.View().(nTried := 0);
    var lost := 0;
    var n := 0;
    while n < f.nTried
      invariant 0 <= n <= f.nTried && m.nTried == f.nTried && Numbered(m.View())
      invariant m.View().(nTried := n - lost) == LoadTrieds(m.p, s0, f.trieds[..n])
    {
      assert f.trieds[..n + 1][..n] == f.trieds[..n] && f.trieds[..n + 1][n] == f.trieds[n];
      LoadedTriedNumbered(m.p, m.View().(nTried := n - lost), f.trieds[n]);
      var kept := LoadTriedRecord(m, f.trieds[n], n - lost);
      if !kept { lost := lost + 1; }
      n := n + 1;
    }
    m.nTried := m.nTried - lost;
  }

  method ReadRefs(m: AddrMan, restore: bool, refs: seq<Ref>)
    requires m.Shape() && Numbered(m.View())
    requires forall r :: r in refs ==> NodeId(r.index) in m.mapInfo && (restore ==> 0 <= r.bucket < m.p.newBuckets)
    modifies m, m.vvNew
    ensures m.View() == LoadRefs(m.p, old(m.View()), restore, refs) && Numbered(m.View())
  {
    hide Table, LoadedRef, RandomOk;
    ghost var s0 := m.View();
    var n := 0;
    while n < |refs|
      invariant 0 <= n <= |refs| && Numbered(m.View()) && m.mapInfo.Keys == s0.info.Keys
      invariant m.View() == LoadRefs(m.p, s0, restore, refs[..n])
    {
      var r := refs[n];
      assert r in refs && refs[..n + 1][..n] == refs[..n] && refs[..n + 1][n] == r;
      assert NodeId(r.index) in m.mapInfo.Keys;
      RefNumbered(m.p, m.View(), restore, r.bucket, NodeId(r.index));
      LoadOneRef(m, restore, r.bucket, r.index);
      n := n + 1;
    }
    assert refs[..n] == refs;
  }

  lemma RefNumbered(p: Params, s: State, restore: bool, bucket: int, id: NodeId)
    requires Numbered(s) && id in s.info
    ensures Numbered(LoadedRef(p, s, restore, bucket, id)) &&
            LoadedRef(p, s, restore, bucket, id).info.Keys == s.info.Keys
  {
    hide RandomOk;
    match RefSlot(p, s, restore, bucket, id)
    case Some(sl) => RandomUpdate(s.info, s.random, id, s.info[id].(refCount := s.info[id].refCount + 1));
    case None =>
  }

  /** The list of stored references in range, bucket by bucket. */
  method CollectRefs(buckets: seq<seq<int>>, count: int, nNew: int) returns (refs: seq<Ref>)
    requires count <= |buckets|
    ensures refs == AllRefs(buckets[..if count < 0 then 0 else count], nNew)
  {
    refs := [];
    var b := 0;
    while b < count
      invariant 0 <= b && (b <= count || b == 0) && refs == AllRefs(buckets[..b], nNew)
    {
      ghost var before := refs;
      var row := buckets[b];
      var n := 0;
      assert before + RowRefs(b, row[..0], nNew) == before;
      while n < |row|
        invariant 0 <= n <= |row| && refs == before + RowRefs(b, row[..n], nNew)
      {
        assert row[..n + 1] == row[..n] + [row[n]];
        RowNext(b, row[..n], row[n], nNew);
        if 0 <= row[n] < nNew {
          refs := refs + [Ref(b, row[n])];
        }
        n := n + 1;
      }
      assert row[..n] == row && buckets[..b + 1] == buckets[..b] + [row];
      BucketsNext(buckets[..b], row, nNew);
      b := b + 1;
    }
  }

  // ---------------------------------------------------------------- the whole file

  /** Loads a file into an empty address manager. Whatever the file, nothing is accessed out of bounds and a
      bad header is refused; the entries that found no slot are left out; what passes the check is sound. */
  method Unserialize(m: AddrMan, f: File) returns (r: LoadResult)
    requires m.Shape() && m.View() == Empty(m.nKey)
    modifies m, m.vvNew, m.vvTried
    ensures !Header(m.p, f).Loaded? ==> r == Header(m.p, f)
    ensures Header(m.p, f).Loaded? ==>
              && Without(m.p, LoadFile(m.p, f), m.View(), Unplaced(LoadFile(m.p, f).info))
              && (r.Loaded? <==> Checked(m.p, m.View()))
              && (Unplaced(LoadFile(m.p, f).info) == {} ==> m.View() == LoadFile(m.p, f))
    ensures r.Loaded? ==> Sound(m.p, m.View()) && TimesOk(m.mapInfo) && m.nKey != 0
  {
    hide Table, LoadNews, LoadTrieds, AllRefs, Numbered, Checked, Unplaced, Mark, Unchecked, Without, Sound, TimesOk;
    r := Header(m.p, f);
    if !r.Loaded? { return; }
    EntriesNumbered(m.p, f);
    EmptyNumbered(m.p, f);
    m.nKey, m.nNew, m.nTried := f.key, f.nNew, f.nTried;
    ReadNews(m, f);
    NumberedSame(m.View(), 0);
    ReadTrieds(m, f);
    var refs := CollectRefs(f.buckets, BucketCount(f), f.nNew);
    EntriesStored(m.p, f);
    ReadRefs(m, Restorable(m.p, f), refs);
    assert m.View() == LoadFile(m.p, f);
    NumberedRandom(m.View());
    FileUnchecked(m.p, f);
    Prune(m);
    var code := CheckAddrman(m);
    if code != 0 {
      r := Inconsistent(code);
    } else {
      WithoutCollisions(m.p, LoadFile(m.p, f), m.View(), Unplaced(LoadFile(m.p, f).info));
      AcceptedSound(m.p, m.View());
    }
  }

  lemma FileUnchecked(p: Params, f: File)
    requires Header(p, f).Loaded?
    ensures Unchecked(p, LoadFile(p, f)) && LoadFile(p, f).collisions == {}
  {
    hide Unchecked, AllRefs, LoadNews, LoadTrieds, LoadRefs, Numbered;
    EntriesNumbered(p, f);
    var news := LoadNews(p, Empty(f.key), f.news[..f.nNew]);
    EmptyUnchecked(p, f.key);
    NewsUnchecked(p, Empty(f.key), f.news[..f.nNew]);
    TriedsUnchecked(p, news, f.trieds[..f.nTried]);
    RefsUnchecked(p, LoadEntries(p, f), Restorable(p, f), StoredRefs(p, f));
    NewsCollisions(p, Empty(f.key), f.news[..f.nNew]);
    TriedsCollisions(p, news, f.trieds[..f.nTried]);
    RefsCollisions(p, LoadEntries(p, f), Restorable(p, f), StoredRefs(p, f));
  }

  lemma {:induction false} NewsCollisions(p: Params, s: State, rs: seq<Record>)
    ensures LoadNews(p, s, rs).collisions == s.collisions
    decreases |rs|
  {
    if rs != [] { NewsCollisions(p, s, rs[..|rs| - 1]); }
  }

  lemma {:induction false} TriedsCollisions(p: Params, s: State, rs: seq<Record>)
    ensures LoadTrieds(p, s, rs).collisions == s.collisions
    decreases |rs|
  {
    if rs != [] { TriedsCollisions(p, s, rs[..|rs| - 1]); }
  }

  lemma {:induction false} RefsCollisions(p: Params, s: State, restore: bool, refs: seq<Ref>)
    requires forall r :: r in refs ==> NodeId(r.index) in s.info
    ensures LoadRefs(p, s, restore, refs).collisions == s.collisions
    decreases |refs|
  {
    if refs != [] { RefsCollisions(p, s, restore, refs[..|refs| - 1]); }
  }

  /** What loading keeps, and the check confirms, is soundness: no collisions wait after a load. */
  lemma AcceptedSound(p: Params, s: State)
    requires Checked(p, s) && Unchecked(p, s) && s.collisions == {}
    ensures Sound(p, s) && TimesOk(s.info) && s.key != 0
  {
    hide Inv, Unchecked, TimesOk, EntriesChecked, TriedChecked, NewChecked, NetsChecked;
    CheckedBack(p, s);
  }

  /** Whatever was loaded, the check goes on passing over every run of operations. */
  method LoadAndRun(m: AddrMan, f: File, ops: seq<Op>) returns (r: LoadResult, code: int)
    requires m.Shape() && m.View() == Empty(m.nKey) && forall op :: op in ops ==> Positive(op)
    modifies m, m.vvNew, m.vvTried
    ensures r.Loaded? ==> code == 0 && Sound(m.p, m.View())
  {
    hide Sound, TimesOk, Checked, Without, LoadFile, Table, Positive, Run, Header;
    code := 0;
    r := Unserialize(m, f);
    if r.Loaded? {
      code := RunAndCheck(m, ops);
    }
  }

  lemma EmptyNumbered(p: Params, f: File)
    requires Header(p, f).Loaded?
    ensures Numbered(LoadNews(p, Empty(f.key), f.news[..f.nNew]))
  {
    assert Numbered(Empty(f.key));
    NewsNumbered(p, Empty(f.key), f.news[..f.nNew]);
  }

  lemma NumberedSame(s: State, nTried: int)
    ensures Numbered(s) <==> Numbered(s.(nTried := nTried))
  {
    hide RandomOk;
  }

  lemma NumberedRandom(s: State)
    requires Numbered(s)
    ensures RandomOk(s.info, s.random)
  {
  }

  lemma EntriesStored(p: Params, f: File)
    requires Header(p, f).Loaded?
    ensures StoredRefs(p, f) == AllRefs(f.buckets[..if BucketCount(f) < 0 then 0 else BucketCount(f)], f.nNew)
  {
  }

  /** Saving and loading with the same parameters gives back a consistent address manager with the
      same addresses in the same slots. */
  method SaveAndReload(m: AddrMan) returns (r: LoadResult, again: AddrMan)
    requires m.Shape() && Inv(m.p, m.View(), {}, {}) && TimesOk(m.mapInfo) && m.nKey != 0
    requires forall id :: id in m.mapInfo ==> m.p.valid(m.mapInfo[id].addr)
    ensures fresh(again) && again.p == m.p && again.Shape()
    ensures r.Loaded? && Inv(again.p, again.View(), {}, {}) && SameContents(m.p, m.View(), again.View())
  {
    hide Inv, Table, SameContents, Checked, Reload, LoadFile, Saved, TimesOk;
    var f, all := Serialize(m);
    ghost var s := m.View();
    again := new AddrMan(m.p, 0);
    SavedLoads(m.p, s, f, all);
    r := Unserialize(again, f);
  }

  /** Whatever was done to a new address manager, it is saved and loaded without loss. */
  method RunAndReload(p: Params, key: int, ops: seq<Op>) returns (r: LoadResult, again: AddrMan)
    requires key != 0 && (forall op :: op in ops ==> Positive(op)) && forall a :: p.routable(a) ==> p.valid(a)
    ensures Sound(p, Empty(key)) && fresh(again) && again.p == p && again.Shape()
    ensures r.Loaded? && Inv(p, again.View(), {}, {}) && SameContents(p, Run(p, Empty(key), ops), again.View())
  {
    hide Inv, CollisionsOk, Table, SameContents, Positive, Run, Step;
    EmptySound(p, key);
    RunKeeps(p, Empty(key), ops);
    RunRoutable(p, Empty(key), ops);
    var m := new AddrMan(p, key);
    var code := RunAndCheck(m, ops);
    r, again := SaveAndReload(m);
  }

  /** A saved file is read back as the reloaded state, and that state passes the check. */
  lemma SavedLoads(p: Params, s: State, f: File, all: seq<NodeId>)
    requires Inv(p, s, {}, {}) && TimesOk(s.info) && s.key != 0 && Saved(p, s, f, all)
    requires forall id :: id in s.info ==> p.valid(s.info[id].addr)
    ensures Header(p, f).Loaded? && Unplaced(LoadFile(p, f).info) == {}
    ensures Checked(p, LoadFile(p, f))
    ensures Inv(p, LoadFile(p, f), {}, {}) && SameContents(p, s, LoadFile(p, f))
  {
    hide Inv, Listed, SavedRefs, SameContents, Checked, Recs, LoadNews, LoadTrieds, AllRefs, TimesOk, Unplaced;
    SavedHeader(p, s, f, all);
    var refs := AllRefs(f.buckets, s.nNew);
    ReloadSame(p, s, all, s.nNew, refs);
    assert LoadFile(p, f) == Reload(p, s, all, s.nNew, refs) by {
      assert f.news[..f.nNew] == f.news && f.trieds[..f.nTried] == f.trieds && f.buckets[..p.newBuckets] == f.buckets;
      EntriesNumbered(p, f);
    }
    ReloadedKey(p, s, LoadFile(p, f));
    SoundIsChecked(p, LoadFile(p, f));
  }

  lemma ReloadedKey(p: Params, s: State, t: State)
    requires SameContents(p, s, t)
    ensures t.key == s.key
  {
  }

  lemma SavedHeader(p: Params, s: State, f: File, all: seq<NodeId>)
    requires Saved(p, s, f, all) && Inv(p, s, {}, {})
    ensures Header(p, f).Loaded? && Restorable(p, f) && BucketCount(f) == p.newBuckets
    ensures |f.news| == f.nNew && |f.trieds| == f.nTried
  {
    hide Inv, Listed, SavedRefs, Recs, Mark;
    MarkTwice(p.newBuckets);
    NonNegative(p, s);
    Capacity(p, s);
    RecsSize(s, all, s.nNew, 0, s.nNew);
    RecsSize(s, all, s.nNew, s.nNew, |all|);
  }

  function Row(bucket: int, size: nat): (r: set<Slot>)
    ensures |r| == size && forall sl :: sl in r <==> sl.bucket == bucket && 0 <= sl.pos < size
  {
    if size == 0 then {} else
      var r := Row(bucket, size - 1);
      assert forall sl: Slot :: sl.bucket == bucket && sl.pos == size - 1 <==> sl == Slot(bucket, size - 1);
      r + {Slot(bucket, size - 1)}
  }

  /** The slots of a table of `buckets` buckets of `size` places. */
  function Grid(buckets: nat, size: nat): (r: set<Slot>)
    ensures |r| == buckets * size && forall sl :: sl in r <==> 0 <= sl.bucket < buckets && 0 <= sl.pos < size
  {
    if buckets == 0 then {} else
      assert buckets * size == (buckets - 1) * size + size;
      Grid(buckets - 1, size) + Row(buckets - 1, size)
  }

  /** Entries that each hold a slot are no more than the slots. */
  lemma {:induction false} HoldersBound(ids: set<NodeId>, tab: map<Slot, NodeId>)
    requires forall id :: id in ids ==> Holds(tab, id)
    ensures |ids| <= |tab|
    decreases |ids|
  {
    if ids != {} {
      var id :| id in ids;
      var sl :| sl in tab && tab[sl] == id;
      var less := tab - {sl};
      forall x | x in ids - {id} ensures Holds(less, x) {
        var y :| y in tab && tab[y] == x;
        assert y in less && less[y] == x;
      }
      HoldersBound(ids - {id}, less);
      assert tab.Keys == less.Keys + {sl} && |tab| == |tab.Keys| && |less| == |less.Keys|;
    }
  }

  /** The counters never exceed the capacity of the tables. */
  lemma Capacity(p: Params, s: State)
    requires Inv(p, s, {}, {})
    ensures s.nNew <= p.newBuckets * p.bucketSize && s.nTried <= p.triedBuckets * p.bucketSize
  {
    var none: set<NodeId> := {};
    assert none + none == none;
    hide RandomOk, IdsOk, TriedOk, NewOk, CountsOk, LooseOk;
    SizesOk(p, s);
    NewCapacity(p, s);
    TriedCapacity(p, s);
  }

  lemma NewCapacity(p: Params, s: State)
    requires NewOk(p, s.key, s.info, s.newTab, {})
    ensures |NewIds(p, s.info, {}, None)| <= p.newBuckets * p.bucketSize
  {
    var ids := NewIds(p, s.info, {}, None);
    forall id | id in ids ensures Holds(s.newTab, id) {
      assert SlotsOf(s.newTab, id) != {};
      var sl :| sl in SlotsOf(s.newTab, id);
    }
    HoldersBound(ids, s.newTab);
    Subset(s.newTab.Keys, Grid(p.newBuckets, p.bucketSize));
    assert |s.newTab| == |s.newTab.Keys|;
  }

  lemma TriedCapacity(p: Params, s: State)
    requires TriedOk(p, s.key, s.info, s.triedTab)
    ensures |TriedIds(p, s.info, None)| <= p.triedBuckets * p.bucketSize
  {
    var ids := TriedIds(p, s.info, None);
    forall id | id in ids ensures Holds(s.triedTab, id) {
      assert s.triedTab[TriedSlot(p, s.key, s.info[id].addr)] == id;
    }
    HoldersBound(ids, s.triedTab);
    Subset(s.triedTab.Keys, Grid(p.triedBuckets, p.bucketSize));
    assert |s.triedTab| == |s.triedTab.Keys|;
  }

  lemma NonNegative(p: Params, s: State)
    requires Inv(p, s, {}, {})
    ensures 0 <= s.nNew && 0 <= s.nTried
  {
    hide RandomOk, IdsOk, TriedOk, NewOk;
  }

  lemma {:induction false} RecsSize(s: State, all: seq<NodeId>, n: nat, lo: nat, hi: nat)
    requires Listed(s, all, n) && lo <= hi <= |all|
    ensures |Recs(s, all, n, lo, hi)| == hi - lo
  {
    hide Listed;
    if lo < hi {
      RecsSize(s, all, n, lo, hi - 1);
    }
  }
}
