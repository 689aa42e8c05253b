/** Loading what was saved gives back the same address manager, up to the numbering of its entries. */
module AddrManReload {
  import opened AddrManFile
  import opened AddrManRuns
  import opened AddrManSpec
  import opened AddrManSteps
  import opened Options

  /** `all` lists the entries once each: first the `n` new ones, then the tried ones. */
  ghost predicate Listed(s: State, all: seq<NodeId>, n: nat) {
    && n <= |all|
    && (forall i, j :: 0 <= i < j < |all| ==> all[i] != all[j])
    && (forall j :: 0 <= j < |all| ==> all[j] in s.info && (s.info[all[j]].inTried <==> n <= j))
    && (forall id :: id in s.info ==> id in all)
  }

  /** The records of the entries from position `lo` up to `hi` of the list. */
  ghost function Recs(s: State, all: seq<NodeId>, n: nat, lo: nat, hi: nat): seq<Record>
    requires Listed(s, all, n) && lo <= hi <= |all|
  {
    if lo == hi then [] else Recs(s, all, n, lo, hi - 1) + [RecordOf(s.info[all[hi - 1]])]
  }

  /** The first `k` listed entries of `s` have been loaded into `t`, numbered in the order of the list. */
  ghost predicate Mirror(s: State, all: seq<NodeId>, n: nat, t: State, k: nat)
    requires Listed(s, all, n) && k <= |all|
  {
    && t.key == s.key && t.idCount == k && t.collisions == {}
    && (forall id :: id in t.info <==> 0 <= id.n < k)
    && (forall id :: id in t.info ==> MirrorEntry(s.info[all[id.n]], t.info[id], id.n >= n))
  }

  predicate MirrorEntry(i: AddrInfo, j: AddrInfo, inTried: bool) {
    RecordOf(j) == RecordOf(i) && j.inTried == inTried && j.lastTry == 0
  }

  /** The new entries that hold no slot. */
  function Unplaced(info: map<NodeId, AddrInfo>): set<NodeId> {
    set id | id in info && !info[id].inTried && info[id].refCount == 0
  }

  lemma ZeroIs(p: Params, s: State, zero: set<NodeId>)
    requires Inv(p, s, zero, {})
    ensures zero == Unplaced(s.info)
  {
    assert zero + {} == zero;
    hide RandomOk, IdsOk, TriedOk, CountsOk, SlotsOf;
  }

  lemma UnknownAddr(p: Params, s: State, all: seq<NodeId>, n: nat, t: State, k: nat)
    requires Inv(p, s, {}, {}) && Listed(s, all, n) && k < |all| && Mirror(s, all, n, t, k)
    requires IdsOk(t.info, t.ids, t.idCount)
    ensures s.info[all[k]].addr !in t.ids
  {
    hide RandomOk, TriedOk, NewOk, CountsOk, LooseOk;
    forall id | id in t.info ensures t.info[id].addr != s.info[all[k]].addr {
      assert all[id.n] != all[k];
    }
  }

  lemma MirrorExtend(s: State, all: seq<NodeId>, n: nat, t: State, u: State, k: nat, i: AddrInfo)
    requires Listed(s, all, n) && k < |all| && Mirror(s, all, n, t, k)
    requires u.key == t.key && u.idCount == k + 1 && u.collisions == {} && u.info == t.info[NodeId(k) := i]
    requires MirrorEntry(s.info[all[k]], i, k >= n)
    ensures Mirror(s, all, n, u, k + 1)
  {
    hide MirrorEntry;
    forall id ensures id in u.info <==> 0 <= id.n < k + 1 {
      assert id == NodeId(id.n);
    }
  }

  lemma MirrorNew(p: Params, s: State, all: seq<NodeId>, n: nat, t: State, k: nat)
    requires Inv(p, s, {}, {}) && Listed(s, all, n) && k < n && Mirror(s, all, n, t, k)
    requires Inv(p, t, Unplaced(t.info), {})
    ensures var u := Loaded(p, t, RecordOf(s.info[all[k]]));
            Mirror(s, all, n, u, k + 1) && Inv(p, u, Unplaced(u.info), {}) && u.newTab == t.newTab
  {
    hide RandomOk, IdsOk, TriedOk, NewOk, CountsOk, LooseOk, Loaded, Unplaced;
    var r := RecordOf(s.info[all[k]]);
    UnknownAddr(p, s, all, n, t, k);
    LoadedKeeps(p, t, r, Unplaced(t.info));
    ZeroIs(p, Loaded(p, t, r), Unplaced(t.info) + {NodeId(t.idCount)});
    LoadedIs(p, t, r);
    MirrorExtend(s, all, n, t, Loaded(p, t, r), k, EntryOf(r, false, |t.random|));
  }

  lemma MirrorTried(p: Params, s: State, all: seq<NodeId>, n: nat, t: State, k: nat)
    requires Inv(p, s, {}, {}) && Listed(s, all, n) && n <= k < |all| && Mirror(s, all, n, t, k)
    requires Inv(p, t, Unplaced(t.info), {}) && p.valid(s.info[all[k]].addr)
    ensures Takes(p, t, RecordOf(s.info[all[k]]))
    ensures var u := LoadedTried(p, t, RecordOf(s.info[all[k]]));
            Mirror(s, all, n, u, k + 1) && Inv(p, u, Unplaced(u.info), {}) && u.newTab == t.newTab
  {
    hide RandomOk, IdsOk, TriedOk, NewOk, CountsOk, LooseOk, TriedSlot, LoadedTried, Unplaced;
    var r := RecordOf(s.info[all[k]]);
    UnknownAddr(p, s, all, n, t, k);
    SlotFree(p, s, all, n, t, k);
    LoadedTriedKeeps(p, t, r, Unplaced(t.info));
    ZeroIs(p, LoadedTried(p, t, r), Unplaced(t.info));
    LoadedTriedIs(p, t, r);
    MirrorExtend(s, all, n, t, LoadedTried(p, t, r), k, EntryOf(r, true, |t.random|));
  }

  /** Different tried entries have different tried slots. */
  lemma SlotFree(p: Params, s: State, all: seq<NodeId>, n: nat, t: State, k: nat)
    requires TriedOk(p, s.key, s.info, s.triedTab) && Listed(s, all, n) && n <= k < |all| && Mirror(s, all, n, t, k)
    requires TriedOk(p, t.key, t.info, t.triedTab)
    ensures TriedSlot(p, t.key, s.info[all[k]].addr) !in t.triedTab
  {
    hide TriedSlot;
    forall id | id in t.info && t.info[id].inTried
      ensures TriedSlot(p, t.key, t.info[id].addr) != TriedSlot(p, t.key, s.info[all[k]].addr)
    {
      assert all[id.n] != all[k];
    }
  }

  lemma RecsLast(s: State, all: seq<NodeId>, n: nat, lo: nat, hi: nat)
    requires Listed(s, all, n) && lo < hi <= |all|
    ensures var rs := Recs(s, all, n, lo, hi);
            |rs| > 0 && rs[..|rs| - 1] == Recs(s, all, n, lo, hi - 1) && rs[|rs| - 1] == RecordOf(s.info[all[hi - 1]])
  {
  }

  /** All entries loaded: `news` and `trieds` are the two parts of the file. */
  lemma {:induction false} NewsLoaded(p: Params, s: State, all: seq<NodeId>, n: nat, k: nat)
    requires Inv(p, s, {}, {}) && Listed(s, all, n) && k <= n
    ensures var t := LoadNews(p, Empty(s.key), Recs(s, all, n, 0, k));
            Mirror(s, all, n, t, k) && Inv(p, t, Unplaced(t.info), {}) && t.newTab == map[]
  {
    hide Inv, Loaded, Unplaced;
    if k == 0 {
      EmptySound(p, s.key);
      EmptyUnplaced(s.key);
    } else {
      NewsLoaded(p, s, all, n, k - 1);
      var rs := Recs(s, all, n, 0, k);
      RecsLast(s, all, n, 0, k);
      MirrorNew(p, s, all, n, LoadNews(p, Empty(s.key), Recs(s, all, n, 0, k - 1)), k - 1);
    }
  }

  lemma EmptyUnplaced(key: int)
    ensures Unplaced(Empty(key).info) == {}
  {
  }

  lemma {:induction false} TriedsLoaded(p: Params, s: State, all: seq<NodeId>, n: nat, t: State, k: nat)
    requires Inv(p, s, {}, {}) && Listed(s, all, n) && n <= k <= |all|
    requires Mirror(s, all, n, t, n) && Inv(p, t, Unplaced(t.info), {})
    requires forall id :: id in s.info ==> p.valid(s.info[id].addr)
    ensures var u := LoadTrieds(p, t, Recs(s, all, n, n, k));
            Mirror(s, all, n, u, k) && Inv(p, u, Unplaced(u.info), {}) && u.newTab == t.newTab
  {
    hide Inv, LoadedTried, Unplaced, Mirror;
    var rs := Recs(s, all, n, n, k);
    if k > n {
      TriedsLoaded(p, s, all, n, t, k - 1);
      RecsLast(s, all, n, n, k);
      MirrorTried(p, s, all, n, LoadTrieds(p, t, Recs(s, all, n, n, k - 1)), k - 1);
    }
  }

  // ---------------------------------------------------------------- references

  ghost function RefTarget(p: Params, s: State, all: seq<NodeId>, n: nat, r: Ref): Slot
    requires Listed(s, all, n) && 0 <= r.index < n
  {
    NewSlotIn(p, s.key, s.info[all[r.index]].addr, r.bucket)
  }

  ghost predicate RefOk(p: Params, s: State, all: seq<NodeId>, n: nat, r: Ref)
    requires Listed(s, all, n)
  {
    && 0 <= r.index < n && 0 <= r.bucket < p.newBuckets
    && RefTarget(p, s, all, n, r) in s.newTab && s.newTab[RefTarget(p, s, all, n, r)] == all[r.index]
  }

  /** The references written to the file: one for each occupied slot of the new table. */
  ghost predicate SavedRefs(p: Params, s: State, all: seq<NodeId>, n: nat, refs: seq<Ref>)
    requires Listed(s, all, n)
  {
    && (forall i :: 0 <= i < |refs| ==> RefOk(p, s, all, n, refs[i]))
    && (forall i, j :: 0 <= i < j < |refs| ==> RefTarget(p, s, all, n, refs[i]) != RefTarget(p, s, all, n, refs[j]))
    && (forall sl :: sl in s.newTab ==> exists i :: 0 <= i < |refs| && RefTarget(p, s, all, n, refs[i]) == sl)
  }

  /** Every occupied slot of `t` holds the entry it holds in `s`. */
  ghost predicate NewTabMirrors(s: State, all: seq<NodeId>, n: nat, t: State)
    requires Listed(s, all, n)
  {
    forall sl :: sl in t.newTab ==>
      sl in s.newTab && 0 <= t.newTab[sl].n < n && s.newTab[sl] == all[t.newTab[sl].n]
  }

  ghost predicate Placed(p: Params, s: State, all: seq<NodeId>, n: nat, refs: seq<Ref>, t: State, m: nat)
    requires Listed(s, all, n) && SavedRefs(p, s, all, n, refs) && m <= |refs|
  {
    forall i :: 0 <= i < |refs| ==> (RefTarget(p, s, all, n, refs[i]) in t.newTab <==> i < m)
  }

  /** An entry whose saved reference is still to come holds fewer slots than it used to. */
  lemma RoomLeft(p: Params, s: State, all: seq<NodeId>, n: nat, t: State, r: Ref)
    requires NewOk(p, s.key, s.info, s.newTab, {}) && Listed(s, all, n) && RefOk(p, s, all, n, r)
    requires NewTabMirrors(s, all, n, t) && RefTarget(p, s, all, n, r) !in t.newTab
    ensures |SlotsOf(t.newTab, NodeId(r.index))| < NEW_BUCKETS_PER_ADDRESS
  {
    var sl := RefTarget(p, s, all, n, r);
    var mine := SlotsOf(t.newTab, NodeId(r.index));
    assert mine + {sl} <= SlotsOf(s.newTab, all[r.index]);
    Subset(mine + {sl}, SlotsOf(s.newTab, all[r.index]));
  }

  lemma RefGoesBack(p: Params, s: State, all: seq<NodeId>, n: nat, t: State, r: Ref)
    requires Inv(p, s, {}, {}) && Listed(s, all, n) && RefOk(p, s, all, n, r) && p.valid(s.info[all[r.index]].addr)
    requires Mirror(s, all, n, t, |all|) && Inv(p, t, Unplaced(t.info), {})
    requires NewTabMirrors(s, all, n, t) && RefTarget(p, s, all, n, r) !in t.newTab
    ensures NodeId(r.index) in t.info
    ensures RefSlot(p, t, true, r.bucket, NodeId(r.index)) == Some(RefTarget(p, s, all, n, r))
  {
    hide RandomOk, IdsOk, TriedOk, CountsOk, LooseOk, NewSlotIn, Unplaced;
    var id := NodeId(r.index);
    assert id in t.info && MirrorEntry(s.info[all[id.n]], t.info[id], id.n >= n);
    var none: set<NodeId> := {};
    assert none + none == none;
    hide NewOk;
    RoomLeft(p, s, all, n, t, r);
    RefCountIs(p, t, id);
  }

  lemma RefCountIs(p: Params, t: State, id: NodeId)
    requires Inv(p, t, Unplaced(t.info), {}) && id in t.info && !t.info[id].inTried
    ensures t.info[id].refCount == |SlotsOf(t.newTab, id)|
  {
    hide RandomOk, IdsOk, TriedOk, CountsOk, LooseOk, SlotsOf;
  }

  /** What holds once the first `m` references are back. */
  ghost predicate Reloading(p: Params, s: State, all: seq<NodeId>, n: nat, refs: seq<Ref>, t: State, m: nat)
    requires Listed(s, all, n) && SavedRefs(p, s, all, n, refs) && m <= |refs|
  {
    && Mirror(s, all, n, t, |all|) && Inv(p, t, Unplaced(t.info), {})
    && NewTabMirrors(s, all, n, t) && Placed(p, s, all, n, refs, t, m)
  }

  lemma RefLoaded(p: Params, s: State, all: seq<NodeId>, n: nat, refs: seq<Ref>, t: State, m: nat)
    requires Inv(p, s, {}, {}) && Listed(s, all, n) && SavedRefs(p, s, all, n, refs) && m < |refs|
    requires Reloading(p, s, all, n, refs, t, m)
    requires forall id :: id in s.info ==> p.valid(s.info[id].addr)
    ensures NodeId(refs[m].index) in t.info
    ensures Reloading(p, s, all, n, refs, LoadedRef(p, t, true, refs[m].bucket, NodeId(refs[m].index)), m + 1)
  {
    hide Inv, NewSlotIn, Unplaced, Mirror, SavedRefs;
    var r := refs[m];
    RefAt(p, s, all, n, refs, m);
    var id := NodeId(r.index);
    var sl := RefTarget(p, s, all, n, r);
    RefGoesBack(p, s, all, n, t, r);
    var u := AddRef(t, sl, id);
    assert LoadedRef(p, t, true, r.bucket, id) == u;
    MirrorAddRef(s, all, n, t, sl, id);
    MirrorIsNew(s, all, n, t, id);
    LoadedRefKeeps(p, t, true, r.bucket, id, Unplaced(t.info));
    ZeroIs(p, u, Unplaced(t.info) - {id});
    PlacedNext(p, s, all, n, refs, t, m);
  }

  lemma MirrorIsNew(s: State, all: seq<NodeId>, n: nat, t: State, id: NodeId)
    requires Listed(s, all, n) && Mirror(s, all, n, t, |all|) && id in t.info
    ensures t.info[id].inTried <==> id.n >= n
  {
    assert MirrorEntry(s.info[all[id.n]], t.info[id], id.n >= n);
  }

  lemma RefAt(p: Params, s: State, all: seq<NodeId>, n: nat, refs: seq<Ref>, m: nat)
    requires Listed(s, all, n) && SavedRefs(p, s, all, n, refs) && m < |refs|
    ensures RefOk(p, s, all, n, refs[m])
  {
  }

  lemma MirrorAddRef(s: State, all: seq<NodeId>, n: nat, t: State, sl: Slot, id: NodeId)
    requires Listed(s, all, n) && Mirror(s, all, n, t, |all|) && id in t.info
    ensures Mirror(s, all, n, AddRef(t, sl, id), |all|)
  {
    assert MirrorEntry(s.info[all[id.n]], t.info[id], id.n >= n);
    assert MirrorEntry(s.info[all[id.n]], AddRef(t, sl, id).info[id], id.n >= n);
  }

  lemma PlacedNext(p: Params, s: State, all: seq<NodeId>, n: nat, refs: seq<Ref>, t: State, m: nat)
    requires Listed(s, all, n) && SavedRefs(p, s, all, n, refs) && m < |refs|
    requires Placed(p, s, all, n, refs, t, m) && NodeId(refs[m].index) in t.info
    ensures Placed(p, s, all, n, refs, AddRef(t, RefTarget(p, s, all, n, refs[m]), NodeId(refs[m].index)), m + 1)
  {
    hide RefTarget;
  }

  lemma {:induction false} RefsLoaded(p: Params, s: State, all: seq<NodeId>, n: nat, refs: seq<Ref>, t: State, m: nat)
    requires Inv(p, s, {}, {}) && Listed(s, all, n) && SavedRefs(p, s, all, n, refs) && m <= |refs|
    requires Mirror(s, all, n, t, |all|) && Inv(p, t, Unplaced(t.info), {}) && t.newTab == map[]
    requires forall id :: id in s.info ==> p.valid(s.info[id].addr)
    ensures forall r :: r in refs ==> NodeId(r.index) in t.info
    ensures Reloading(p, s, all, n, refs, LoadRefs(p, t, true, refs[..m]), m)
  {
    hide Inv, Unplaced, LoadedRef, Mirror, SavedRefs, Reloading, Listed;
    RefsKnown(p, s, all, n, refs, t);
    if m == 0 {
      ReloadStart(p, s, all, n, refs, t);
    } else {
      RefsLoaded(p, s, all, n, refs, t, m - 1);
      RefLoaded(p, s, all, n, refs, LoadRefs(p, t, true, refs[..m - 1]), m - 1);
      assert refs[..m][..m - 1] == refs[..m - 1] && refs[..m][m - 1] == refs[m - 1];
    }
  }

  lemma ReloadStart(p: Params, s: State, all: seq<NodeId>, n: nat, refs: seq<Ref>, t: State)
    requires Listed(s, all, n) && SavedRefs(p, s, all, n, refs)
    requires Mirror(s, all, n, t, |all|) && Inv(p, t, Unplaced(t.info), {}) && t.newTab == map[]
    ensures Reloading(p, s, all, n, refs, t, 0)
  {
    hide Inv, Unplaced, Mirror, RefTarget;
  }

  lemma RefsKnown(p: Params, s: State, all: seq<NodeId>, n: nat, refs: seq<Ref>, t: State)
    requires Listed(s, all, n) && SavedRefs(p, s, all, n, refs) && Mirror(s, all, n, t, |all|)
    ensures forall r :: r in refs ==> NodeId(r.index) in t.info
  {
    hide RefTarget;
    forall r | r in refs ensures NodeId(r.index) in t.info {
      var i :| 0 <= i < |refs| && refs[i] == r;
      assert RefOk(p, s, all, n, refs[i]);
    }
  }

  // ---------------------------------------------------------------- the result

  /** What the file keeps about an address is the same. */
  predicate SameSaved(i: AddrInfo, j: AddrInfo) {
    && i.addr == j.addr && i.source == j.source && i.time == j.time && i.services == j.services
    && i.lastSuccess == j.lastSuccess && i.attempts == j.attempts
  }

  /** The same addresses with the same records, in the same slots, with the same reference counts. */
  ghost predicate SameContents(p: Params, s: State, t: State) {
    && t.key == s.key && t.nNew == s.nNew && t.nTried == s.nTried
    && (forall net :: CountOf(t.counts, net) == CountOf(s.counts, net))
    && (forall a :: a in s.ids <==> a in t.ids)
    && (forall a :: a in s.ids && a in t.ids && s.ids[a] in s.info && t.ids[a] in t.info ==>
          && SameSaved(s.info[s.ids[a]], t.info[t.ids[a]])
          && t.info[t.ids[a]].inTried == s.info[s.ids[a]].inTried
          && t.info[t.ids[a]].refCount == s.info[s.ids[a]].refCount)
    && SameTable(s.info, s.newTab, t.info, t.newTab)
    && SameTable(s.info, s.triedTab, t.info, t.triedTab)
  }

  /** The same slots are occupied, by entries for the same addresses. */
  ghost predicate SameTable(a: map<NodeId, AddrInfo>, x: map<Slot, NodeId>, b: map<NodeId, AddrInfo>,
                            y: map<Slot, NodeId>) {
    && (forall sl :: sl in x <==> sl in y)
    && (forall sl :: sl in x && sl in y && x[sl] in a && y[sl] in b ==> a[x[sl]].addr == b[y[sl]].addr)
  }

  /** The whole file loaded, before entries without slots are pruned; there are none. */
  ghost function Reload(p: Params, s: State, all: seq<NodeId>, n: nat, refs: seq<Ref>): State
    requires Inv(p, s, {}, {}) && Listed(s, all, n) && SavedRefs(p, s, all, n, refs)
    requires forall id :: id in s.info ==> p.valid(s.info[id].addr)
  {
    NewsLoaded(p, s, all, n, n);
    var t := LoadNews(p, Empty(s.key), Recs(s, all, n, 0, n));
    TriedsLoaded(p, s, all, n, t, |all|);
    var u := LoadTrieds(p, t, Recs(s, all, n, n, |all|));
    RefsLoaded(p, s, all, n, refs, u, |refs|);
    LoadRefs(p, u, true, refs)
  }

  lemma ReloadReady(p: Params, s: State, all: seq<NodeId>, n: nat, refs: seq<Ref>)
    requires Inv(p, s, {}, {}) && Listed(s, all, n) && SavedRefs(p, s, all, n, refs)
    requires forall id :: id in s.info ==> p.valid(s.info[id].addr)
    ensures Reloading(p, s, all, n, refs, Reload(p, s, all, n, refs), |refs|)
  {
    hide Inv, Mirror, SavedRefs, Reloading, Recs, Unplaced;
    NewsLoaded(p, s, all, n, n);
    var t := LoadNews(p, Empty(s.key), Recs(s, all, n, 0, n));
    TriedsLoaded(p, s, all, n, t, |all|);
    var u := LoadTrieds(p, t, Recs(s, all, n, n, |all|));
    RefsLoaded(p, s, all, n, refs, u, |refs|);
    assert refs[..|refs|] == refs;
  }

  lemma SameSlots(p: Params, s: State, all: seq<NodeId>, n: nat, refs: seq<Ref>, t: State)
    requires Listed(s, all, n) && SavedRefs(p, s, all, n, refs)
    requires NewTabMirrors(s, all, n, t) && Placed(p, s, all, n, refs, t, |refs|)
    ensures forall sl :: sl in s.newTab <==> sl in t.newTab
    ensures forall j :: 0 <= j < n ==> SlotsOf(t.newTab, NodeId(j)) == SlotsOf(s.newTab, all[j])
  {
    hide RefTarget;
    forall sl | sl in s.newTab ensures sl in t.newTab {
      var i :| 0 <= i < |refs| && RefTarget(p, s, all, n, refs[i]) == sl;
    }
    forall j | 0 <= j < n ensures SlotsOf(t.newTab, NodeId(j)) == SlotsOf(s.newTab, all[j]) {
      forall sl ensures sl in SlotsOf(t.newTab, NodeId(j)) <==> sl in SlotsOf(s.newTab, all[j]) {
        if sl in s.newTab {
          var id := t.newTab[sl];
          assert s.newTab[sl] == all[id.n] && id == NodeId(id.n);
        }
      }
    }
  }

  /** Every entry has its references back. */
  lemma AllPlaced(p: Params, s: State, all: seq<NodeId>, n: nat, t: State)
    requires NewOk(p, s.key, s.info, s.newTab, {}) && Listed(s, all, n) && Mirror(s, all, n, t, |all|)
    requires NewOk(p, t.key, t.info, t.newTab, Unplaced(t.info))
    requires forall j :: 0 <= j < n ==> SlotsOf(t.newTab, NodeId(j)) == SlotsOf(s.newTab, all[j])
    ensures Unplaced(t.info) == {}
    ensures forall id :: id in t.info && !t.info[id].inTried ==> t.info[id].refCount == s.info[all[id.n]].refCount
  {
    forall id | id in t.info && !t.info[id].inTried
      ensures t.info[id].refCount == s.info[all[id.n]].refCount > 0
    {
      assert MirrorEntry(s.info[all[id.n]], t.info[id], id.n >= n) && id == NodeId(id.n);
      assert !s.info[all[id.n]].inTried;
    }
  }

  lemma {:induction false} ImageSize(a: set<NodeId>, all: seq<NodeId>, b: set<NodeId>)
    requires forall i, j :: 0 <= i < j < |all| ==> all[i] != all[j]
    requires forall id :: id in a ==> 0 <= id.n < |all| && all[id.n] in b
    requires forall x :: x in b ==> exists j :: 0 <= j < |all| && all[j] == x && NodeId(j) in a
    ensures |a| == |b|
    decreases |a|
  {
    if a == {} {
      assert b == {};
    } else {
      var id :| id in a;
      var a', b' := a - {id}, b - {all[id.n]};
      forall k | k in a' ensures 0 <= k.n < |all| && all[k.n] in b' {
        assert k == NodeId(k.n) && id == NodeId(id.n);
      }
      forall x | x in b' ensures exists j :: 0 <= j < |all| && all[j] == x && NodeId(j) in a' {
        var j :| 0 <= j < |all| && all[j] == x && NodeId(j) in a;
        assert NodeId(j) in a';
      }
      ImageSize(a', all, b');
    }
  }

  /** Entry `NodeId(j)` of `b` is entry `all[j]` of `a`, as far as addresses and tables go. */
  ghost predicate Renamed(a: map<NodeId, AddrInfo>, b: map<NodeId, AddrInfo>, all: seq<NodeId>) {
    && (forall i, j :: 0 <= i < j < |all| ==> all[i] != all[j])
    && (forall id :: id in b ==>
          && 0 <= id.n < |all| && all[id.n] in a
          && b[id].addr == a[all[id.n]].addr && b[id].inTried == a[all[id.n]].inTried)
    && (forall x :: x in a ==> exists j :: 0 <= j < |all| && all[j] == x && NodeId(j) in b)
  }

  lemma MirrorRenames(s: State, all: seq<NodeId>, n: nat, t: State)
    requires Listed(s, all, n) && Mirror(s, all, n, t, |all|)
    ensures Renamed(s.info, t.info, all)
  {
    forall id | id in t.info
      ensures t.info[id].addr == s.info[all[id.n]].addr && t.info[id].inTried == s.info[all[id.n]].inTried
    {
      assert MirrorEntry(s.info[all[id.n]], t.info[id], id.n >= n);
    }
    forall x | x in s.info ensures exists j :: 0 <= j < |all| && all[j] == x && NodeId(j) in t.info {
      var j :| 0 <= j < |all| && all[j] == x;
      assert NodeId(j) in t.info;
    }
  }

  lemma SameTallies(p: Params, a: map<NodeId, AddrInfo>, b: map<NodeId, AddrInfo>, all: seq<NodeId>,
                    net: Option<Network>)
    requires Renamed(a, b, all)
    ensures |NewIds(p, b, {}, net)| == |NewIds(p, a, {}, net)|
    ensures |TriedIds(p, b, net)| == |TriedIds(p, a, net)|
  {
    forall x | x in NewIds(p, a, {}, net)
      ensures exists j :: 0 <= j < |all| && all[j] == x && NodeId(j) in NewIds(p, b, {}, net) {
      var j :| 0 <= j < |all| && all[j] == x && NodeId(j) in b;
      assert NodeId(j) in NewIds(p, b, {}, net);
    }
    ImageSize(NewIds(p, b, {}, net), all, NewIds(p, a, {}, net));
    forall x | x in TriedIds(p, a, net)
      ensures exists j :: 0 <= j < |all| && all[j] == x && NodeId(j) in TriedIds(p, b, net) {
      var j :| 0 <= j < |all| && all[j] == x && NodeId(j) in b;
      assert NodeId(j) in TriedIds(p, b, net);
    }
    ImageSize(TriedIds(p, b, net), all, TriedIds(p, a, net));
  }

  lemma SameCounters(p: Params, s: State, t: State, all: seq<NodeId>)
    requires Renamed(s.info, t.info, all)
    requires CountsOk(p, s.info, s.nNew, s.nTried, s.counts, {}) && CountsOk(p, t.info, t.nNew, t.nTried, t.counts, {})
    ensures t.nNew == s.nNew && t.nTried == s.nTried
    ensures forall net :: CountOf(t.counts, net) == CountOf(s.counts, net)
  {
    hide NewIds, TriedIds, Renamed;
    SameTallies(p, s.info, t.info, all, None);
    forall net ensures CountOf(t.counts, net) == CountOf(s.counts, net) {
      SameTallies(p, s.info, t.info, all, Some(net));
    }
  }

  lemma SameSeats(p: Params, s: State, t: State, all: seq<NodeId>)
    requires Renamed(s.info, t.info, all) && t.key == s.key
    requires TriedOk(p, s.key, s.info, s.triedTab) && TriedOk(p, t.key, t.info, t.triedTab)
    ensures SameTable(s.info, s.triedTab, t.info, t.triedTab)
  {
    hide TriedSlot;
    forall sl | sl in s.triedTab
      ensures sl in t.triedTab && t.info[t.triedTab[sl]].addr == s.info[s.triedTab[sl]].addr {
      var x := s.triedTab[sl];
      assert x in s.info;
      var j :| 0 <= j < |all| && all[j] == x && NodeId(j) in t.info;
      assert t.triedTab[TriedSlot(p, t.key, t.info[NodeId(j)].addr)] == NodeId(j);
    }
    forall sl | sl in t.triedTab ensures sl in s.triedTab {
      var id := t.triedTab[sl];
      assert s.triedTab[TriedSlot(p, s.key, s.info[all[id.n]].addr)] == all[id.n];
    }
  }

  lemma SameNames(s: State, t: State, all: seq<NodeId>)
    requires Renamed(s.info, t.info, all)
    requires IdsOk(s.info, s.ids, s.idCount) && IdsOk(t.info, t.ids, t.idCount)
    ensures forall a :: a in s.ids <==> a in t.ids
    ensures forall a :: a in s.ids && a in t.ids ==> 0 <= t.ids[a].n < |all| && all[t.ids[a].n] == s.ids[a]
  {
    forall a | a in s.ids ensures a in t.ids {
      var j :| 0 <= j < |all| && all[j] == s.ids[a] && NodeId(j) in t.info;
      assert t.ids[t.info[NodeId(j)].addr] == NodeId(j);
    }
    forall a | a in t.ids ensures a in s.ids && 0 <= t.ids[a].n < |all| && all[t.ids[a].n] == s.ids[a] {
      var id := t.ids[a];
      assert id in t.info;
      assert s.ids[s.info[all[id.n]].addr] == all[id.n];
    }
  }

  /** What a reloaded state is: consistent, and the saved contents again. */
  lemma ReloadSame(p: Params, s: State, all: seq<NodeId>, n: nat, refs: seq<Ref>)
    requires Inv(p, s, {}, {}) && Listed(s, all, n) && SavedRefs(p, s, all, n, refs)
    requires forall id :: id in s.info ==> p.valid(s.info[id].addr)
    ensures Inv(p, Reload(p, s, all, n, refs), {}, {})
    ensures SameContents(p, s, Reload(p, s, all, n, refs))
    ensures TimesOk(s.info) ==> TimesOk(Reload(p, s, all, n, refs).info)
    ensures Unplaced(Reload(p, s, all, n, refs).info) == {}
  {
    hide RandomOk, IdsOk, TriedOk, NewOk, CountsOk, LooseOk, Mirror, SavedRefs, Reload, Placed, NewTabMirrors, Listed,
      Renamed, SameTable, TimesOk, SameSaved, Unplaced;
    var t := Reload(p, s, all, n, refs);
    var none: set<NodeId> := {};
    assert none + none == none && Unplaced(t.info) + none == Unplaced(t.info);
    ReloadReady(p, s, all, n, refs);
    SameSlots(p, s, all, n, refs, t);
    AllPlaced(p, s, all, n, t);
    MirrorRenames(s, all, n, t);
    SameCounters(p, s, t, all);
    MirrorKey(s, all, n, t);
    SameSeats(p, s, t, all);
    SameNames(s, t, all);
    SameNewTable(p, s, all, n, t);
    SameRecords(p, s, all, n, t);
    MirrorTimes(s, all, n, t);
  }

  lemma MirrorKey(s: State, all: seq<NodeId>, n: nat, t: State)
    requires Listed(s, all, n) && Mirror(s, all, n, t, |all|)
    ensures t.key == s.key
  {
  }

  lemma MirrorTimes(s: State, all: seq<NodeId>, n: nat, t: State)
    requires Listed(s, all, n) && Mirror(s, all, n, t, |all|)
    ensures TimesOk(s.info) ==> TimesOk(t.info)
  {
    if TimesOk(s.info) {
      forall id | id in t.info
        ensures 0 <= t.info[id].lastTry && 0 <= t.info[id].lastSuccess &&
                (t.info[id].inTried ==> t.info[id].lastSuccess != 0)
      {
        assert MirrorEntry(s.info[all[id.n]], t.info[id], id.n >= n);
        assert all[id.n] in s.info;
      }
    }
  }

  lemma SameNewTable(p: Params, s: State, all: seq<NodeId>, n: nat, t: State)
    requires Listed(s, all, n) && Mirror(s, all, n, t, |all|) && NewTabMirrors(s, all, n, t)
    requires forall sl :: sl in s.newTab <==> sl in t.newTab
    ensures SameTable(s.info, s.newTab, t.info, t.newTab)
  {
    forall sl | sl in t.newTab && t.newTab[sl] in t.info
      ensures s.info[s.newTab[sl]].addr == t.info[t.newTab[sl]].addr {
      var id := t.newTab[sl];
      assert MirrorEntry(s.info[all[id.n]], t.info[id], id.n >= n);
    }
  }

  lemma SameRecords(p: Params, s: State, all: seq<NodeId>, n: nat, t: State)
    requires Listed(s, all, n) && Mirror(s, all, n, t, |all|)
    requires forall a :: a in s.ids && a in t.ids ==> 0 <= t.ids[a].n < |all| && all[t.ids[a].n] == s.ids[a]
    requires TriedOk(p, s.key, s.info, s.triedTab) && TriedOk(p, t.key, t.info, t.triedTab)
    requires forall id :: id in t.info && !t.info[id].inTried ==> t.info[id].refCount == s.info[all[id.n]].refCount
    ensures forall a :: a in s.ids && a in t.ids && s.ids[a] in s.info && t.ids[a] in t.info ==>
              && SameSaved(s.info[s.ids[a]], t.info[t.ids[a]])
              && t.info[t.ids[a]].inTried == s.info[s.ids[a]].inTried
              && t.info[t.ids[a]].refCount == s.info[s.ids[a]].refCount
  {
    hide TriedSlot;
    forall a | a in s.ids && a in t.ids && s.ids[a] in s.info && t.ids[a] in t.info
      ensures SameSaved(s.info[s.ids[a]], t.info[t.ids[a]])
              && t.info[t.ids[a]].inTried == s.info[s.ids[a]].inTried
              && t.info[t.ids[a]].refCount == s.info[s.ids[a]].refCount
    {
      var id := t.ids[a];
      assert MirrorEntry(s.info[all[id.n]], t.info[id], id.n >= n);
    }
  }
}
