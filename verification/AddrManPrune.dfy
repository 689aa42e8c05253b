/** The end of loading: entries that found no slot are deleted, in any order. What the consistency check does
    not look at holds all along, so an accepted file gives a sound address manager. */
module AddrManPrune {
  import opened AddrManCheck
  import opened AddrManFile
  import opened AddrManObject
  import opened AddrManReload
  import opened AddrManRuns
  import opened AddrManSpec
  import opened AddrManSteps

  function AddrsOf(info: map<NodeId, AddrInfo>, ids: set<NodeId>): set<Service> {
    set id | id in ids && id in info :: info[id].addr
  }

  function InNetwork(p: Params, info: map<NodeId, AddrInfo>, ids: set<NodeId>, net: Network): set<NodeId> {
    set id | id in ids && id in info && p.network(info[id].addr) == net
  }

  /** `t` is `s` without the entries in `gone`: only the order of `random` is left open. */
  ghost predicate Without(p: Params, s: State, t: State, gone: set<NodeId>) {
    && gone <= s.info.Keys && t.info.Keys == s.info.Keys - gone
    && (forall id :: id in t.info ==> t.info[id] == s.info[id].(randomPos := t.info[id].randomPos))
    && RandomOk(t.info, t.random)
    && t.ids == s.ids - AddrsOf(s.info, gone)
    && t == s.(info := t.info, ids := t.ids, random := t.random, counts := t.counts, nNew := s.nNew - |gone|)
    && forall net :: CountOf(t.counts, net) ==
                     Count(CountOf(s.counts, net).nNew - |InNetwork(p, s.info, gone, net)|,
                           CountOf(s.counts, net).nTried)
  }

  lemma WithoutNone(p: Params, s: State)
    requires RandomOk(s.info, s.random)
    ensures Without(p, s, s, {})
  {
    forall net ensures InNetwork(p, s.info, {}, net) == {} {}
    assert AddrsOf(s.info, {}) == {};
  }

  lemma WithoutCollisions(p: Params, s: State, t: State, gone: set<NodeId>)
    requires Without(p, s, t, gone)
    ensures t.collisions == s.collisions
  {
  }

  /** Swapping moves entries around in `random` and does nothing else. */
  lemma SwapOnly(s: State, i: int, j: int)
    requires 0 <= i < |s.random| && 0 <= j < |s.random| && s.random[i] in s.info && s.random[j] in s.info
    ensures var t := SwapRandom(s, i, j);
            && t == s.(info := t.info, random := t.random) && t.info.Keys == s.info.Keys
            && forall x :: x in t.info ==> t.info[x] == s.info[x].(randomPos := t.info[x].randomPos)
  {
  }

  lemma DeletedIs(p: Params, t: State, id: NodeId)
    requires RandomOk(t.info, t.random) && id in t.info
    ensures var u := Delete(p, t, id);
            && u == t.(info := u.info, random := u.random, ids := t.ids - {t.info[id].addr}, nNew := t.nNew - 1,
                       counts := Bump(t.counts, p.network(t.info[id].addr), -1, 0))
            && u.info.Keys == t.info.Keys - {id}
            && (forall x :: x in u.info ==> u.info[x] == t.info[x].(randomPos := u.info[x].randomPos))
            && RandomOk(u.info, u.random)
  {
    hide RandomOk, SwapRandom, Bump;
    DeleteRandom(p, t, id);
    SwapBounds(t, id);
    SwapLast(t, id);
    SwapOnly(t, t.info[id].randomPos, |t.random| - 1);
  }

  lemma WithoutOne(p: Params, s: State, t: State, gone: set<NodeId>, id: NodeId)
    requires Without(p, s, t, gone) && id in t.info
    ensures Without(p, s, Delete(p, t, id), gone + {id})
  {
    hide RandomOk, Delete, Bump;
    DeletedIs(p, t, id);
    var u := Delete(p, t, id);
    assert AddrsOf(s.info, gone + {id}) == AddrsOf(s.info, gone) + {s.info[id].addr};
    GoneNets(p, s, t, gone, id);
  }

  lemma GoneNets(p: Params, s: State, t: State, gone: set<NodeId>, id: NodeId)
    requires id in s.info && id !in gone
    requires forall net :: CountOf(t.counts, net) ==
               Count(CountOf(s.counts, net).nNew - |InNetwork(p, s.info, gone, net)|, CountOf(s.counts, net).nTried)
    ensures forall net :: CountOf(Bump(t.counts, p.network(s.info[id].addr), -1, 0), net) ==
              Count(CountOf(s.counts, net).nNew - |InNetwork(p, s.info, gone + {id}, net)|,
                    CountOf(s.counts, net).nTried)
  {
    hide CountOf, Bump, InNetwork;
    forall net ensures CountOf(Bump(t.counts, p.network(s.info[id].addr), -1, 0), net) ==
      Count(CountOf(s.counts, net).nNew - |InNetwork(p, s.info, gone + {id}, net)|, CountOf(s.counts, net).nTried)
    {
      BumpAt(t.counts, p.network(s.info[id].addr), net);
      OneMore(p, s.info, gone, id, net);
    }
  }

  lemma BumpAt(counts: map<Network, Count>, n: Network, net: Network)
    ensures CountOf(Bump(counts, n, -1, 0), net) ==
            Count(CountOf(counts, net).nNew - if n == net then 1 else 0, CountOf(counts, net).nTried)
  {
  }

  lemma OneMore(p: Params, info: map<NodeId, AddrInfo>, gone: set<NodeId>, id: NodeId, net: Network)
    requires id in info && id !in gone
    ensures |InNetwork(p, info, gone + {id}, net)| ==
            |InNetwork(p, info, gone, net)| + if p.network(info[id].addr) == net then 1 else 0
  {
    if p.network(info[id].addr) == net {
      assert InNetwork(p, info, gone + {id}, net) == InNetwork(p, info, gone, net) + {id};
    } else {
      assert InNetwork(p, info, gone + {id}, net) == InNetwork(p, info, gone, net);
    }
  }

  /** Deletes the entries that ended up without a slot. */
  method Prune(m: AddrMan)
    requires RandomOk(m.mapInfo, m.vRandom) && Unchecked(m.p, m.View())
    modifies m
    ensures Without(m.p, old(m.View()), m.View(), Unplaced(old(m.mapInfo)))
    ensures Unplaced(old(m.mapInfo)) == {} ==> m.View() == old(m.View())
    ensures Unchecked(m.p, m.View())
  {
    hide Table, Delete, Without, RandomOk, Unchecked, Unplaced;
    ghost var s := m.View();
    ghost var out := Unplaced(s.info);
    WithoutNone(m.p, s);
    var rest := m.mapInfo.Keys;
    ghost var gone := {};
    GoneNone(s.info);
    while rest != {}
      invariant rest <= s.info.Keys && gone == out - rest
      invariant Without(m.p, s, m.View(), gone) && Unchecked(m.p, m.View())
      invariant out == {} ==> m.View() == s
      decreases |rest|
    {
      var id :| id in rest;
      StillThere(m.p, s, m.View(), gone, id);
      GoneNext(out, rest, id);
      if !m.mapInfo[id].inTried && m.mapInfo[id].refCount == 0 {
        WithoutOne(m.p, s, m.View(), gone, id);
        DeleteUnchecked(m.p, m.View(), id);
        m.DeleteEntry(id);
        gone := gone + {id};
      }
      rest := rest - {id};
    }
    assert out - {} == out;
  }

  lemma GoneNext(out: set<NodeId>, rest: set<NodeId>, id: NodeId)
    requires id in rest
    ensures out - (rest - {id}) == if id in out then out - rest + {id} else out - rest
  {
  }

  lemma GoneNone(info: map<NodeId, AddrInfo>)
    ensures Unplaced(info) - info.Keys == {}
  {
  }

  lemma StillThere(p: Params, s: State, t: State, gone: set<NodeId>, id: NodeId)
    requires Without(p, s, t, gone) && id in s.info && id !in gone
    ensures id in t.info && RandomOk(t.info, t.random)
    ensures id in Unplaced(s.info) <==> !t.info[id].inTried && t.info[id].refCount == 0
  {
  }

  lemma DeleteRandom(p: Params, s: State, id: NodeId)
    requires RandomOk(s.info, s.random) && id in s.info
    ensures RandomOk(Delete(p, s, id).info, Delete(p, s, id).random)
    ensures Delete(p, s, id).info.Keys == s.info.Keys - {id}
  {
    hide SwapRandom, RandomOk;
    SwapBounds(s, id);
    var t := SwapRandom(s, s.info[id].randomPos, |s.random| - 1);
    RandomSwap(s, s.info[id].randomPos, |s.random| - 1);
    SwapPlaces(s, s.info[id].randomPos, |s.random| - 1);
    SwapLast(s, id);
    RandomPop(t.info, t.random);
  }

  lemma SwapBounds(s: State, id: NodeId)
    requires RandomOk(s.info, s.random) && id in s.info
    ensures 0 <= s.info[id].randomPos < |s.random|
    ensures s.random[s.info[id].randomPos] in s.info && s.random[|s.random| - 1] in s.info
  {
  }

  // ---------------------------------------------------------------- what the check does not look at

  lemma DeleteUnchecked(p: Params, s: State, id: NodeId)
    requires RandomOk(s.info, s.random) && id in s.info && Unchecked(p, s)
    ensures Unchecked(p, Delete(p, s, id))
  {
    hide RandomOk, Delete;
    DeletedIs(p, s, id);
    var t := Delete(p, s, id);
    forall a | a in t.ids ensures t.ids[a] in t.info && t.info[t.ids[a]].addr == a {
      assert t.ids[a] != id;
    }
    forall x | x in t.info ensures p.network(t.info[x].addr) in t.counts { assert x in s.info; }
  }

  /** A new entry, indexed by its address and counted in its network. */
  lemma AddedUnchecked(p: Params, s: State, t: State, i: AddrInfo)
    requires Unchecked(p, s) && t.idCount == s.idCount + 1 && t.newTab == s.newTab
    requires t.info == s.info[NodeId(s.idCount) := i] && t.ids == s.ids[i.addr := NodeId(s.idCount)]
    requires t.counts.Keys == s.counts.Keys + {p.network(i.addr)}
    ensures Unchecked(p, t)
  {
    forall x | x in t.info ensures p.network(t.info[x].addr) in t.counts.Keys {
      if x != NodeId(s.idCount) { assert p.network(s.info[x].addr) in Nets(p, s.info); }
    }
  }

  lemma LoadedUnchecked(p: Params, s: State, r: Record)
    requires Unchecked(p, s)
    ensures Unchecked(p, Loaded(p, s, r))
  {
    hide Unchecked;
    LoadedIs(p, s, r);
    hide Loaded;
    AddedUnchecked(p, s, Loaded(p, s, r), EntryOf(r, false, |s.random|));
  }

  lemma LoadedTriedUnchecked(p: Params, s: State, r: Record)
    requires Unchecked(p, s)
    ensures Unchecked(p, LoadedTried(p, s, r))
  {
    hide Unchecked, TriedSlot;
    if Takes(p, s, r) {
      LoadedTriedIs(p, s, r);
      hide LoadedTried;
      AddedUnchecked(p, s, LoadedTried(p, s, r), EntryOf(r, true, |s.random|));
    }
  }

  lemma RefUnchecked(p: Params, s: State, restore: bool, bucket: int, id: NodeId)
    requires Unchecked(p, s) && id in s.info && (restore ==> 0 <= bucket < p.newBuckets)
    ensures Unchecked(p, LoadedRef(p, s, restore, bucket, id))
  {
    var t := LoadedRef(p, s, restore, bucket, id);
    forall x | x in t.info ensures p.network(t.info[x].addr) in t.counts {
      assert p.network(s.info[x].addr) in Nets(p, s.info);
    }
  }

  lemma {:induction false} NewsUnchecked(p: Params, s: State, rs: seq<Record>)
    requires Unchecked(p, s)
    ensures Unchecked(p, LoadNews(p, s, rs))
    decreases |rs|
  {
    hide Unchecked;
    if rs != [] {
      NewsUnchecked(p, s, rs[..|rs| - 1]);
      LoadedUnchecked(p, LoadNews(p, s, rs[..|rs| - 1]), rs[|rs| - 1]);
    }
  }

  lemma {:induction false} TriedsUnchecked(p: Params, s: State, rs: seq<Record>)
    requires Unchecked(p, s)
    ensures Unchecked(p, LoadTrieds(p, s, rs))
    decreases |rs|
  {
    hide Unchecked;
    if rs != [] {
      TriedsUnchecked(p, s, rs[..|rs| - 1]);
      LoadedTriedUnchecked(p, LoadTrieds(p, s, rs[..|rs| - 1]), rs[|rs| - 1]);
    }
  }

  lemma {:induction false} RefsUnchecked(p: Params, s: State, restore: bool, refs: seq<Ref>)
    requires Unchecked(p, s)
    requires forall r :: r in refs ==> NodeId(r.index) in s.info && (restore ==> 0 <= r.bucket < p.newBuckets)
    ensures Unchecked(p, LoadRefs(p, s, restore, refs))
    decreases |refs|
  {
    hide Unchecked;
    if refs != [] {
      var r := refs[|refs| - 1];
      RefsUnchecked(p, s, restore, refs[..|refs| - 1]);
      RefUnchecked(p, LoadRefs(p, s, restore, refs[..|refs| - 1]), restore, r.bucket, NodeId(r.index));
    }
  }

  lemma EmptyUnchecked(p: Params, key: int)
    ensures Unchecked(p, Empty(key))
  {
  }
}
