/** Saving the address manager to a file and loading it again. */
module AddrManFile {
  import opened AddrManOps
  import opened AddrManRuns
  import opened AddrManSpec
  import opened AddrManSteps
  import opened Options

  const FILE_FORMAT := 4
  const INCOMPATIBILITY_BASE := 32
  const BIT_30 := 0x4000_0000

  /** The fields of an entry that are written; the rest is reconstructed or kept in memory only. */
  datatype Record = Record(addr: Service, source: NetAddr, time: int, services: set<nat>, lastSuccess: int,
                           attempts: int)

  /** A file: a header, the new entries, the tried entries, and for each new bucket the indices of its
      entries in the list of new entries. */
  datatype File = File(
    format: int, compat: int, key: int, nNew: int, nTried: int, bucketField: int,
    news: seq<Record>, trieds: seq<Record>, buckets: seq<seq<int>>, asmap: int)

  function RecordOf(i: AddrInfo): Record {
    Record(i.addr, i.source, i.time, i.services, i.lastSuccess, i.attempts)
  }

  /** The exclusive or with 2^30 that marks the bucket count. */
  function Mark(n: int): int {
    if n / BIT_30 % 2 == 0 then n + BIT_30 else n - BIT_30
  }

  lemma MarkTwice(n: int)
    ensures Mark(Mark(n)) == n
  {
  }

  // ---------------------------------------------------------------- loading

  function Loaded(p: Params, s: State, r: Record): State {
    var id := NodeId(s.idCount);
    var c := Create(p, s, Address(r.addr, r.time, r.services), r.source);
    Touch(c, id, c.info[id].(lastSuccess := r.lastSuccess, attempts := r.attempts))
  }

  /** A tried record is taken if it is valid and its slot is free, and lost otherwise. */
  predicate Takes(p: Params, s: State, r: Record) {
    p.valid(r.addr) && TriedSlot(p, s.key, r.addr) !in s.triedTab
  }

  function LoadedTried(p: Params, s: State, r: Record): State {
    if Takes(p, s, r) then
      var id := NodeId(s.idCount);
      Seat(p, Recount(p, Loaded(p, s, r), id, -1), id)
    else s
  }

  /** Where a saved reference goes: to the slot of the saved bucket if buckets can be restored and the
      slot is free, else to the slot that the source of the entry gives it. */
  function RefSlot(p: Params, s: State, restore: bool, bucket: int, id: NodeId): Option<Slot>
    requires id in s.info
  {
    var i := s.info[id];
    var sl := NewSlotIn(p, s.key, i.addr, bucket);
    var own := NewSlot(p, s.key, i.addr, i.source);
    if !p.valid(i.addr) || i.refCount >= NEW_BUCKETS_PER_ADDRESS then None
    else if restore && sl !in s.newTab then Some(sl)
    else if own !in s.newTab then Some(own)
    else None
  }

  function LoadedRef(p: Params, s: State, restore: bool, bucket: int, id: NodeId): State
    requires id in s.info
  {
    match RefSlot(p, s, restore, bucket, id)
    case Some(sl) => AddRef(s, sl, id)
    case None => s
  }

  function LoadNews(p: Params, s: State, rs: seq<Record>): State {
    if rs == [] then s else Loaded(p, LoadNews(p, s, rs[..|rs| - 1]), rs[|rs| - 1])
  }

  function LoadTrieds(p: Params, s: State, rs: seq<Record>): State {
    if rs == [] then s else LoadedTried(p, LoadTrieds(p, s, rs[..|rs| - 1]), rs[|rs| - 1])
  }

  /** A saved reference: a bucket and an index into the new entries. */
  datatype Ref = Ref(bucket: int, index: int)

  function LoadRefs(p: Params, s: State, restore: bool, refs: seq<Ref>): (t: State)
    requires forall r :: r in refs ==> NodeId(r.index) in s.info
    ensures t.info.Keys == s.info.Keys
  {
    if refs == [] then s else
      var r := refs[|refs| - 1];
      LoadedRef(p, LoadRefs(p, s, restore, refs[..|refs| - 1]), restore, r.bucket, NodeId(r.index))
  }

  // ---------------------------------------------------------------- loading keeps the invariant

  lemma LoadedKeeps(p: Params, s: State, r: Record, zero: set<NodeId>)
    requires Inv(p, s, zero, {}) && r.addr !in s.ids
    ensures Inv(p, Loaded(p, s, r), zero + {NodeId(s.idCount)}, {})
  {
    hide Inv;
    var id := NodeId(s.idCount);
    var a := Address(r.addr, r.time, r.services);
    CreateKeeps(p, s, a, r.source, zero);
    var c := Create(p, s, a, r.source);
    TouchKeeps(p, c, id, c.info[id].(lastSuccess := r.lastSuccess, attempts := r.attempts), zero + {id}, {});
  }

  lemma LoadedTriedKeeps(p: Params, s: State, r: Record, zero: set<NodeId>)
    requires Inv(p, s, zero, {}) && r.addr !in s.ids
    ensures Inv(p, LoadedTried(p, s, r), zero, {})
  {
    hide RandomOk, IdsOk, TriedOk, NewOk, CountsOk;
    if Takes(p, s, r) {
      var id := NodeId(s.idCount);
      IdUnused(s.info, s.ids, s.idCount);
      assert (zero + {id}) - {id} == zero;
      assert {} + {id} == {id};
      assert {id} - {id} == {};
      LoadedKeeps(p, s, r, zero);
      UncountKeeps(p, Loaded(p, s, r), id, zero + {id}, {});
      SeatKeeps(p, Recount(p, Loaded(p, s, r), id, -1), id, zero, {id});
    }
  }

  lemma LoadedRefKeeps(p: Params, s: State, restore: bool, bucket: int, id: NodeId, zero: set<NodeId>)
    requires Inv(p, s, zero, {}) && id in s.info && !s.info[id].inTried
    requires restore ==> 0 <= bucket < p.newBuckets
    ensures Inv(p, LoadedRef(p, s, restore, bucket, id),
                if RefSlot(p, s, restore, bucket, id).Some? then zero - {id} else zero, {})
  {
    hide RandomOk, IdsOk, TriedOk, NewOk, CountsOk, LooseOk;
    match RefSlot(p, s, restore, bucket, id)
    case Some(sl) => AddRefKeeps(p, s, sl, id, zero, {});
    case None =>
  }

  /** The entry that a record is read into. */
  function EntryOf(r: Record, inTried: bool, pos: int): AddrInfo {
    AddrInfo(r.addr, r.source, r.time, r.services, 0, 0, r.lastSuccess, r.attempts, 0, inTried, pos)
  }

  lemma LoadedTriedIs(p: Params, s: State, r: Record)
    requires Takes(p, s, r)
    ensures LoadedTried(p, s, r) ==
            s.(idCount := s.idCount + 1,
               info := s.info[NodeId(s.idCount) := EntryOf(r, true, |s.random|)],
               ids := s.ids[r.addr := NodeId(s.idCount)],
               random := s.random + [NodeId(s.idCount)],
               nTried := s.nTried + 1,
               triedTab := s.triedTab[TriedSlot(p, s.key, r.addr) := NodeId(s.idCount)],
               counts := Bump(s.counts, p.network(r.addr), 0, 1))
  {
    hide TriedSlot;
    BumpBack(s.counts, p.network(r.addr));
  }

  lemma BumpBack(counts: map<Network, Count>, net: Network)
    ensures Bump(Bump(Bump(counts, net, 1, 0), net, -1, 0), net, 0, 1) == Bump(counts, net, 0, 1)
  {
  }

  lemma LoadedIs(p: Params, s: State, r: Record)
    ensures Loaded(p, s, r) ==
            s.(idCount := s.idCount + 1,
               info := s.info[NodeId(s.idCount) := EntryOf(r, false, |s.random|)],
               ids := s.ids[r.addr := NodeId(s.idCount)],
               random := s.random + [NodeId(s.idCount)],
               nNew := s.nNew + 1,
               counts := Bump(s.counts, p.network(r.addr), 1, 0))
  {
  }

  // ---------------------------------------------------------------- what becomes of saved references

  /** A saved reference of a valid entry is lost only if the entry has eight, or the slots it could go to are taken; it
      goes to its saved slot whenever that can be restored and is free, and otherwise to the one its source gives it. */
  lemma RefLost(p: Params, s: State, restore: bool, bucket: int, id: NodeId)
    requires id in s.info && p.valid(s.info[id].addr)
    ensures var t := LoadedRef(p, s, restore, bucket, id);
            var saved := NewSlotIn(p, s.key, s.info[id].addr, bucket);
            var own := NewSlot(p, s.key, s.info[id].addr, s.info[id].source);
            && (t == s <==> s.info[id].refCount >= 8 || ((restore ==> saved in s.newTab) && own in s.newTab))
            && (t != s ==> t.newTab == s.newTab[(if restore && saved !in s.newTab then saved else own) := id]
                           && t.info == s.info[id := s.info[id].(refCount := s.info[id].refCount + 1)])
  {
    var t := LoadedRef(p, s, restore, bucket, id);
    if RefSlot(p, s, restore, bucket, id).Some? { assert t.info[id].refCount == s.info[id].refCount + 1; }
  }

  /** A tried record is lost exactly when its address is not valid or its slot is taken; otherwise it is in that slot,
      with all that was saved of it. */
  lemma TriedLost(p: Params, s: State, r: Record)
    requires NodeId(s.idCount) !in s.info
    ensures var t := LoadedTried(p, s, r);
            var sl := TriedSlot(p, s.key, r.addr);
            && (t == s <==> !p.valid(r.addr) || sl in s.triedTab)
            && (t != s ==>
                  var id := NodeId(s.idCount);
                  && t.triedTab == s.triedTab[sl := id] && id in t.info && t.info[id].inTried
                  && t.info[id].addr == r.addr && t.info[id].source == r.source && t.info[id].time == r.time
                  && t.info[id].services == r.services && t.info[id].lastSuccess == r.lastSuccess
                  && t.info[id].attempts == r.attempts)
  {
    if Takes(p, s, r) { assert LoadedTried(p, s, r).idCount == s.idCount + 1; }
  }

  /** The slot that the source of an entry gives it. */
  function OwnSlot(p: Params, s: State, id: NodeId): Slot
    requires id in s.info
  {
    NewSlot(p, s.key, s.info[id].addr, s.info[id].source)
  }

  /** Every occupied slot is the own one of its entry, which has no other. */
  ghost predicate OwnSlotsOnly(p: Params, s: State) {
    && (forall sl :: sl in s.newTab ==> s.newTab[sl] in s.info && sl == OwnSlot(p, s, s.newTab[sl]))
    && (forall id :: id in s.info && s.info[id].refCount != 0 ==>
          s.info[id].refCount == 1 && OwnSlot(p, s, id) in s.newTab)
  }

  lemma RebucketedOne(p: Params, s: State, bucket: int, id: NodeId)
    requires OwnSlotsOnly(p, s) && id in s.info
    ensures var t := LoadedRef(p, s, false, bucket, id);
            && OwnSlotsOnly(p, t) && t.info.Keys == s.info.Keys && t.key == s.key
            && (forall k :: k in s.info ==> t.info[k].addr == s.info[k].addr && t.info[k].source == s.info[k].source)
            && (forall sl :: sl in s.newTab ==> sl in t.newTab && t.newTab[sl] == s.newTab[sl])
            && (p.valid(s.info[id].addr) ==> OwnSlot(p, s, id) in t.newTab)
  {
    hide OwnSlotsOnly, AddRef;
    OwnCount(p, s, id);
    if RefSlot(p, s, false, bucket, id).Some? { OwnAdded(p, s, id); }
  }

  lemma OwnCount(p: Params, s: State, id: NodeId)
    requires OwnSlotsOnly(p, s) && id in s.info
    ensures s.info[id].refCount <= 1
  {
  }

  lemma OwnAdded(p: Params, s: State, id: NodeId)
    requires OwnSlotsOnly(p, s) && id in s.info && OwnSlot(p, s, id) !in s.newTab
    ensures var t := AddRef(s, OwnSlot(p, s, id), id);
            && OwnSlotsOnly(p, t) && t.info.Keys == s.info.Keys && t.key == s.key
            && (forall k :: k in s.info ==> t.info[k].addr == s.info[k].addr && t.info[k].source == s.info[k].source)
            && t.newTab == s.newTab[OwnSlot(p, s, id) := id]
  {
    hide NewSlot;
    var t := AddRef(s, OwnSlot(p, s, id), id);
    assert s.info[id].refCount == 0;
    forall k | k in s.info ensures OwnSlot(p, t, k) == OwnSlot(p, s, k) {
    }
  }

  /** When buckets cannot be restored, each slot goes to one of the entries that it is the own slot of: a valid entry in
      the file is without a slot in the end only if another one took it. */
  lemma {:induction false} Rebucketed(p: Params, s: State, refs: seq<Ref>)
    requires OwnSlotsOnly(p, s) && forall r :: r in refs ==> NodeId(r.index) in s.info
    ensures var t := LoadRefs(p, s, false, refs);
            && OwnSlotsOnly(p, t) && t.key == s.key
            && (forall k :: k in s.info ==> t.info[k].addr == s.info[k].addr && t.info[k].source == s.info[k].source)
            && (forall r :: r in refs && p.valid(s.info[NodeId(r.index)].addr) ==>
                  OwnSlot(p, s, NodeId(r.index)) in t.newTab)
  {
    hide OwnSlotsOnly, LoadedRef, NewSlot;
    if refs != [] {
      var n := |refs| - 1;
      Rebucketed(p, s, refs[..n]);
      var u := LoadRefs(p, s, false, refs[..n]);
      RebucketedOne(p, u, refs[n].bucket, NodeId(refs[n].index));
      forall r | r in refs && p.valid(s.info[NodeId(r.index)].addr)
        ensures OwnSlot(p, s, NodeId(r.index)) in LoadRefs(p, s, false, refs).newTab
      {
        if r != refs[n] { assert r in refs[..n]; }
      }
    }
  }
}
