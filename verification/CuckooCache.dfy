/** The cuckoo cache as an object over its table and flag arrays. */
module CuckooCache {
  import opened Cuckoo
  import opened CuckooEpochs
  import opened Options

  class Cache {
    const hash: Hash
    const table: array<Elem>
    const collect: array<bool>
    const epoch: array<bool>
    const epochSize: nat
    const depthLimit: nat
    var counter: nat

    ghost predicate Valid()
      reads this, table, collect, epoch
    {
      collect != epoch && Sound(hash, View())
    }

    ghost function View(): State
      reads this, table, collect, epoch
    {
      State(table[..], collect[..], epoch[..], counter, epochSize)
    }

    /** A cache of at least two slots, all erasable. The hash functions map into the slots. */
    constructor (newSize: nat, depthLimit: nat, hash: Hash)
      requires newSize < 0x1_0000_0000
      requires forall e :: |hash(e)| == 8 && forall k :: 0 <= k < 8 ==> hash(e)[k] < Max(2, newSize)
      ensures Valid() && this.hash == hash && this.depthLimit == depthLimit && counter == epochSize >= 1
      ensures table.Length == collect.Length == epoch.Length == Max(2, newSize)
      ensures epochSize == EpochSize(table.Length)
      ensures forall i :: 0 <= i < table.Length ==> collect[i]
      ensures fresh(table) && fresh(collect) && fresh(epoch)
    {
      var size := Max(2, newSize);
      this.hash := hash;
      this.depthLimit := depthLimit;
      table := new Elem[size](_ => DEFAULT);
      collect := new bool[size](_ => true);
      epoch := new bool[size](_ => false);
      epochSize := EpochSize(size);
      counter := EpochSize(size);
    }

    /** The first of the places that holds `e`. */
    method FindPlace(locs: seq<nat>, e: Elem) returns (r: Option<nat>)
      requires forall k :: 0 <= k < |locs| ==> locs[k] < table.Length
      ensures r == FirstHolding(locs, table[..], e)
    {
      var k := 0;
      while k < |locs|
        invariant 0 <= k <= |locs| && FirstHolding(locs, table[..], e) == FirstHolding(locs[k..], table[..], e)
      {
        if table[locs[k]] == e {
          return Some(locs[k]);
        }
        k := k + 1;
      }
      r := None;
    }

    /** The first of the places that may be overwritten. */
    method FindFree(locs: seq<nat>) returns (r: Option<nat>)
      requires forall k :: 0 <= k < |locs| ==> locs[k] < collect.Length
      ensures r == FirstFree(locs, collect[..])
    {
      var k := 0;
      while k < |locs|
        invariant 0 <= k <= |locs| && FirstFree(locs, collect[..]) == FirstFree(locs[k..], collect[..])
      {
        if collect[locs[k]] {
          return Some(locs[k]);
        }
        k := k + 1;
      }
      r := None;
    }

    /** Whether `e` is in the table; on request it becomes erasable. */
    method Contains(e: Elem, erase: bool) returns (found: bool)
      requires Valid()
      modifies collect
      ensures Valid() && View() == Looked(hash, old(View()), e, erase)
      ensures e != DEFAULT ==> (found <==> e in table[..])
      ensures found && erase ==> exists i :: 0 <= i < table.Length && table[i] == e && collect[i]
    {
      if e != DEFAULT { FoundIff(hash, View(), e); }
      LookKeeps(hash, View(), e, erase);
      var place := FindPlace(hash(e), e);
      found := place.Some?;
      if found && erase {
        collect[place.value] := true;
      }
    }

    /** Counts the kept slots of the current epoch. */
    method CountRecent() returns (count: nat)
      requires collect.Length == epoch.Length
      ensures count == Recent(collect[..], epoch[..])
    {
      count := 0;
      var i := 0;
      while i < collect.Length
        invariant 0 <= i <= collect.Length && count == Recent(collect[..i], epoch[..i])
      {
        assert collect[..i + 1][..i] == collect[..i] && epoch[..i + 1][..i] == epoch[..i];
        if epoch[i] && !collect[i] {
          count := count + 1;
        }
        i := i + 1;
      }
      assert collect[..i] == collect[..] && epoch[..i] == epoch[..];
    }

    method EpochCheck()
      requires Valid()
      modifies collect, epoch, this`counter
      ensures Valid() && View() == EpochChecked(old(View()))
    {
      hide Sound, Recent;
      SoundShape(hash, View());
      EpochKeeps(hash, View());
      ghost var was := View();
      if counter != 0 {
        counter := counter - 1;
        assert View() == EpochChecked(was);
        return;
      }
      var count := CountRecent();
      if count >= epochSize {
        ghost var c, p := collect[..], epoch[..];
        var i := 0;
        while i < epoch.Length
          invariant 0 <= i <= epoch.Length
          invariant forall j :: 0 <= j < i ==> collect[j] == (c[j] || !p[j]) && !epoch[j]
          invariant forall j :: i <= j < epoch.Length ==> collect[j] == c[j] && epoch[j] == p[j]
        {
          if epoch[i] {
            epoch[i] := false;
          } else {
            collect[i] := true;
          }
          i := i + 1;
        }
        counter := epochSize;
      } else {
        counter := Max(1, Max(epochSize / 16, epochSize - count));
      }
      assert View() == EpochChecked(was);
    }

    /** Inserts an element, displacing others where all its places are taken. */
    method Insert(e: Elem) returns (ghost gone: Option<Elem>)
      requires Valid()
      modifies table, collect, epoch, this`counter
      ensures Valid() && (View(), gone) == Inserted(hash, old(View()), e, depthLimit)
    {
      InsertKeeps(hash, View(), e, depthLimit);
      EpochCheck();
      var place := FindPlace(hash(e), e);
      if place.Some? {
        collect[place.value] := false;
        epoch[place.value] := true;
        return None;
      }
      gone := Rehouse(e);
    }

    /** Finds room for an element that is not in the table. */
    method Rehouse(elem: Elem) returns (ghost gone: Option<Elem>)
      requires collect != epoch && Shape(hash, View())
      modifies table, collect, epoch
      ensures (View(), gone) == Displace(hash, old(View()), elem, -1, true, depthLimit)
    {
      hide Displace;
      var e, last, recent := elem, -1, true;
      var depth := 0;
      while depth < depthLimit
        invariant 0 <= depth <= depthLimit && Shape(hash, View())
        invariant Displace(hash, View(), e, last, recent, depthLimit - depth) ==
                  Displace(hash, old(View()), elem, -1, true, depthLimit)
      {
        Round(hash, View(), e, last, recent, depthLimit - depth);
        var locs := hash(e);
        var free := FindFree(locs);
        if free.Some? {
          table[free.value] := e;
          collect[free.value] := false;
          epoch[free.value] := recent;
          return None;
        }
        last := NextLoc(locs, last);
        ghost var was := View();
        var e1, recent1 := table[last], epoch[last];
        table[last] := e;
        epoch[last] := recent;
        assert View() == Swapped(was, last, e, recent);
        e, recent := e1, recent1;
        depth := depth + 1;
      }
      Round(hash, View(), e, last, recent, 0);
      gone := Some(e);
    }

    /** One use of the cache. */
    method Perform(u: Use) returns (ghost gone: Option<Elem>)
      requires Valid()
      modifies table, collect, epoch, this`counter
      ensures Valid() && (View(), gone) == Used(hash, old(View()), u, depthLimit)
    {
      match u
      case Put(e) => gone := Insert(e);
      case Look(e, erase) =>
        var _ := Contains(e, erase);
        gone := None;
    }

    /** A run of uses, on the object. */
    method PerformAll(us: seq<Use>)
      requires Valid()
      modifies table, collect, epoch, this`counter
      ensures Valid() && View() == UseAll(hash, old(View()), us, depthLimit)
    {
      hide Sound, Used;
      ghost var start := View();
      assert us[0..] == us;
      var n := 0;
      while n < |us|
        invariant 0 <= n <= |us| && Valid() && Sound(hash, start)
        invariant UseAll(hash, View(), us[n..], depthLimit) == UseAll(hash, start, us, depthLimit)
      {
        assert us[n..][0] == us[n] && us[n..][1..] == us[n + 1..];
        ghost var _ := Perform(us[n]);
        n := n + 1;
      }
    }
  }

  /** Whatever is asked of a new cache, its epochs stay within their bound and a slot stays free. */
  method UseNew(newSize: nat, depthLimit: nat, hash: Hash, us: seq<Use>) returns (cache: Cache)
    requires 20 < newSize < 0x1_0000_0000
    requires forall e :: |hash(e)| == 8 && forall k :: 0 <= k < 8 ==> hash(e)[k] < newSize
    ensures fresh(cache) && cache.Valid() && cache.table.Length == cache.collect.Length == newSize
    ensures exists i :: 0 <= i < newSize && cache.collect[i]
    ensures forall age :: KeptOf(cache.collect[..], cache.epoch[..], age) <= Most(EpochSize(newSize))
  {
    hide Sound, UseAll;
    cache := new Cache(newSize, depthLimit, hash);
    EpochShare(newSize);
    ghost var start := cache.View();
    cache.PerformAll(us);
    SoundShape(hash, cache.View());
    NeverFull(hash, start, us, depthLimit);
    KeptBound(hash, start, us, depthLimit);
  }
}
