/** The cuckoo cache on values: eight places per element, lazy erasure and two living epochs. */
module Cuckoo {
  import opened Options

  datatype Elem = Elem(id: int)

  /** What a fresh slot holds. */
  const DEFAULT := Elem(0)

  type Hash = Elem -> seq<nat>

  datatype State = State(table: seq<Elem>, collect: seq<bool>, epoch: seq<bool>, counter: nat, epochSize: nat)

  ghost predicate Shape(h: Hash, s: State) {
    && |s.collect| == |s.epoch| == |s.table|
    && forall e :: |h(e)| == 8 && forall k :: 0 <= k < 8 ==> h(e)[k] < |s.table|
  }

  /** Every slot that is kept, and every slot with a real element, is one of its element's places; no real
      element is in two slots. */
  ghost predicate Sound(h: Hash, s: State) {
    && Shape(h, s)
    && (forall i :: 0 <= i < |s.table| && (!s.collect[i] || s.table[i] != DEFAULT) ==> i in h(s.table[i]))
    && (forall i, j :: 0 <= i < j < |s.table| && s.table[i] == s.table[j] ==> s.table[i] == DEFAULT)
  }

  // ---------------------------------------------------------------- steps

  function Place(s: State, loc: nat, e: Elem, recent: bool): State
    requires loc < |s.table| == |s.collect| == |s.epoch|
  {
    s.(table := s.table[loc := e], collect := s.collect[loc := false], epoch := s.epoch[loc := recent])
  }

  /** The first place that may be overwritten. */
  function FirstFree(locs: seq<nat>, collect: seq<bool>): (r: Option<nat>)
    requires forall k :: 0 <= k < |locs| ==> locs[k] < |collect|
    ensures r.Some? ==> r.value in locs && collect[r.value]
    ensures r.None? ==> forall k :: 0 <= k < |locs| ==> !collect[locs[k]]
  {
    if locs == [] then None else if collect[locs[0]] then Some(locs[0]) else FirstFree(locs[1..], collect)
  }

  /** The first place that holds the element. */
  function FirstHolding(locs: seq<nat>, table: seq<Elem>, e: Elem): (r: Option<nat>)
    requires forall k :: 0 <= k < |locs| ==> locs[k] < |table|
    ensures r.Some? ==> r.value in locs && r.value < |table| && table[r.value] == e
    ensures r.None? ==> forall k :: 0 <= k < |locs| ==> table[locs[k]] != e
  {
    if locs == [] then None else if table[locs[0]] == e then Some(locs[0]) else FirstHolding(locs[1..], table, e)
  }

  function IndexOf(locs: seq<nat>, x: int): (k: nat)
    ensures k <= |locs| && (k < |locs| ==> locs[k] == x)
  {
    if locs == [] || locs[0] == x then 0 else 1 + IndexOf(locs[1..], x)
  }

  /** The place after the last one looked at, wrapping around; the second place if there was none. */
  function NextLoc(locs: seq<nat>, last: int): (r: nat)
    requires |locs| == 8
    ensures r in locs
  {
    locs[(1 + IndexOf(locs, last)) % 8]
  }

  lemma {:induction false} IndexOfMissing(locs: seq<nat>, x: int)
    requires x !in locs
    ensures IndexOf(locs, x) == |locs|
  {
    if locs != [] { IndexOfMissing(locs[1..], x); }
  }

  /** When no place was looked at before, displacement starts at the second place; that is the first one
      only if both are the same. */
  lemma FirstDisplaced(locs: seq<nat>, last: int)
    requires |locs| == 8 && last !in locs
    ensures NextLoc(locs, last) == locs[1]
    ensures NextLoc(locs, last) == locs[0] <==> locs[0] == locs[1]
  {
    IndexOfMissing(locs, last);
  }

  /** Finds room for `e`, displacing at most `depth` elements; the last one displaced is dropped. The age of
      an element travels with it. */
  ghost function Displace(h: Hash, s: State, e: Elem, last: int, recent: bool, depth: nat): (State, Option<Elem>)
    requires Shape(h, s)
    decreases depth
  {
    var locs := h(e);
    if depth == 0 then (s, Some(e))
    else
      match FirstFree(locs, s.collect)
      case Some(loc) => (Place(s, loc, e, recent), None)
      case None =>
        var loc := NextLoc(locs, last);
        var s1 := Swapped(s, loc, e, recent);
        Displace(h, s1, s.table[loc], loc, s.epoch[loc], depth - 1)
  }

  /** The state after an element has taken the place of another. */
  function Swapped(s: State, loc: nat, e: Elem, recent: bool): State
    requires loc < |s.table| == |s.epoch|
  {
    s.(table := s.table[loc := e], epoch := s.epoch[loc := recent])
  }

  /** One round of displacement. */
  lemma Round(h: Hash, s: State, e: Elem, last: int, recent: bool, depth: nat)
    requires Shape(h, s)
    ensures Displace(h, s, e, last, recent, 0) == (s, Some(e))
    ensures depth > 0 ==>
              match FirstFree(h(e), s.collect)
              case Some(loc) => loc < |s.table| &&
                  Displace(h, s, e, last, recent, depth) == (Place(s, loc, e, recent), None)
              case None =>
                var loc := NextLoc(h(e), last);
                loc < |s.table| && Shape(h, Swapped(s, loc, e, recent)) &&
                Displace(h, s, e, last, recent, depth) ==
                Displace(h, Swapped(s, loc, e, recent), s.table[loc], loc, s.epoch[loc], depth - 1)
  {
  }

  /** How many kept slots belong to the current epoch. */
  function Recent(collect: seq<bool>, epoch: seq<bool>): nat
    requires |collect| == |epoch|
  {
    if collect == [] then 0
    else Recent(collect[..|collect| - 1], epoch[..|epoch| - 1]) +
         (if epoch[|epoch| - 1] && !collect[|collect| - 1] then 1 else 0)
  }

  function Max(a: nat, b: nat): nat {
    if a > b then a else b
  }

  /** Starts a new epoch when the current one is full: the old one becomes erasable. */
  function EpochChecked(s: State): State
    requires |s.collect| == |s.epoch|
  {
    if s.counter != 0 then s.(counter := s.counter - 1)
    else
      var count := Recent(s.collect, s.epoch);
      if count >= s.epochSize then
        s.(collect := seq(|s.collect|, i requires 0 <= i < |s.collect| => s.collect[i] || !s.epoch[i]),
           epoch := seq(|s.epoch|, _ => false), counter := s.epochSize)
      else
        s.(counter := Max(1, Max(s.epochSize / 16, s.epochSize - count)))
  }

  /** Inserts an element, and says which one was dropped for want of room. */
  ghost function Inserted(h: Hash, s: State, e: Elem, depth: nat): (State, Option<Elem>)
    requires Shape(h, s)
  {
    var s1 := EpochChecked(s);
    match FirstHolding(h(e), s1.table, e)
    case Some(loc) => (s1.(collect := s1.collect[loc := false], epoch := s1.epoch[loc := true]), None)
    case None => Displace(h, s1, e, -1, true, depth)
  }

  // ---------------------------------------------------------------- the invariant

  lemma PlaceKeeps(h: Hash, s: State, loc: nat, e: Elem, recent: bool)
    requires Sound(h, s) && loc < |s.table| && loc in h(e) && (e == DEFAULT || e !in s.table)
    ensures Sound(h, Place(s, loc, e, recent))
  {
  }

  lemma SwapKeeps(h: Hash, s: State, loc: nat, e: Elem, recent: bool)
    requires Sound(h, s) && loc < |s.table| && loc in h(e) && (e == DEFAULT || e !in s.table)
    ensures var s1 := Swapped(s, loc, e, recent);
            Sound(h, s1) && (s.table[loc] == DEFAULT || s.table[loc] !in s1.table)
  {
  }

  lemma SoundShape(h: Hash, s: State)
    requires Sound(h, s)
    ensures Shape(h, s)
  {
  }

  lemma {:induction false} DisplaceKeeps(h: Hash, s: State, e: Elem, last: int, recent: bool, depth: nat)
    requires Sound(h, s) && (e == DEFAULT || e !in s.table)
    ensures Sound(h, Displace(h, s, e, last, recent, depth).0)
    decreases depth
  {
    hide Sound, Displace, Swapped, Place;
    SoundShape(h, s);
    Round(h, s, e, last, recent, depth);
    if depth > 0 {
      match FirstFree(h(e), s.collect) {
        case Some(loc) => PlaceKeeps(h, s, loc, e, recent);
        case None =>
          var loc := NextLoc(h(e), last);
          SwapKeeps(h, s, loc, e, recent);
          var s1 := Swapped(s, loc, e, recent);
          DisplaceKeeps(h, s1, s.table[loc], loc, s.epoch[loc], depth - 1);
      }
    }
  }

  lemma EpochKeeps(h: Hash, s: State)
    requires Sound(h, s)
    ensures Sound(h, EpochChecked(s)) && EpochChecked(s).table == s.table
  {
  }

  /** An element is in the table exactly when it is at one of its places. */
  lemma FoundIff(h: Hash, s: State, e: Elem)
    requires Sound(h, s) && e != DEFAULT
    ensures FirstHolding(h(e), s.table, e).Some? <==> e in s.table
  {
    if e in s.table {
      var i :| 0 <= i < |s.table| && s.table[i] == e;
      var k :| 0 <= k < 8 && h(e)[k] == i;
      assert s.table[h(e)[k]] == e;
    }
  }

  lemma InsertKeeps(h: Hash, s: State, e: Elem, depth: nat)
    requires Sound(h, s)
    ensures Sound(h, Inserted(h, s, e, depth).0)
  {
    EpochKeeps(h, s);
    var s1 := EpochChecked(s);
    if FirstHolding(h(e), s1.table, e).None? {
      if e != DEFAULT { FoundIff(h, s1, e); }
      DisplaceKeeps(h, s1, e, -1, true, depth);
    }
  }

  // ---------------------------------------------------------------- what an insertion loses

  /** The elements in slots that are kept. */
  ghost function Live(table: seq<Elem>, collect: seq<bool>): multiset<Elem>
    requires |table| == |collect|
  {
    if table == [] then multiset{}
    else Live(table[..|table| - 1], collect[..|collect| - 1]) + Kept(table[|table| - 1], collect[|collect| - 1])
  }

  function Kept(e: Elem, erasable: bool): multiset<Elem> {
    if erasable then multiset{} else multiset{e}
  }

  lemma {:induction false} LiveUpdate(table: seq<Elem>, collect: seq<bool>, i: nat, e: Elem, c: bool)
    requires i < |table| == |collect|
    ensures Live(table[i := e], collect[i := c]) + Kept(table[i], collect[i]) == Live(table, collect) + Kept(e, c)
  {
    var n := |table| - 1;
    if i < n {
      LiveUpdate(table[..n], collect[..n], i, e, c);
      assert table[i := e][..n] == table[..n][i := e] && collect[i := c][..n] == collect[..n][i := c];
      var last := Kept(table[n], collect[n]);
      Regroup(Live(table[..n][i := e], collect[..n][i := c]), last, Kept(table[i], collect[i]));
      Regroup(Live(table[..n], collect[..n]), last, Kept(e, c));
    } else {
      assert table[i := e][..n] == table[..n] && collect[i := c][..n] == collect[..n];
      Regroup(Live(table[..n], collect[..n]), Kept(e, c), Kept(table[n], collect[n]));
    }
  }

  lemma Regroup(a: multiset<Elem>, b: multiset<Elem>, c: multiset<Elem>)
    ensures (a + b) + c == (a + c) + b
  {
  }

  function Gone(d: Option<Elem>): multiset<Elem> {
    if d.Some? then multiset{d.value} else multiset{}
  }

  /** Displacing conserves the kept elements: the new one is added, and at most one is dropped. */
  lemma {:induction false} DisplaceConserves(h: Hash, s: State, e: Elem, last: int, recent: bool, depth: nat)
    requires Shape(h, s)
    ensures var (s1, gone) := Displace(h, s, e, last, recent, depth);
            |s1.table| == |s1.collect| &&
                Live(s1.table, s1.collect) + Gone(gone) == Live(s.table, s.collect) + multiset{e}
    decreases depth
  {
    hide Live;
    if depth > 0 {
      match FirstFree(h(e), s.collect) {
        case Some(loc) => LiveUpdate(s.table, s.collect, loc, e, false);
        case None =>
          var loc := NextLoc(h(e), last);
          LiveUpdate(s.table, s.collect, loc, e, false);
          assert s.collect[loc := false] == s.collect;
          var s1 := Swapped(s, loc, e, recent);
          DisplaceConserves(h, s1, s.table[loc], loc, s.epoch[loc], depth - 1);
      }
    }
  }

  /** Once the epochs are checked an insertion loses at most one kept element. */
  lemma InsertConserves(h: Hash, s: State, e: Elem, depth: nat)
    requires Shape(h, s)
    ensures var s1 := EpochChecked(s);
            var (s2, gone) := Inserted(h, s, e, depth);
            && |s2.table| == |s2.collect|
            && (|| Live(s2.table, s2.collect) + Gone(gone) == Live(s1.table, s1.collect) + multiset{e}
                || (Live(s2.table, s2.collect) == Live(s1.table, s1.collect) && e in Live(s1.table, s1.collect)))
  {
    hide Live;
    var s1 := EpochChecked(s);
    match FirstHolding(h(e), s1.table, e) {
      case Some(loc) =>
        LiveUpdate(s1.table, s1.collect, loc, e, false);
        assert s1.table[loc := e] == s1.table;
        if !s1.collect[loc] {
          assert s1.collect[loc := false] == s1.collect;
          LiveHas(s1.table, s1.collect, loc);
        }
      case None => DisplaceConserves(h, s1, e, -1, true, depth);
    }
  }

  lemma {:induction false} LiveHas(table: seq<Elem>, collect: seq<bool>, i: nat)
    requires i < |table| == |collect| && !collect[i]
    ensures table[i] in Live(table, collect)
  {
    var n := |table| - 1;
    if i < n { LiveHas(table[..n], collect[..n], i); }
  }

  /** A place of the element can be overwritten. */
  ghost predicate HasRoom(h: Hash, s: State, e: Elem)
    requires Shape(h, s)
  {
    exists k :: 0 <= k < 8 && s.collect[h(e)[k]]
  }

  /** The element was put into a place of its own that could be overwritten, and nothing else changed. */
  ghost predicate PutInto(h: Hash, s: State, e: Elem, recent: bool, s1: State)
    requires Shape(h, s)
  {
    exists k :: 0 <= k < 8 && s.collect[h(e)[k]] && s1 == Place(s, h(e)[k], e, recent)
  }

  /** With room among its places an element is put into one of them, and nothing else changes. Without, something is
      dropped only if nothing was found to overwrite; if the element displaced first has room, it moves there. */
  lemma RoomIsUsed(h: Hash, s: State, e: Elem, recent: bool, depth: nat)
    requires Shape(h, s) && depth > 0
    ensures var (s1, gone) := Displace(h, s, e, -1, recent, depth);
            && (HasRoom(h, s, e) ==> gone == None && PutInto(h, s, e, recent, s1))
            && (gone.Some? ==> !HasRoom(h, s, e) && s1.collect == s.collect)
            && (!HasRoom(h, s, e) && depth > 1 ==>
                  var loc := NextLoc(h(e), -1);
                  var x := s.table[loc];
                  HasRoom(h, s, x) ==> gone == None && PutInto(h, Swapped(s, loc, e, recent), x, s.epoch[loc], s1))
  {
    hide Displace;
    Round(h, s, e, -1, recent, depth);
    if FirstFree(h(e), s.collect).None? {
      var loc := NextLoc(h(e), -1);
      assert !s.collect[loc];
      DropsNothing(h, Swapped(s, loc, e, recent), s.table[loc], loc, s.epoch[loc], depth - 1);
      Round(h, Swapped(s, loc, e, recent), s.table[loc], loc, s.epoch[loc], depth - 1);
    }
  }

  lemma {:induction false} DropsNothing(h: Hash, s: State, e: Elem, last: int, recent: bool, depth: nat)
    requires Shape(h, s)
    ensures var (s1, gone) := Displace(h, s, e, last, recent, depth);
            gone.Some? ==> s1.collect == s.collect
    decreases depth
  {
    hide Displace;
    Round(h, s, e, last, recent, depth);
    if depth > 0 && FirstFree(h(e), s.collect).None? {
      var loc := NextLoc(h(e), last);
      DropsNothing(h, Swapped(s, loc, e, recent), s.table[loc], loc, s.epoch[loc], depth - 1);
    }
  }

  // ---------------------------------------------------------------- how long an element is kept

  /** An element is in a kept slot with the given age. */
  ghost predicate Has(s: State, x: Elem, recent: bool) {
    exists i :: 0 <= i < |s.table| && i < |s.collect| && i < |s.epoch| && s.table[i] == x && !s.collect[i] &&
        s.epoch[i] == recent
  }

  /** Displacing keeps the age of every element it does not drop. */
  lemma {:induction false} DisplaceTravels(h: Hash, s: State, e: Elem, last: int, recent: bool, depth: nat, x: Elem,
                                           age: bool)
    requires Sound(h, s) && (e == DEFAULT || e !in s.table) && x != DEFAULT
    requires if x == e then age == recent else Has(s, x, age)
    ensures var (s1, gone) := Displace(h, s, e, last, recent, depth);
            Has(s1, x, age) || gone == Some(x)
    decreases depth
  {
    hide Sound, Displace, Swapped, Place, Has;
    SoundShape(h, s);
    Round(h, s, e, last, recent, depth);
    if depth > 0 {
      match FirstFree(h(e), s.collect) {
        case Some(loc) => PlaceTravels(s, loc, e, recent, x, age);
        case None =>
          var loc := NextLoc(h(e), last);
          SwapKeeps(h, s, loc, e, recent);
          assert !s.collect[loc];
          SwapTravels(h, s, loc, e, recent, x, age);
          var s1 := Swapped(s, loc, e, recent);
          DisplaceTravels(h, s1, s.table[loc], loc, s.epoch[loc], depth - 1, x, age);
      }
    }
  }

  lemma PlaceTravels(s: State, loc: nat, e: Elem, recent: bool, x: Elem, age: bool)
    requires loc < |s.table| == |s.collect| == |s.epoch| && s.collect[loc]
    requires if x == e then age == recent else Has(s, x, age)
    ensures Has(Place(s, loc, e, recent), x, age)
  {
    var s1 := Place(s, loc, e, recent);
    if x == e {
      assert s1.table[loc] == x && !s1.collect[loc] && s1.epoch[loc] == age;
    } else {
      var i :| 0 <= i < |s.table| && s.table[i] == x && !s.collect[i] && s.epoch[i] == age;
      assert s1.table[i] == x && !s1.collect[i] && s1.epoch[i] == age;
    }
  }

  lemma SwapTravels(h: Hash, s: State, loc: nat, e: Elem, recent: bool, x: Elem, age: bool)
    requires loc < |s.table| == |s.collect| == |s.epoch| && !s.collect[loc] && x != DEFAULT
    requires (e == DEFAULT || e !in s.table) && (if x == e then age == recent else Has(s, x, age))
    requires Sound(h, s)
    ensures var s1 := Swapped(s, loc, e, recent);
            if x == s.table[loc] then age == s.epoch[loc] else Has(s1, x, age)
  {
    var s1 := Swapped(s, loc, e, recent);
    if x == e {
      assert s1.table[loc] == x && !s1.collect[loc] && s1.epoch[loc] == age;
    } else {
      var i :| 0 <= i < |s.table| && s.table[i] == x && !s.collect[i] && s.epoch[i] == age;
      if i != loc { assert s1.table[i] == x && !s1.collect[i] && s1.epoch[i] == age; }
    }
  }

  /** The element is kept, and no check of the epochs can give it up during the next `k` insertions. */
  ghost predicate Protected(s: State, x: Elem, k: nat) {
    Has(s, x, true) || (Has(s, x, false) && s.counter >= k)
  }

  lemma EpochProtects(s: State, x: Elem, k: nat)
    requires |s.collect| == |s.epoch| == |s.table| && Protected(s, x, k) && 1 <= k <= s.epochSize + 1
    ensures Protected(EpochChecked(s), x, k - 1)
  {
    var s1 := EpochChecked(s);
    var age := Has(s, x, true);
    var i :| 0 <= i < |s.table| && s.table[i] == x && !s.collect[i] && s.epoch[i] == age;
    assert s1.table[i] == x && !s1.collect[i] && (s1.epoch[i] == age || s1.counter == s.epochSize);
  }

  lemma InsertProtects(h: Hash, s: State, e: Elem, depth: nat, x: Elem, k: nat)
    requires Sound(h, s) && Protected(s, x, k) && 1 <= k <= s.epochSize + 1 && x != DEFAULT
    ensures var (s2, gone) := Inserted(h, s, e, depth);
            Protected(s2, x, k - 1) || gone == Some(x)
  {
    EpochProtects(s, x, k);
    EpochKeeps(h, s);
    var s1 := EpochChecked(s);
    match FirstHolding(h(e), s1.table, e) {
      case Some(loc) => ReviveProtects(s1, loc, x, k - 1);
      case None =>
        if e != DEFAULT { FoundIff(h, s1, e); }
        var age := Has(s1, x, true);
        assert x != e by {
          var i :| 0 <= i < |s1.table| && s1.table[i] == x && !s1.collect[i];
        }
        DisplaceTravels(h, s1, e, -1, true, depth, x, age);
        DisplaceCounter(h, s1, e, -1, true, depth);
    }
  }

  lemma ReviveProtects(s: State, loc: nat, x: Elem, k: nat)
    requires loc < |s.table| == |s.collect| == |s.epoch| && Protected(s, x, k)
    ensures Protected(s.(collect := s.collect[loc := false], epoch := s.epoch[loc := true]), x, k)
  {
    var s1 := s.(collect := s.collect[loc := false], epoch := s.epoch[loc := true]);
    var age := Has(s, x, true);
    var i :| 0 <= i < |s.table| && s.table[i] == x && !s.collect[i] && s.epoch[i] == age;
    assert s1.table[i] == x && !s1.collect[i] && (s1.epoch[i] == age || s1.epoch[i]);
  }

  lemma {:induction false} DisplaceCounter(h: Hash, s: State, e: Elem, last: int, recent: bool, depth: nat)
    requires Shape(h, s)
    ensures var s1 := Displace(h, s, e, last, recent, depth).0;
            s1.counter == s.counter && s1.epochSize == s.epochSize
    decreases depth
  {
    if depth > 0 && FirstFree(h(e), s.collect).None? {
      var loc := NextLoc(h(e), last);
      var s1 := Swapped(s, loc, e, recent);
      DisplaceCounter(h, s1, s.table[loc], loc, s.epoch[loc], depth - 1);
    }
  }

  /** A new element that is not dropped at once belongs to the current epoch. */
  lemma InsertIsRecent(h: Hash, s: State, e: Elem, depth: nat)
    requires Sound(h, s) && e != DEFAULT
    ensures var (s2, gone) := Inserted(h, s, e, depth);
            Has(s2, e, true) || gone == Some(e)
  {
    EpochKeeps(h, s);
    var s1 := EpochChecked(s);
    match FirstHolding(h(e), s1.table, e) {
      case Some(loc) =>
        var s2 := Inserted(h, s, e, depth).0;
        assert s2.table[loc] == e && !s2.collect[loc] && s2.epoch[loc];
      case None =>
        FoundIff(h, s1, e);
        DisplaceTravels(h, s1, e, -1, true, depth, e, true);
    }
  }

  // ---------------------------------------------------------------- runs of insertions and lookups

  /** Looks an element up and, on request, makes its slot erasable. */
  function Looked(h: Hash, s: State, e: Elem, erase: bool): State
    requires forall k :: 0 <= k < |h(e)| ==> h(e)[k] < |s.table|
    requires |s.collect| == |s.table|
  {
    match FirstHolding(h(e), s.table, e)
    case Some(loc) => if erase then s.(collect := s.collect[loc := true]) else s
    case None => s
  }

  lemma LookKeeps(h: Hash, s: State, e: Elem, erase: bool)
    requires Sound(h, s)
    ensures Sound(h, Looked(h, s, e, erase)) && Looked(h, s, e, erase).table == s.table
  {
  }

  /** Looking up never gives up an element other than the one it erases. */
  lemma LookProtects(h: Hash, s: State, e: Elem, erase: bool, x: Elem, k: nat)
    requires Sound(h, s) && Protected(s, x, k) && (erase ==> e != x)
    ensures Protected(Looked(h, s, e, erase), x, k) && Looked(h, s, e, erase).epochSize == s.epochSize
  {
    var s1 := Looked(h, s, e, erase);
    var age := Has(s, x, true);
    var i :| 0 <= i < |s.table| && s.table[i] == x && !s.collect[i] && s.epoch[i] == age;
    assert s1.table[i] == x && !s1.collect[i] && s1.epoch[i] == age;
  }

  datatype Use = Put(e: Elem) | Look(e: Elem, erase: bool)

  ghost function Used(h: Hash, s: State, u: Use, depth: nat): (State, Option<Elem>)
    requires Sound(h, s)
  {
    match u
    case Put(e) => Inserted(h, s, e, depth)
    case Look(e, erase) => (Looked(h, s, e, erase), None)
  }

  lemma UseKeeps(h: Hash, s: State, u: Use, depth: nat)
    requires Sound(h, s)
    ensures Sound(h, Used(h, s, u, depth).0)
    ensures u.Put? ==> Used(h, s, u, depth) == Inserted(h, s, u.e, depth)
    ensures u.Look? ==> Used(h, s, u, depth) == (Looked(h, s, u.e, u.erase), None)
  {
    hide Sound, Inserted, Looked;
    SoundShape(h, s);
    match u
    case Put(e) => InsertKeeps(h, s, e, depth);
    case Look(e, erase) => LookKeeps(h, s, e, erase);
  }

  ghost function UseAll(h: Hash, s: State, us: seq<Use>, depth: nat): State
    requires Sound(h, s)
    decreases us
  {
    if us == [] then s
    else
      UseKeeps(h, s, us[0], depth);
      UseAll(h, Used(h, s, us[0], depth).0, us[1..], depth)
  }

  /** Nothing in the run erases `x`, and no insertion drops it for want of room. */
  ghost predicate Spares(h: Hash, s: State, us: seq<Use>, depth: nat, x: Elem)
    requires Sound(h, s)
    decreases us
  {
    us != [] ==>
      && us[0] != Look(x, true)
      && Used(h, s, us[0], depth).1 != Some(x)
      && (UseKeeps(h, s, us[0], depth);
          Spares(h, Used(h, s, us[0], depth).0, us[1..], depth, x))
  }

  function Puts(us: seq<Use>): nat {
    if us == [] then 0 else (if us[0].Put? then 1 else 0) + Puts(us[1..])
  }

  lemma InsertEpochSize(h: Hash, s: State, e: Elem, depth: nat)
    requires Shape(h, s)
    ensures Inserted(h, s, e, depth).0.epochSize == s.epochSize
  {
    DisplaceCounter(h, EpochChecked(s), e, -1, true, depth);
  }

  /** Over any run of lookups, erasures of others and at most an epoch of insertions, and one more, a
      protected element stays unless one of the insertions drops it for want of room. */
  lemma {:induction false} KeptForAnEpoch(h: Hash, s: State, us: seq<Use>, depth: nat, x: Elem, k: nat)
    requires Sound(h, s) && x != DEFAULT && Protected(s, x, k) && Puts(us) <= k <= s.epochSize + 1
    requires Spares(h, s, us, depth, x)
    ensures Sound(h, UseAll(h, s, us, depth)) && Protected(UseAll(h, s, us, depth), x, k - Puts(us))
    decreases us
  {
    hide Sound, Inserted, Looked, Protected;
    if us != [] {
      SoundShape(h, s);
      UseKeeps(h, s, us[0], depth);
      match us[0] {
        case Put(e) =>
          InsertProtects(h, s, e, depth, x, k);
          InsertEpochSize(h, s, e, depth);
          KeptForAnEpoch(h, Used(h, s, us[0], depth).0, us[1..], depth, x, k - 1);
        case Look(e, erase) =>
          LookProtects(h, s, e, erase, x, k);
          KeptForAnEpoch(h, Used(h, s, us[0], depth).0, us[1..], depth, x, k);
      }
    }
  }
}
