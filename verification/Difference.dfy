/** The differential coding of a list of increasing indexes. */
module Difference {
  import opened Options

  const U64 := 0x1_0000_0000_0000_0000

  /** The running position of the formatter. */
  class Formatter {
    var shift: nat

    constructor ()
      ensures shift == 0
    {
      shift := 0;
    }

    /** Writes a value as its distance from the running position, so that a reader at that position gets
        it back; refused if it lies before the position or is the largest number of 64 bits. */
    method Ser(v: nat) returns (r: Option<nat>)
      requires v < U64 && shift < U64
      modifies this
      ensures r.Some? <==> old(shift) <= v < U64 - 1
      ensures r.Some? ==> Read(r.value, old(shift), v) == Some(v) && shift == v + 1 < U64
      ensures r.None? ==> shift == old(shift)
    {
      if v < shift || v >= U64 - 1 {
        return None;
      }
      r := Some(v - shift);
      shift := v + 1;
    }

    /** Reads a distance; refused if the position wraps around or leaves the range of the value. */
    method Unser(n: nat, max: nat) returns (r: Option<nat>)
      requires n < U64 && shift < U64
      modifies this
      ensures r == Read(n, old(shift), max) && shift < U64
      ensures r.Some? ==> shift == r.value + 1
    {
      shift := (shift + n) % U64;
      if shift < n || shift >= U64 - 1 || shift > max {
        return None;
      }
      r := Some(shift);
      shift := shift + 1;
    }
  }

  function Written(v: nat, shift: nat): Option<nat> {
    if v < shift || v >= U64 - 1 then None else Some(v - shift)
  }

  /** Without wrap-around: the position plus the distance, if it is in range. */
  function Read(n: nat, shift: nat, max: nat): Option<nat> {
    if shift + n >= U64 - 1 || shift + n > max then None else Some(shift + n)
  }

  function WriteAll(vs: seq<nat>, shift: nat): Option<seq<nat>> {
    if vs == [] then Some([])
    else
      match Written(vs[0], shift)
      case None => None
      case Some(n) =>
        match WriteAll(vs[1..], vs[0] + 1)
        case None => None
        case Some(ns) => Some([n] + ns)
  }

  function ReadAll(ns: seq<nat>, shift: nat, max: nat): Option<seq<nat>> {
    if ns == [] then Some([])
    else
      match Read(ns[0], shift, max)
      case None => None
      case Some(v) =>
        match ReadAll(ns[1..], v + 1, max)
        case None => None
        case Some(vs) => Some([v] + vs)
  }

  /** Strictly increasing, from a position on, and within the range. */
  predicate Rising(vs: seq<nat>, from: nat, max: nat) {
    vs != [] ==> from <= vs[0] <= max && vs[0] < U64 - 1 && Rising(vs[1..], vs[0] + 1, max)
  }

  /** Writing succeeds exactly on rising lists, and reading then gives the list back. */
  lemma {:induction false} ReadWrite(vs: seq<nat>, shift: nat, max: nat)
    requires forall k :: 0 <= k < |vs| ==> vs[k] <= max
    ensures WriteAll(vs, shift).Some? <==> Rising(vs, shift, max)
    ensures WriteAll(vs, shift).Some? ==> ReadAll(WriteAll(vs, shift).value, shift, max) == Some(vs)
  {
    if vs != [] {
      ReadWrite(vs[1..], vs[0] + 1, max);
      if WriteAll(vs, shift).Some? {
        var ns := WriteAll(vs, shift).value;
        assert ns[1..] == WriteAll(vs[1..], vs[0] + 1).value && vs == [vs[0]] + vs[1..];
      }
    }
  }

  /** Whatever is read is a rising list, and writing it gives back what was read. */
  lemma {:induction false} WriteRead(ns: seq<nat>, shift: nat, max: nat)
    ensures var r := ReadAll(ns, shift, max);
            r.Some? ==> Rising(r.value, shift, max) && WriteAll(r.value, shift) == Some(ns)
  {
    if ns != [] && Read(ns[0], shift, max).Some? {
      var v := shift + ns[0];
      WriteRead(ns[1..], v + 1, max);
      if ReadAll(ns, shift, max).Some? {
        var vs := ReadAll(ns, shift, max).value;
        assert vs[1..] == ReadAll(ns[1..], v + 1, max).value && ns == [ns[0]] + ns[1..];
      }
    }
  }

  // ---------------------------------------------------------------- whole lists

  function Join(done: seq<nat>, rest: Option<seq<nat>>): Option<seq<nat>> {
    if rest.None? then None else Some(done + rest.value)
  }

  lemma JoinOne(done: seq<nat>, x: nat, rest: Option<seq<nat>>)
    ensures Join(done, Join([x], rest)) == Join(done + [x], rest)
  {
    if rest.Some? { assert done + ([x] + rest.value) == (done + [x]) + rest.value; }
  }

  lemma JoinNone(r: Option<seq<nat>>)
    ensures Join([], r) == r
  {
    if r.Some? { assert [] + r.value == r.value; }
  }

  /** Writes a list of indexes. */
  method WriteList(vs: seq<nat>) returns (r: Option<seq<nat>>)
    requires forall k :: 0 <= k < |vs| ==> vs[k] < U64
    ensures r == WriteAll(vs, 0)
  {
    var f := new Formatter();
    var out := [];
    var i := 0;
    assert vs[0..] == vs;
    JoinNone(WriteAll(vs, 0));
    while i < |vs|
      invariant 0 <= i <= |vs| && f.shift < U64
      invariant WriteAll(vs, 0) == Join(out, WriteAll(vs[i..], f.shift))
    {
      assert vs[i..][0] == vs[i] && vs[i..][1..] == vs[i + 1..];
      ghost var shift := f.shift;
      var n := f.Ser(vs[i]);
      if n.None? {
        return None;
      }
      assert WriteAll(vs[i..], shift) == Join([n.value], WriteAll(vs[i + 1..], vs[i] + 1));
      JoinOne(out, n.value, WriteAll(vs[i + 1..], vs[i] + 1));
      out := out + [n.value];
      i := i + 1;
    }
    assert out + [] == out;
    r := Some(out);
  }

  /** Reads a list of indexes of a type whose values end at `max`. */
  method ReadList(ns: seq<nat>, max: nat) returns (r: Option<seq<nat>>)
    requires forall k :: 0 <= k < |ns| ==> ns[k] < U64
    ensures r == ReadAll(ns, 0, max)
  {
    var f := new Formatter();
    var out := [];
    var i := 0;
    assert ns[0..] == ns;
    JoinNone(ReadAll(ns, 0, max));
    while i < |ns|
      invariant 0 <= i <= |ns| && f.shift < U64
      invariant ReadAll(ns, 0, max) == Join(out, ReadAll(ns[i..], f.shift, max))
    {
      assert ns[i..][0] == ns[i] && ns[i..][1..] == ns[i + 1..];
      ghost var shift := f.shift;
      var v := f.Unser(ns[i], max);
      if v.None? {
        return None;
      }
      assert ReadAll(ns[i..], shift, max) == Join([v.value], ReadAll(ns[i + 1..], v.value + 1, max));
      JoinOne(out, v.value, ReadAll(ns[i + 1..], v.value + 1, max));
      out := out + [v.value];
      i := i + 1;
    }
    assert out + [] == out;
    r := Some(out);
  }

  /** What can be written is read back from the stream, and nothing else can be written. */
  method WriteAndRead(vs: seq<nat>, max: nat) returns (r: Option<seq<nat>>)
    requires max < U64 && forall k :: 0 <= k < |vs| ==> vs[k] <= max
    ensures r == if Rising(vs, 0, max) then Some(vs) else None
  {
    ReadWrite(vs, 0, max);
    var ns := WriteList(vs);
    if ns.None? {
      return None;
    }
    DistancesFit(vs, 0);
    r := ReadList(ns.value, max);
  }

  lemma {:induction false} DistancesFit(vs: seq<nat>, shift: nat)
    requires WriteAll(vs, shift).Some?
    ensures forall k :: 0 <= k < |WriteAll(vs, shift).value| ==> WriteAll(vs, shift).value[k] < U64
  {
    if vs != [] { DistancesFit(vs[1..], vs[0] + 1); }
  }
}
