/** Published strings of BIP 173 and BIP 350, and what they decode to. */
module Bech32Vectors {
  import opened Bech32
  import opened Bech32Codec
  import opened Options

  /** The characters, in the order of their values. */
  lemma CharsetIs(v: bv32)
    requires v < 32
    ensures Charset(v) == "qpzry9x8gf2tvdw0s3jn54khce6mua7l"[v as int]
  {
  }

  lemma PrefixA()
    ensures ExpandHrp("a") == [3, 0, 1] && Lower("a") == "a"
  {
  }

  lemma RemainderUpTo(c: bv32, x: seq<bv32>, k: nat)
    requires k < |x|
    ensures Remainder(c, x[..k + 1]) == Step(Remainder(c, x[..k]), x[k])
  {
    RemainderNext(c, x[..k], x[k]);
    assert x[..k + 1] == x[..k] + [x[k]];
  }

  lemma CharactersFine(s: string)
    requires forall k :: 0 <= k < |s| ==> 33 <= s[k] as int <= 126 && !IsUpper(s[k])
    ensures CharactersOk(s)
  {
  }

  lemma PlainSteps()
    ensures Step(0x1, 3) == 0x23
    ensures Step(0x23, 0) == 0x460
    ensures Step(0x460, 1) == 0x8c01
    ensures Step(0x8c01, 10) == 0x11802a
    ensures Step(0x11802a, 28) == 0x230055c
    ensures Step(0x230055c, 25) == 0x3d6afc2b
    ensures Step(0x3d6afc2b, 31) == 0x2f84386
    ensures Step(0x2f84386, 20) == 0x24622766
    ensures Step(0x24622766, 31) == 0x1
  {
  }

  lemma PlainRemainder(x: seq<bv32>)
    requires x == [3, 0, 1, 10, 28, 25, 31, 20, 31]
    ensures Remainder(1, x) == 0x1
  {
    hide Remainder, Step;
    PlainSteps();
    RemainderNothing(1);
    assert x[..0] == [] && x[..9] == x;
    RemainderUpTo(1, x, 0);
    RemainderUpTo(1, x, 1);
    RemainderUpTo(1, x, 2);
    RemainderUpTo(1, x, 3);
    RemainderUpTo(1, x, 4);
    RemainderUpTo(1, x, 5);
    RemainderUpTo(1, x, 6);
    RemainderUpTo(1, x, 7);
    RemainderUpTo(1, x, 8);
  }

  lemma PlainValues()
    ensures AllValues("2uel5l") && Values("2uel5l") == [10, 28, 25, 31, 20, 31]
  {
  }

  /** A string of BIP 173: the prefix alone, with its checksum. */
  lemma PlainVector()
    ensures Decoded("a12uel5l") == Some(Result(Plain, "a", []))
  {
    hide Remainder, Value, AllValues, Values, CharactersOk;
    var s := "a12uel5l";
    LastOneIs(s, 1);
    CharactersFine(s);
    PlainValues();
    PrefixA();
    var x: seq<bv32> := [3, 0, 1, 10, 28, 25, 31, 20, 31];
    assert ExpandHrp("a") + Values(s[2..]) == x by { assert s[2..] == "2uel5l"; }
    PlainRemainder(x);
    assert s[..1] == "a";
  }

  lemma ModifiedSteps()
    ensures Step(0x1, 3) == 0x23
    ensures Step(0x23, 0) == 0x460
    ensures Step(0x460, 1) == 0x8c01
    ensures Step(0x8c01, 31) == 0x11803f
    ensures Step(0x11803f, 0) == 0x23007e0
    ensures Step(0x23007e0, 9) == 0x3d6aabbb
    ensures Step(0x3d6aabbb, 19) == 0x2f2b18a
    ensures Step(0x2f2b18a, 17) == 0x253c66e3
    ensures Step(0x253c66e3, 29) == 0x2bc830a3
  {
  }

  lemma ModifiedRemainder(x: seq<bv32>)
    requires x == [3, 0, 1, 31, 0, 9, 19, 17, 29]
    ensures Remainder(1, x) == 0x2bc830a3
  {
    hide Remainder, Step;
    ModifiedSteps();
    RemainderNothing(1);
    assert x[..0] == [] && x[..9] == x;
    RemainderUpTo(1, x, 0);
    RemainderUpTo(1, x, 1);
    RemainderUpTo(1, x, 2);
    RemainderUpTo(1, x, 3);
    RemainderUpTo(1, x, 4);
    RemainderUpTo(1, x, 5);
    RemainderUpTo(1, x, 6);
    RemainderUpTo(1, x, 7);
    RemainderUpTo(1, x, 8);
  }

  lemma ModifiedValues()
    ensures AllValues("lqfn3a") && Values("lqfn3a") == [31, 0, 9, 19, 17, 29]
  {
  }

  /** A string of BIP 350: the same with the other constant. */
  lemma ModifiedVector()
    ensures Decoded("a1lqfn3a") == Some(Result(M, "a", []))
  {
    hide Remainder, Value, AllValues, Values, CharactersOk;
    var s := "a1lqfn3a";
    LastOneIs(s, 1);
    CharactersFine(s);
    ModifiedValues();
    PrefixA();
    var x: seq<bv32> := [3, 0, 1, 31, 0, 9, 19, 17, 29];
    assert ExpandHrp("a") + Values(s[2..]) == x by { assert s[2..] == "lqfn3a"; }
    ModifiedRemainder(x);
    assert s[..1] == "a";
  }
}
