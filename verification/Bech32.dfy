/** Bech32 and Bech32m: the checksum, encoding and decoding. */
module Bech32 {
  import opened Options

  datatype Encoding = Plain | M

  function EncodingConstant(e: Encoding): bv32 {
    if e.Plain? then 1 else 0x2bc830a3
  }

  // ---------------------------------------------------------------- the checksum

  /** The reduction constant `k`, if the given bit of the leading coefficient is set. */
  function Tap(c: bv32, bit: bv32, k: bv32): bv32 {
    if HasBit(c, bit) then k else 0
  }

  predicate HasBit(c: bv32, bit: bv32) {
    (c >> 25) & bit != 0
  }

  function Shifted(c: bv32): bv32 {
    (c & 0x1ffffff) << 5
  }

  /** Addition of coefficients, five bits each. */
  function Add(a: bv32, b: bv32): bv32 {
    a ^ b
  }

  /** The remainder so far, times x, reduced by the generator. */
  function Fold(c: bv32): bv32 {
    Add(Add(Add(Shifted(c), Tap(c, 1, 0x3b6a57b2)), Add(Tap(c, 2, 0x26508e6d), Tap(c, 4, 0x1ea119fa))),
        Add(Tap(c, 8, 0x3d4233dd), Tap(c, 16, 0x2a1462b3)))
  }

  /** One step of the remainder: multiply by x, reduce by the generator, add the next coefficient. */
  function Step(c: bv32, v: bv32): bv32 {
    Add(Fold(c), v)
  }

  /** The remainder after all values, from a start value. */
  function Remainder(c: bv32, v: seq<bv32>): bv32 {
    if v == [] then c else Step(Remainder(c, v[..|v| - 1]), v[|v| - 1])
  }

  method PolyMod(v: seq<bv32>) returns (c: bv32)
    ensures c == Remainder(1, v)
  {
    hide Step;
    c := 1;
    var i := 0;
    while i < |v|
      invariant 0 <= i <= |v| && c == Remainder(1, v[..i])
    {
      assert v[..i + 1][..i] == v[..i];
      c := Step(c, v[i]);
      i := i + 1;
    }
    assert v[..|v|] == v;
  }

  predicate IsData(v: seq<bv32>) {
    forall k :: 0 <= k < |v| ==> v[k] < 32
  }

  lemma TapLinear(a: bv32, b: bv32, bit: bv32, k: bv32)
    requires bit == 1 || bit == 2 || bit == 4 || bit == 8 || bit == 16
    ensures Tap(Add(a, b), bit, k) == Add(Tap(a, bit, k), Tap(b, bit, k))
  {
    hide HasBit, Add;
    BitLinear(a, b, bit);
    AddZero(k);
    AddZero(0);
  }

  lemma BitLinear(a: bv32, b: bv32, bit: bv32)
    requires bit == 1 || bit == 2 || bit == 4 || bit == 8 || bit == 16
    ensures HasBit(Add(a, b), bit) <==> (HasBit(a, bit) != HasBit(b, bit))
  {
    if bit == 1 {
    } else if bit == 2 {
    } else if bit == 4 {
    } else if bit == 8 {
    } else {
    }
  }

  lemma AddZero(k: bv32)
    ensures Add(0, k) == k && Add(k, 0) == k && Add(k, k) == 0
  {
  }

  lemma Assoc(a: bv32, b: bv32, c: bv32)
    ensures Add(Add(a, b), c) == Add(a, Add(b, c))
  {
  }

  lemma Comm(a: bv32, b: bv32)
    ensures Add(a, b) == Add(b, a)
  {
  }

  lemma ShiftedLinear(a: bv32, b: bv32)
    ensures Shifted(Add(a, b)) == Add(Shifted(a), Shifted(b))
  {
  }

  lemma Exchange(a: bv32, b: bv32, c: bv32, d: bv32)
    ensures Add(Add(a, b), Add(c, d)) == Add(Add(a, c), Add(b, d))
  {
    hide Add;
    Assoc(a, b, Add(c, d));
    Assoc(b, c, d);
    Comm(b, c);
    Assoc(c, b, d);
    Assoc(a, c, Add(b, d));
  }

  lemma FoldLinear(a: bv32, b: bv32)
    ensures Fold(Add(a, b)) == Add(Fold(a), Fold(b))
  {
    hide Tap, Shifted, Add;
    ShiftedLinear(a, b);
    TapLinear(a, b, 1, 0x3b6a57b2);
    TapLinear(a, b, 2, 0x26508e6d);
    TapLinear(a, b, 4, 0x1ea119fa);
    TapLinear(a, b, 8, 0x3d4233dd);
    TapLinear(a, b, 16, 0x2a1462b3);
    var s1, s2 := Shifted(a), Shifted(b);
    var p1, p2 := Tap(a, 1, 0x3b6a57b2), Tap(b, 1, 0x3b6a57b2);
    var q1, q2 := Tap(a, 2, 0x26508e6d), Tap(b, 2, 0x26508e6d);
    var r1, r2 := Tap(a, 4, 0x1ea119fa), Tap(b, 4, 0x1ea119fa);
    var t1, t2 := Tap(a, 8, 0x3d4233dd), Tap(b, 8, 0x3d4233dd);
    var u1, u2 := Tap(a, 16, 0x2a1462b3), Tap(b, 16, 0x2a1462b3);
    Exchange(s1, s2, p1, p2);
    Exchange(q1, q2, r1, r2);
    Exchange(t1, t2, u1, u2);
    Exchange(Add(s1, p1), Add(s2, p2), Add(q1, r1), Add(q2, r2));
    Exchange(Add(Add(s1, p1), Add(q1, r1)), Add(Add(s2, p2), Add(q2, r2)), Add(t1, u1), Add(t2, u2));
  }

  /** The step is linear. */
  lemma StepLinear(a: bv32, b: bv32, u: bv32, v: bv32)
    ensures Step(Add(a, b), Add(u, v)) == Add(Step(a, u), Step(b, v))
  {
    hide Fold, Add;
    FoldLinear(a, b);
    Exchange(Fold(a), Fold(b), u, v);
  }

  /** Remainders stay within 30 bits. */
  lemma StepBound(c: bv32, v: bv32)
    requires v < 32
    ensures Step(c, v) < 0x40000000
  {
  }

  /** Only zero is taken to zero: the generator has a constant term. */
  lemma StepInjective(c: bv32)
    requires c < 0x40000000 && Step(c, 0) == 0
    ensures c == 0
  {
  }

  function Xor(s: seq<bv32>, t: seq<bv32>): (r: seq<bv32>)
    requires |s| == |t|
    ensures |r| == |s|
  {
    seq(|s|, k requires 0 <= k < |s| => Add(s[k], t[k]))
  }

  lemma {:induction false} Linear(a: bv32, b: bv32, s: seq<bv32>, t: seq<bv32>)
    requires |s| == |t|
    ensures Remainder(Add(a, b), Xor(s, t)) == Add(Remainder(a, s), Remainder(b, t))
  {
    hide Step, Add;
    if s != [] {
      var n := |s| - 1;
      Linear(a, b, s[..n], t[..n]);
      assert Xor(s, t)[..n] == Xor(s[..n], t[..n]);
      StepLinear(Remainder(a, s[..n]), Remainder(b, t[..n]), s[n], t[n]);
    }
  }

  lemma {:induction false} RemainderSplit(c: bv32, s: seq<bv32>, t: seq<bv32>)
    ensures Remainder(c, s + t) == Remainder(Remainder(c, s), t)
  {
    hide Step;
    if t == [] {
      assert s + t == s;
    } else {
      RemainderSplit(c, s, t[..|t| - 1]);
      assert (s + t)[..|s + t| - 1] == s + t[..|t| - 1];
    }
  }

  predicate AllZero(s: seq<bv32>) {
    forall k :: 0 <= k < |s| ==> s[k] == 0
  }

  lemma FoldZero()
    ensures Step(0, 0) == 0
  {
  }

  lemma {:induction false} LeadingZeros(s: seq<bv32>)
    requires AllZero(s)
    ensures Remainder(0, s) == 0
  {
    hide Step;
    FoldZero();
    if s != [] { LeadingZeros(s[..|s| - 1]); }
  }

  /** A remainder that is not zero stays so while zeros follow. */
  lemma {:induction false} TrailingZeros(c: bv32, s: seq<bv32>)
    requires c < 0x40000000 && AllZero(s)
    ensures Remainder(c, s) < 0x40000000 && (Remainder(c, s) == 0 ==> c == 0)
  {
    hide Step;
    if s != [] {
      var n := |s| - 1;
      TrailingZeros(c, s[..n]);
      StepBound(Remainder(c, s[..n]), 0);
      if Step(Remainder(c, s[..n]), 0) == 0 { StepInjective(Remainder(c, s[..n])); }
    }
  }

  /** 32 to the power `n`, for `n` up to six. */
  function Limit(n: nat): bv32 {
    if n == 0 then 1 else if n == 1 then 0x20 else if n == 2 then 0x400 else if n == 3 then 0x8000
    else if n == 4 then 0x100000 else if n == 5 then 0x2000000 else 0x40000000
  }

  /** Before the sixth coefficient nothing is reduced. */
  lemma FoldSmall(c: bv32)
    requires c < 0x2000000
    ensures Fold(c) == c << 5
  {
    hide Add, HasBit, Shifted;
    NoBits(c, 1);
    NoBits(c, 2);
    NoBits(c, 4);
    NoBits(c, 8);
    NoBits(c, 16);
    ShiftedSmall(c);
    AddZero(Shifted(c));
    AddZero(0);
  }

  lemma NoBits(c: bv32, bit: bv32)
    requires c < 0x2000000
    ensures !HasBit(c, bit)
  {
    assert c >> 25 == 0;
  }

  lemma ShiftedSmall(c: bv32)
    requires c < 0x2000000
    ensures Shifted(c) == c << 5
  {
  }

  lemma AppendZero(c: bv32, v: bv32)
    requires c < 0x2000000 && v < 32 && (c << 5) ^ v == 0
    ensures c == 0 && v == 0
  {
  }

  lemma AppendBound(c: bv32, v: bv32, n: nat)
    requires n <= 5 && c < Limit(n) && v < 32
    ensures (c << 5) ^ v < Limit(n + 1)
  {
    if n == 0 {
    } else if n == 1 {
    } else if n == 2 {
    } else if n == 3 {
    } else if n == 4 {
    } else {
    }
  }

  lemma StepAppends(c: bv32, v: bv32, n: nat)
    requires n <= 5 && c < Limit(n) && v < 32
    ensures Step(c, v) < Limit(n + 1) && (Step(c, v) == 0 ==> c == 0 && v == 0)
  {
    hide Fold;
    FoldSmall(c);
    AppendBound(c, v, n);
    if (c << 5) ^ v == 0 { AppendZero(c, v); }
  }

  /** Up to six values are recovered from their remainder. */
  lemma {:induction false} ShortInjective(s: seq<bv32>)
    requires |s| <= 6 && IsData(s)
    ensures Remainder(0, s) < Limit(|s|) && (Remainder(0, s) == 0 ==> AllZero(s))
  {
    hide Step, Limit;
    FirstLimit();
    if s != [] {
      var n := |s| - 1;
      ShortInjective(s[..n]);
      var c := Remainder(0, s[..n]);
      StepAppends(c, s[n], n);
      if Step(c, s[n]) == 0 {
        forall k | 0 <= k < |s| ensures s[k] == 0 {
          if k < n { assert s[k] == s[..n][k]; }
        }
      }
    }
  }

  lemma FirstLimit()
    ensures 0 < Limit(0)
  {
  }

  lemma AddEqual(a: bv32, b: bv32)
    ensures Add(a, b) == 0 <==> a == b
  {
    hide Add;
    Assoc(a, b, b);
    AddZero(a);
    AddZero(b);
  }

  lemma AddSmall(a: bv32, b: bv32)
    requires a < 32 && b < 32
    ensures Add(a, b) < 32
  {
  }

  lemma ShortFits(s: seq<bv32>)
    requires |s| <= 6 && IsData(s)
    ensures Remainder(0, s) < 0x40000000 && (Remainder(0, s) == 0 ==> AllZero(s))
  {
    hide Limit, Remainder;
    ShortInjective(s);
    LimitOrder(|s|);
  }

  /** Up to six values between zeros have remainder zero only if they are zero. */
  lemma BetweenZeros(head: seq<bv32>, mid: seq<bv32>, tail: seq<bv32>)
    requires AllZero(head) && AllZero(tail) && |mid| <= 6 && IsData(mid) && Remainder(0, (head + mid) + tail) == 0
    ensures AllZero(mid)
  {
    hide Remainder, AllZero, IsData;
    RemainderSplit(0, head + mid, tail);
    RemainderSplit(0, head, mid);
    LeadingZeros(head);
    ShortFits(mid);
    TrailingZeros(Remainder(0, mid), tail);
  }

  lemma WindowZero(e: seq<bv32>, p: nat, q: nat)
    requires p <= q <= |e| && q - p <= 6 && IsData(e[p..q]) && Remainder(0, e) == 0
    requires forall k :: 0 <= k < |e| && !(p <= k < q) ==> e[k] == 0
    ensures AllZero(e)
  {
    hide Remainder, IsData;
    var head, mid, tail := e[..p], e[p..q], e[q..];
    assert e == (head + mid) + tail;
    BetweenZeros(head, mid, tail);
    forall k | 0 <= k < |e| ensures e[k] == 0 {
      if p <= k < q { assert e[k] == mid[k - p]; }
    }
  }

  lemma XorAt(s: seq<bv32>, t: seq<bv32>, k: nat)
    requires k < |s| == |t|
    ensures Xor(s, t)[k] == 0 <==> s[k] == t[k]
    ensures s[k] < 32 && t[k] < 32 ==> Xor(s, t)[k] < 32
  {
    hide Add;
    AddEqual(s[k], t[k]);
    if s[k] < 32 && t[k] < 32 { AddSmall(s[k], t[k]); }
  }

  /** Two lists that differ only within six consecutive places never have the same checksum, at any length. */
  lemma WindowDetects(s: seq<bv32>, t: seq<bv32>, p: nat, q: nat)
    requires |s| == |t| && p <= q <= |s| && q - p <= 6
    requires forall k :: 0 <= k < |s| && !(p <= k < q) ==> s[k] == t[k]
    requires IsData(s[p..q]) && IsData(t[p..q]) && Remainder(1, s) == Remainder(1, t)
    ensures s == t
  {
    hide Step, Add, Xor, Remainder;
    var e := Xor(s, t);
    forall k | 0 <= k < |s| ensures (e[k] == 0 <==> s[k] == t[k]) && (s[k] < 32 && t[k] < 32 ==> e[k] < 32) {
      XorAt(s, t, k);
    }
    forall k | 0 <= k < q - p ensures e[p..q][k] < 32 {
      assert s[p..q][k] == s[p + k] && t[p..q][k] == t[p + k];
    }
    Linear(1, 1, s, t);
    AddEqual(1, 1);
    AddEqual(Remainder(1, s), Remainder(1, t));
    WindowZero(e, p, q);
  }

  lemma LimitBelow(n: nat)
    requires n <= 5
    ensures Limit(n) <= 0x2000000
  {
  }

  lemma LimitOrder(n: nat)
    ensures Limit(n) <= 0x40000000
  {
  }

  // ---------------------------------------------------------------- creating and verifying checksums

  function Zeros(n: nat): seq<bv32> {
    seq(n, _ => 0)
  }

  /** The bits of a character above the lowest five. */
  function HighPart(c: char): bv32 {
    (c as int / 32) as bv32
  }

  function LowPart(c: char): bv32 {
    (c as int % 32) as bv32
  }

  /** The prefix as the checksum sees it: the high bits of its characters, a zero, the low bits. */
  function ExpandHrp(hrp: string): (r: seq<bv32>)
    ensures |r| == 2 * |hrp| + 1
  {
    seq(|hrp|, k requires 0 <= k < |hrp| => HighPart(hrp[k])) + [0] +
    seq(|hrp|, k requires 0 <= k < |hrp| => LowPart(hrp[k]))
  }

  lemma Back(a: nat)
    requires a < 32
    ensures (a as bv32) as int == a && a as bv32 < 32
  {
  }

  /** The two parts of a character give it back. */
  lemma PartsOf(c: char)
    requires c as int < 1024
    ensures HighPart(c) < 32 && LowPart(c) < 32 && c as int == 32 * (HighPart(c) as int) + LowPart(c) as int
  {
    Back(c as int / 32);
    Back(c as int % 32);
  }

  lemma PartsTell(c: char, d: char)
    requires c as int < 1024 && d as int < 1024 && HighPart(c) == HighPart(d) && LowPart(c) == LowPart(d)
    ensures c == d
  {
    hide HighPart, LowPart;
    PartsOf(c);
    PartsOf(d);
  }

  /** Prefixes of one length that differ at a place differ in one of its two parts, and nowhere else. */
  lemma ExpandDiffers(g: string, h: string, k: nat)
    requires k < |g| == |h| && g[k] as int < 1024 && h[k] as int < 1024
    ensures var x, y, n := ExpandHrp(g), ExpandHrp(h), |g|;
            && x[n] == y[n] && x[k] < 32 && y[k] < 32 && x[n + 1 + k] < 32 && y[n + 1 + k] < 32
            && (x[k] == y[k] && x[n + 1 + k] == y[n + 1 + k] <==> g[k] == h[k])
  {
    hide HighPart, LowPart;
    PartsOf(g[k]);
    PartsOf(h[k]);
    if HighPart(g[k]) == HighPart(h[k]) && LowPart(g[k]) == LowPart(h[k]) { PartsTell(g[k], h[k]); }
  }

  /** Different prefixes of one length have different expansions. */
  lemma ExpandInjective(g: string, h: string)
    requires |g| == |h| && ExpandHrp(g) == ExpandHrp(h)
    requires forall k :: 0 <= k < |g| ==> g[k] as int < 1024 && h[k] as int < 1024
    ensures g == h
  {
    hide ExpandHrp;
    forall k | 0 <= k < |g| ensures g[k] == h[k] { ExpandDiffers(g, h, k); }
  }

  /** What is left of thirty bits without the groups after the `k`-th, dropped five bits at a time. */
  function Over(m: bv32, k: nat): bv32
    decreases 5 - k
  {
    if k >= 5 then m else Over(m, k + 1) >> 5
  }

  /** The six groups of five bits of a number of thirty bits, the highest first. */
  function Groups(m: bv32): (r: seq<bv32>)
    ensures |r| == 6 && forall k :: 0 <= k < 6 ==> r[k] == Over(m, k) & 31
  {
    seq(6, k requires 0 <= k < 6 => Over(m, k) & 31)
  }

  lemma Masked(x: bv32)
    ensures x & 31 < 32
  {
  }

  lemma GroupsAreData(m: bv32)
    ensures IsData(Groups(m))
  {
    hide Over;
    forall k | 0 <= k < 6 ensures Groups(m)[k] < 32 { Masked(Over(m, k)); }
  }

  function Checksum(e: Encoding, hrp: string, values: seq<bv32>): (r: seq<bv32>)
    ensures |r| == 6
  {
    Groups(Add(Remainder(1, ExpandHrp(hrp) + values + Zeros(6)), EncodingConstant(e)))
  }

  /** Appending a group to the groups above it. */
  lemma Join(hi: bv32, m: bv32, v: bv32)
    requires hi < 0x2000000 && v < 32 && m == (hi << 5) ^ v
    ensures Step(hi, v) == m
  {
    hide Fold;
    FoldSmall(hi);
  }

  lemma OverFirst(m: bv32)
    requires m < 0x40000000
    ensures Step(0, Over(m, 0) & 31) == Over(m, 0)
  {
    hide Over, Step, Limit;
    OverBound(m, 0);
    SecondLimit();
    FirstStep(Over(m, 0));
  }

  lemma SecondLimit()
    ensures Limit(1) == 32 && Limit(6) == 0x40000000
  {
  }

  lemma FirstStep(x: bv32)
    requires x < 32
    ensures Step(0, x & 31) == x
  {
    hide Fold;
    FoldSmall(0);
    assert x & 31 == x;
  }

  lemma Rejoin(x: bv32)
    ensures x == ((x >> 5) << 5) ^ (x & 31)
  {
  }

  lemma OverShifts(m: bv32, k: nat)
    requires k < 5
    ensures Over(m, k) == Over(m, k + 1) >> 5
  {
  }

  lemma {:induction false} OverBound(m: bv32, k: nat)
    requires m < 0x40000000 && k < 6
    ensures Over(m, k) < Limit(k + 1)
    decreases 5 - k
  {
    if k < 5 {
      OverBound(m, k + 1);
      if k == 0 {
      } else if k == 1 {
      } else if k == 2 {
      } else if k == 3 {
      } else {
      }
    }
  }

  lemma OverNext(m: bv32, k: nat)
    requires m < 0x40000000 && k < 5
    ensures Over(m, k) < 0x2000000 && Over(m, k + 1) == (Over(m, k) << 5) ^ (Over(m, k + 1) & 31)
  {
    hide Over, Limit;
    OverShifts(m, k);
    OverBound(m, k);
    LimitBelow(k + 1);
    Rejoin(Over(m, k + 1));
  }

  lemma RemainderNext(c: bv32, s: seq<bv32>, v: bv32)
    ensures Remainder(c, s + [v]) == Step(Remainder(c, s), v)
  {
    assert (s + [v])[..|s|] == s;
  }

  lemma {:induction false} GroupsUpTo(m: bv32, k: nat)
    requires m < 0x40000000 && k < 6
    ensures Remainder(0, Groups(m)[..k + 1]) == Over(m, k)
  {
    hide Step, Remainder, Over;
    var g := Groups(m);
    assert g[..k + 1] == g[..k] + [g[k]];
    RemainderNext(0, g[..k], g[k]);
    if k == 0 {
      assert g[..0] == [];
      RemainderNothing(0);
      OverFirst(m);
    } else {
      GroupsUpTo(m, k - 1);
      OverNext(m, k - 1);
      Masked(Over(m, k));
      Join(Over(m, k - 1), Over(m, k), g[k]);
    }
  }

  /** The groups of a number of thirty bits have that number as their remainder. */
  lemma GroupsPack(m: bv32)
    requires m < 0x40000000
    ensures Remainder(0, Groups(m)) == m
  {
    GroupsUpTo(m, 5);
    assert Groups(m)[..6] == Groups(m);
  }

  lemma RemainderNothing(c: bv32)
    ensures Remainder(c, []) == c
  {
  }

  lemma ConstantFits(c: bv32, e: Encoding)
    requires c < 0x40000000
    ensures Add(c, EncodingConstant(e)) < 0x40000000 && Add(c, Add(c, EncodingConstant(e))) == EncodingConstant(e)
  {
  }

  /** The remainder that the checksum is made from. */
  function Residue(hrp: string, values: seq<bv32>): bv32 {
    Remainder(1, ExpandHrp(hrp) + values + Zeros(6))
  }

  lemma ResidueFits(hrp: string, values: seq<bv32>)
    ensures Residue(hrp, values) < 0x40000000
  {
    hide Step;
    var x := ExpandHrp(hrp) + values + Zeros(6);
    StepBound(Remainder(1, x[..|x| - 1]), x[|x| - 1]);
  }

  /** A checksum makes the remainder the constant of its encoding. */
  lemma ChecksumRight(e: Encoding, hrp: string, values: seq<bv32>)
    ensures Remainder(1, ExpandHrp(hrp) + values + Checksum(e, hrp, values)) == EncodingConstant(e)
  {
    hide Add, Remainder, EncodingConstant, Groups;
    var x := ExpandHrp(hrp) + values;
    var c := Residue(hrp, values);
    var m := Add(c, EncodingConstant(e));
    ResidueFits(hrp, values);
    ConstantFits(c, e);
    var sum := Groups(m);
    Overlay(x, sum);
    AddZero(1);
    Linear(1, 0, x + Zeros(6), Zeros(|x|) + sum);
    RemainderSplit(0, Zeros(|x|), sum);
    LeadingZeros(Zeros(|x|));
    GroupsPack(m);
  }

  lemma Overlay(x: seq<bv32>, sum: seq<bv32>)
    requires |sum| == 6
    ensures Xor(x + Zeros(6), Zeros(|x|) + sum) == x + sum
  {
    hide Add;
    var r := Xor(x + Zeros(6), Zeros(|x|) + sum);
    forall k | 0 <= k < |x| + 6 ensures r[k] == (x + sum)[k] {
      AddZero((x + sum)[k]);
    }
  }

  /** The six values that make the remainder the constant of the encoding. */
  method CreateChecksum(e: Encoding, hrp: string, values: seq<bv32>) returns (ret: seq<bv32>)
    ensures |ret| == 6 && IsData(ret) && Remainder(1, ExpandHrp(hrp) + values + ret) == EncodingConstant(e)
    ensures ret == Checksum(e, hrp, values)
  {
    hide Remainder, EncodingConstant, Groups, IsData, ExpandHrp;
    var c := PolyMod(ExpandHrp(hrp) + values + Zeros(6));
    ret := Groups(Add(c, EncodingConstant(e)));
    GroupsAreData(Add(c, EncodingConstant(e)));
    ChecksumRight(e, hrp, values);
  }

  /** No other six values do. */
  lemma ChecksumUnique(e: Encoding, hrp: string, values: seq<bv32>, sum: seq<bv32>)
    requires |sum| == 6 && IsData(sum) && Remainder(1, ExpandHrp(hrp) + values + sum) == EncodingConstant(e)
    ensures sum == Checksum(e, hrp, values)
  {
    hide Remainder, EncodingConstant, Groups, IsData, ExpandHrp;
    ChecksumRight(e, hrp, values);
    var right := Checksum(e, hrp, values);
    GroupsAreData(Add(Residue(hrp, values), EncodingConstant(e)));
    var x := ExpandHrp(hrp) + values;
    assert (x + sum)[|x|..|x| + 6] == sum && (x + right)[|x|..|x| + 6] == right;
    WindowDetects(x + sum, x + right, |x|, |x| + 6);
    assert (x + sum)[|x|..] == sum && (x + right)[|x|..] == right;
  }

  function VerifyChecksum(hrp: string, values: seq<bv32>): Option<Encoding> {
    var check := Remainder(1, ExpandHrp(hrp) + values);
    if check == EncodingConstant(Plain) then Some(Plain)
    else if check == EncodingConstant(M) then Some(M)
    else None
  }

  /** Six values verify for an encoding exactly when they are its checksum. */
  lemma Verifies(e: Encoding, hrp: string, values: seq<bv32>, sum: seq<bv32>)
    requires |sum| == 6 && IsData(sum)
    ensures VerifyChecksum(hrp, values + sum) == Some(e) <==> sum == Checksum(e, hrp, values)
  {
    hide Remainder, ExpandHrp, IsData, Checksum;
    assert ExpandHrp(hrp) + (values + sum) == ExpandHrp(hrp) + values + sum;
    ChecksumRight(e, hrp, values);
    if VerifyChecksum(hrp, values + sum) == Some(e) { ChecksumUnique(e, hrp, values, sum); }
  }
}
