/** Numbers written in a radix, the highest digit first, and the in-place conversion between radixes. */
module Radix {
  import opened Nonlinear

  function Pow(b: nat, n: nat): nat {
    if n == 0 then 1 else b * Pow(b, n - 1)
  }

  lemma {:induction false} PowPositive(b: nat, n: nat)
    requires b > 0
    ensures Pow(b, n) > 0
  {
    if n > 0 {
      PowPositive(b, n - 1);
      TimesPositive(b, Pow(b, n - 1));
    }
  }

  lemma TimesPositive(a: nat, b: nat)
    requires a > 0 && b > 0
    ensures a * b > 0
  {
  }

  lemma {:induction false} PowAdd(b: nat, m: nat, n: nat)
    ensures Pow(b, m + n) == Pow(b, m) * Pow(b, n)
  {
    if m > 0 {
      PowAdd(b, m - 1, n);
      Regroup(b, Pow(b, m - 1), Pow(b, n));
    }
  }

  lemma {:induction false} PowLess(b: nat, m: nat, n: nat)
    requires b > 0 && m <= n
    ensures Pow(b, m) <= Pow(b, n)
  {
    PowAdd(b, n - m, m);
    PowPositive(b, n - m);
    MulMono(1, Pow(b, n - m), Pow(b, m));
  }

  predicate AreDigits(s: seq<nat>, b: nat) {
    forall k :: 0 <= k < |s| ==> s[k] < b
  }

  /** The number a sequence of digits stands for. */
  function Big(s: seq<nat>, b: nat): nat {
    if s == [] then 0 else s[0] * Pow(b, |s| - 1) + Big(s[1..], b)
  }

  lemma {:induction false} BigBound(s: seq<nat>, b: nat)
    requires AreDigits(s, b)
    ensures Big(s, b) < Pow(b, |s|)
  {
    if s != [] {
      BigBound(s[1..], b);
      MulMono(s[0] + 1, b, Pow(b, |s| - 1));
      Distribute(s[0], 1, Pow(b, |s| - 1));
    }
  }

  /** Appending a digit multiplies by the radix and adds it. */
  lemma {:induction false} BigAppend(s: seq<nat>, d: nat, b: nat)
    ensures Big(s + [d], b) == b * Big(s, b) + d
  {
    if s == [] {
      assert s + [d] == [d] && [d][1..] == [];
    } else {
      BigAppend(s[1..], d, b);
      assert (s + [d])[1..] == s[1..] + [d];
      var p := Pow(b, |s| - 1);
      Regroup(s[0], b, p);
      Regroup(b, s[0], p);
      Distribute(s[0] * p, Big(s[1..], b), b);
    }
  }

  lemma {:induction false} BigZeros(s: seq<nat>, k: nat, b: nat)
    requires k <= |s| && forall j :: 0 <= j < k ==> s[j] == 0
    ensures Big(s, b) == Big(s[k..], b)
  {
    if k > 0 {
      BigZeros(s[1..], k - 1, b);
      assert s[1..][k - 1..] == s[k..];
    }
  }

  /** The digits of a number without leading zeros. */
  function DigitsOf(v: nat, b: nat): (r: seq<nat>)
    requires b >= 2
    ensures AreDigits(r, b)
    decreases v
  {
    if v == 0 then [] else DigitsOf(v / b, b) + [v % b]
  }

  lemma {:induction false} DigitsFacts(v: nat, b: nat)
    requires b >= 2
    ensures Big(DigitsOf(v, b), b) == v && (v > 0 ==> DigitsOf(v, b) != [] && DigitsOf(v, b)[0] != 0)
    decreases v
  {
    if v > 0 {
      Shrinks(v, b);
      DigitsFacts(v / b, b);
      BigAppend(DigitsOf(v / b, b), v % b, b);
    }
  }

  lemma Shrinks(v: nat, b: nat)
    requires b >= 2 && v > 0
    ensures 0 <= v / b < v && v == b * (v / b) + v % b && 0 <= v % b < b
  {
    if v / b >= v { MulMono(2, b, v / b); assert false; }
  }

  /** Digits without a leading zero are the digits of their number. */
  lemma {:induction false} DigitsUnique(s: seq<nat>, b: nat)
    requires b >= 2 && AreDigits(s, b) && (s != [] ==> s[0] != 0)
    ensures DigitsOf(Big(s, b), b) == s
    decreases |s|
  {
    if s != [] {
      var n := |s| - 1;
      var t := s[..n];
      assert s == t + [s[n]];
      BigAppend(t, s[n], b);
      if t != [] { assert t[0] == s[0]; }
      DigitsUnique(t, b);
      DivideBack(Big(t, b), s[n], b);
      if Big(s, b) == 0 { LeadingNonZero(s, b); }
    }
  }

  lemma DivideBack(q: nat, r: nat, b: nat)
    requires r < b
    ensures (b * q + r) / b == q && (b * q + r) % b == r
  {
    IsDiv(q, r, b, b * q + r);
    IsMod(r, q, b, b * q + r);
  }

  lemma LeadingNonZero(s: seq<nat>, b: nat)
    requires b >= 2 && s != [] && s[0] != 0
    ensures Big(s, b) >= Pow(b, |s| - 1) > 0
  {
    PowPositive(b, |s| - 1);
    MulMono(1, s[0], Pow(b, |s| - 1));
  }

  /** `len` is the number of digits of `v`. */
  ghost predicate IsLength(v: nat, len: nat, b: nat) {
    v < Pow(b, len) && (len > 0 ==> Pow(b, len - 1) <= v)
  }

  /** One round of a radix conversion in place: multiplies the number in the buffer by `from` and adds a
      digit, working from the end of the buffer while there is a carry or an old digit. If the result fits
      there is no carry left, and the length is again the number of digits. */
  method MulAdd(buf: array<nat>, length: nat, from: nat, to: nat, digit: nat) returns (i: nat)
    requires from >= 1 && to >= 2 && length <= buf.Length && AreDigits(buf[..], to)
    requires IsLength(Big(buf[..], to), length, to)
    requires from * Big(buf[..], to) + digit < Pow(to, buf.Length)
    modifies buf
    ensures AreDigits(buf[..], to) && Big(buf[..], to) == from * old(Big(buf[..], to)) + digit
    ensures length <= i <= buf.Length && IsLength(Big(buf[..], to), i, to)
  {
    hide Pow, Big;
    ghost var was := buf[..];
    var n := buf.Length;
    var carry: nat := digit;
    i := 0;
    LeadingZeros(was, length, to);
    BigEmpty(was, to);
    PowZero(to);
    while (carry != 0 || i < length) && i < n
      invariant 0 <= i <= n && AreDigits(buf[..], to) && buf[..n - i] == was[..n - i]
      invariant Big(buf[..][n - i..], to) + carry * Pow(to, i) == from * Big(was[n - i..], to) + digit
      invariant i > length ==> buf[n - i] != 0 || carry != 0
    {
      ghost var before := buf[..];
      var k := n - 1 - i;
      var sum: nat := carry + Product(from, buf[k]);
      buf[k] := Remainder(sum, to);
      Round(before, buf[..], was, k, from, to, carry, digit);
      carry := Quotient(sum, to);
      i := i + 1;
    }
    BigZeros(was, n - i, to);
    forall j | 0 <= j < n - i ensures buf[j] == 0 {
      assert buf[..n - i][j] == was[..n - i][j];
    }
    Settled(buf[..], i, to, carry, from * Big(was, to) + digit);
    assert carry == 0;
    StillLong(Big(was, to), from, digit);
    SettledLength(buf[..], i, length, to, Big(was, to));
  }

  lemma PowZero(b: nat)
    ensures Pow(b, 0) == 1
  {
  }

  lemma BigEmpty(s: seq<nat>, b: nat)
    ensures Big(s[|s|..], b) == 0
  {
  }

  /** A number of `len` digits has zeros before them. */
  lemma {:induction false} LeadingZeros(s: seq<nat>, len: nat, b: nat)
    requires b >= 2 && len <= |s| && Big(s, b) < Pow(b, len)
    ensures forall j :: 0 <= j < |s| - len ==> s[j] == 0
    decreases |s|
  {
    if len < |s| {
      if s[0] != 0 {
        LeadingNonZero(s, b);
        PowLess(b, len, |s| - 1);
        assert false;
      }
      LeadingZeros(s[1..], len, b);
      forall j | 0 <= j < |s| - len ensures s[j] == 0 {
        if j > 0 { assert s[j] == s[1..][j - 1]; }
      }
    }
  }

  lemma Round(before: seq<nat>, after: seq<nat>, was: seq<nat>, k: nat, from: nat, to: nat, carry: nat, digit: nat)
    requires k < |before| == |was| && to >= 2 && before[k] == was[k]
    requires after == before[k := Remainder(carry + Product(from, was[k]), to)]
    requires Big(before[k + 1..], to) + carry * Pow(to, |was| - 1 - k) == from * Big(was[k + 1..], to) + digit
    ensures Big(after[k..], to) + Quotient(carry + Product(from, was[k]), to) * Pow(to, |was| - k) ==
            from * Big(was[k..], to) + digit
  {
    hide Pow, Big;
    var p := Pow(to, |was| - 1 - k);
    var sum := carry + Product(from, was[k]);
    assert after[k..][1..] == before[k + 1..] && was[k..][1..] == was[k + 1..];
    BigFirst(after[k..], to);
    BigFirst(was[k..], to);
    PowNext(to, |was| - 1 - k);
    DigitRound(sum, to, p);
    Distribute(carry, from * was[k], p);
    Regroup(from, was[k], p);
    Distribute(was[k] * p, Big(was[k + 1..], to), from);
  }

  lemma DigitRound(sum: nat, to: nat, p: nat)
    requires to >= 1
    ensures Remainder(sum, to) * p + Quotient(sum, to) * (to * p) == sum * p
  {
    DivMod(sum, to);
    Regroup(sum / to, to, p);
    Distribute(sum % to, sum / to * to, p);
  }

  lemma BigFirst(s: seq<nat>, b: nat)
    requires s != []
    ensures Big(s, b) == s[0] * Pow(b, |s| - 1) + Big(s[1..], b)
  {
  }

  lemma PowNext(b: nat, n: nat)
    ensures Pow(b, n + 1) == b * Pow(b, n)
  {
  }

  /** Where the buffer was not reached it holds zeros, so the part reached is all of the number. */
  lemma Settled(now: seq<nat>, i: nat, to: nat, carry: nat, total: nat)
    requires i <= |now| && forall j :: 0 <= j < |now| - i ==> now[j] == 0
    requires Big(now[|now| - i..], to) + carry * Pow(to, i) == total
    requires if i < |now| then carry == 0 else total < Pow(to, i)
    ensures carry == 0 && Big(now, to) == total
  {
    hide Pow, Big;
    BigZeros(now, |now| - i, to);
    NoCarry(Big(now, to), carry, Pow(to, i), total, i == |now|);
  }

  lemma SettledLength(now: seq<nat>, i: nat, length: nat, to: nat, was: nat)
    requires to >= 2 && length <= i <= |now| && AreDigits(now, to) && forall j :: 0 <= j < |now| - i ==> now[j] == 0
    requires IsLength(was, length, to) && was <= Big(now, to) && (i > length ==> now[|now| - i] != 0)
    ensures IsLength(Big(now, to), i, to)
  {
    hide Pow, Big;
    var s := now[|now| - i..];
    BigZeros(now, |now| - i, to);
    BigBound(s, to);
    if i > length { LeadingNonZero(s, to); }
  }

  lemma StillLong(v: nat, from: nat, digit: nat)
    requires from >= 1
    ensures v <= from * v + digit
  {
    MulMono(1, from, v);
  }

  lemma NoCarry(v: nat, carry: nat, p: nat, total: nat, full: bool)
    requires v + carry * p == total && (full ==> total < p) && (!full ==> carry == 0)
    ensures carry == 0 && v == total
  {
    if carry > 0 {
      MulMono(1, carry, p);
      assert false;
    }
  }
}
