/** How far skip links jump, and how many steps it takes to go back along them. */
module SkipList {

  // ---------------------------------------------------------------- skip heights

  /** Bitwise and. */
  function And(x: nat, y: nat): (r: nat)
    ensures r <= x && r <= y
  {
    if x == 0 || y == 0 then 0 else (if x % 2 == 1 && y % 2 == 1 then 1 else 0) + 2 * And(x / 2, y / 2)
  }

  /** Clears the lowest bit that is set. */
  function InvertLowestOne(n: nat): (r: nat)
    ensures r <= n && (n > 0 ==> r < n)
  {
    if n == 0 then 0 else And(n, n - 1)
  }

  lemma {:induction false} AndSelf(x: nat)
    ensures And(x, x) == x
  {
    if x > 0 { AndSelf(x / 2); }
  }

  /** Which bit goes: of an odd number the last one, of an even number the one its half loses. */
  lemma InvertsLowest(n: nat)
    requires n > 0
    ensures InvertLowestOne(n) == if n % 2 == 1 then n - 1 else 2 * InvertLowestOne(n / 2)
  {
    if n % 2 == 1 { AndSelf(n / 2); }
  }

  /** The height a skip link jumps back to. */
  function GetSkipHeight(height: nat): (r: nat)
    ensures r <= height && (height > 0 ==> r < height)
  {
    if height < 2 then 0
    else if height % 2 == 1 then InvertLowestOne(InvertLowestOne(height - 1)) + 1
    else InvertLowestOne(height)
  }

  // ---------------------------------------------------------------- the walk

  /** Whether the walk from height `h` back to `t` takes the skip link rather than the parent. */
  predicate Skips(h: nat, t: nat)
    requires h > t
  {
    var s := GetSkipHeight(h);
    var before := GetSkipHeight(h - 1);
    s == t || (s > t && !(before < s - 2 && before >= t))
  }

  function Next(h: nat, t: nat): (r: nat)
    requires h > t
    ensures t <= r < h
  {
    if Skips(h, t) then GetSkipHeight(h) else h - 1
  }

  /** The number of steps back from `h` to `t`. */
  function Steps(h: nat, t: nat): nat
    decreases h
  {
    if h <= t then 0 else 1 + Steps(Next(h, t), t)
  }

  lemma StepsNext(h: nat, t: nat)
    requires h > t
    ensures Steps(h, t) == 1 + Steps(Next(h, t), t)
  {
  }

  // ---------------------------------------------------------------- bits

  function Pow2(n: nat): (r: nat)
    ensures r >= 1
  {
    if n == 0 then 1 else 2 * Pow2(n - 1)
  }

  lemma PowThree()
    ensures Pow2(3) == 8
  {
    assert Pow2(1) == 2;
    assert Pow2(2) == 4;
  }

  predicate Odd(n: nat) {
    n % 2 == 1
  }

  function Half(n: nat): nat {
    n / 2
  }

  lemma Parity(m: nat)
    ensures !Odd(2 * m) && Odd(2 * m + 1)
  {
  }

  lemma OddTwo(n: nat)
    requires n > 0
    ensures Odd(n - 1) <==> !Odd(n)
  {
  }

  /** The number of bits that are set. */
  function Ones(n: nat): nat {
    if n == 0 then 0 else n % 2 + Ones(n / 2)
  }

  lemma {:induction false} OnesBound(n: nat, q: nat)
    requires n < Pow2(q)
    ensures Ones(n) <= q
  {
    if n > 0 { OnesBound(n / 2, q - 1); }
  }

  lemma {:induction false} OnesFewer(n: nat)
    requires n > 0
    ensures Ones(InvertLowestOne(n)) == Ones(n) - 1
  {
    hide InvertLowestOne, Ones;
    InvertsLowest(n);
    var m := n / 2;
    OnesDouble(m);
    if n % 2 == 0 {
      OnesFewer(m);
      OnesDouble(InvertLowestOne(m));
    }
  }

  lemma OnesDouble(m: nat)
    ensures Ones(2 * m) == Ones(m) && Ones(2 * m + 1) == Ones(m) + 1
  {
    assert (2 * m) / 2 == m && (2 * m + 1) / 2 == m;
  }

  lemma {:induction false} OnesZero(n: nat)
    ensures Ones(n) == 0 <==> n == 0
  {
    if n > 0 && n % 2 == 0 { OnesZero(n / 2); }
  }

  /** A multiple of 2^q. */
  predicate Aligned(x: nat, q: nat) {
    q == 0 || (x % 2 == 0 && Aligned(x / 2, q - 1))
  }

  lemma AlignedHalf(x: nat, q: nat)
    requires q > 0 && Aligned(x, q)
    ensures x % 2 == 0 && Aligned(x / 2, q - 1)
  {
  }

  lemma {:induction false} AlignedLess(x: nat, q: nat)
    requires Aligned(x, q + 1)
    ensures Aligned(x, q)
  {
    if q > 0 { AlignedLess(x / 2, q - 1); }
  }

  lemma {:induction false} AlignedTop(x: nat, q: nat)
    requires Aligned(x, q + 1)
    ensures Aligned(x + Pow2(q), q)
  {
    if q > 0 {
      AlignedTop(x / 2, q - 1);
      assert (x + Pow2(q)) / 2 == x / 2 + Pow2(q - 1);
    }
  }

  lemma {:induction false} AlignedZero(q: nat)
    ensures Aligned(0, q)
  {
    if q > 0 { AlignedZero(q - 1); }
  }

  /** Bits below an aligned number are cleared as if it were not there. */
  lemma {:induction false} LowestBelow(x: nat, b: nat, q: nat)
    requires Aligned(x, q) && 0 < b < Pow2(q)
    ensures InvertLowestOne(x + b) == x + InvertLowestOne(b)
    decreases q
  {
    hide InvertLowestOne, Aligned;
    AlignedHalf(x, q);
    InvertsLowest(x + b);
    InvertsLowest(b);
    if b % 2 == 0 {
      LowestBelow(x / 2, b / 2, q - 1);
      assert (x + b) / 2 == x / 2 + b / 2;
    }
  }

  /** The lowest bit of an aligned number plus one power of two is that power. */
  lemma {:induction false} LowestTop(x: nat, q: nat)
    requires Aligned(x, q + 1)
    ensures InvertLowestOne(x + Pow2(q)) == x
    decreases q
  {
    hide InvertLowestOne, Aligned;
    AlignedHalf(x, q + 1);
    InvertsLowest(x + Pow2(q));
    if q > 0 {
      LowestTop(x / 2, q - 1);
      assert (x + Pow2(q)) / 2 == x / 2 + Pow2(q - 1);
    }
  }

  lemma LowestEven(x: nat)
    requires x > 0 && !Odd(x)
    ensures !Odd(InvertLowestOne(x)) && InvertLowestOne(x) + 2 <= x
  {
    hide InvertLowestOne;
    InvertsLowest(x);
  }

  lemma LowestDouble(k: nat)
    ensures InvertLowestOne(2 * k) == 2 * InvertLowestOne(k) && InvertLowestOne(2 * k + 1) == 2 * k
  {
    hide InvertLowestOne;
    if k > 0 { InvertsLowest(2 * k); } else { LowestZero(); }
    InvertsLowest(2 * k + 1);
    assert (2 * k) / 2 == k;
  }

  lemma LowestZero()
    ensures InvertLowestOne(0) == 0
  {
  }

  /** How the low bits of numbers with a given rest modulo eight are cleared. */
  lemma LowestEight(k: nat)
    ensures InvertLowestOne(8 * k) == 8 * InvertLowestOne(k)
    ensures InvertLowestOne(8 * k + 2) == InvertLowestOne(8 * k + 4) == 8 * k && InvertLowestOne(8 * k + 6) == 8 * k + 4
  {
    hide InvertLowestOne;
    LowestDouble(k);
    LowestDouble(2 * k);
    LowestDouble(4 * k);
    LowestDouble(4 * k + 1);
    LowestDouble(2 * k + 1);
    LowestDouble(4 * k + 2);
    LowestDouble(4 * k + 3);
  }

  lemma LowestFour(k: nat)
    ensures InvertLowestOne(4 * k) == 4 * InvertLowestOne(k) && InvertLowestOne(4 * k + 2) == 4 * k
  {
    hide InvertLowestOne;
    LowestDouble(k);
    LowestDouble(2 * k);
    LowestDouble(2 * k + 1);
  }

  // ---------------------------------------------------------------- one step

  lemma NextIs(h: nat, t: nat)
    requires h > t
    ensures var s, before := GetSkipHeight(h), GetSkipHeight(h - 1);
            Next(h, t) == if s == t || (s > t && !(before < s - 2 && before >= t)) then s else h - 1
  {
  }

  /** From an odd height the skip link is taken whenever it does not go too far. */
  lemma OddNext(h: nat, t: nat)
    requires h > t && Odd(h) && h >= 3
    ensures Next(h, t) == if GetSkipHeight(h) >= t then GetSkipHeight(h) else h - 1
  {
    hide InvertLowestOne;
  }

  /** A height in the upper half of an interval of 2^(q+1) heights from `a` on, `b` above its middle. */
  ghost predicate Upper(a: nat, q: nat, b: nat, t: nat) {
    q >= 1 && Aligned(a, q + 1) && b < Pow2(q) && a <= t < a + Pow2(q)
  }

  lemma UpperEven(a: nat, q: nat, b: nat, t: nat)
    requires Upper(a, q, b, t)
    ensures Pow2(q) >= 2 && !Odd(a) && !Odd(a + Pow2(q)) && Aligned(a + Pow2(q), q)
    ensures Odd(a + Pow2(q) + b) <==> Odd(b)
    ensures InvertLowestOne(a + Pow2(q)) == a
  {
    hide InvertLowestOne;
    AlignedTop(a, q);
    LowestTop(a, q);
  }

  lemma SkipEven(a: nat, q: nat, b: nat, t: nat)
    requires Upper(a, q, b, t) && b > 0 && !Odd(b)
    ensures GetSkipHeight(a + Pow2(q) + b) == a + Pow2(q) + InvertLowestOne(b)
  {
    hide InvertLowestOne;
    UpperEven(a, q, b, t);
    LowestBelow(a + Pow2(q), b, q);
  }

  lemma SkipTop(a: nat, q: nat, t: nat)
    requires Upper(a, q, 0, t)
    ensures GetSkipHeight(a + Pow2(q)) == a
  {
    hide InvertLowestOne;
    UpperEven(a, q, 0, t);
  }

  /** From an odd height two bits go, within the half if there are two besides the last. */
  lemma SkipOdd(a: nat, q: nat, b: nat, t: nat)
    requires Upper(a, q, b, t) && Odd(b)
    ensures b == 1 ==> GetSkipHeight(a + Pow2(q) + b) == InvertLowestOne(a) + 1
    ensures b > 1 && InvertLowestOne(b - 1) == 0 ==> GetSkipHeight(a + Pow2(q) + b) == a + 1
    ensures b > 1 && InvertLowestOne(b - 1) > 0 ==>
              GetSkipHeight(a + Pow2(q) + b) == a + Pow2(q) + InvertLowestOne(InvertLowestOne(b - 1)) + 1
  {
    hide InvertLowestOne;
    UpperEven(a, q, b, t);
    var m := a + Pow2(q);
    if b > 1 {
      LowestBelow(m, b - 1, q);
      if InvertLowestOne(b - 1) > 0 { LowestBelow(m, InvertLowestOne(b - 1), q); }
    }
  }

  // ---------------------------------------------------------------- leaving the upper half

  /** From the middle of the interval one step leads out. */
  lemma TopLeave(a: nat, q: nat, t: nat, x: nat)
    requires Upper(a, q, 0, t) && Steps(a + Pow2(q) - 1, t) <= x
    ensures Steps(a + Pow2(q), t) <= 1 + x
  {
    hide GetSkipHeight, Steps, Pow2, Aligned;
    SkipTop(a, q, t);
    StepsNext(a + Pow2(q), t);
    StepsSelf(t);
  }

  lemma StepsSelf(t: nat)
    ensures Steps(t, t) == 0 && Steps(t + 1, t) == 1
  {
    StepsNext(t + 1, t);
  }

  lemma LowSteps(a: nat, t: nat)
    requires a <= t <= a + 1
    ensures Steps(a + 1, t) <= 1
  {
    StepsSelf(a);
    StepsSelf(a + 1);
  }

  lemma OneLeave(a: nat, q: nat, t: nat, x: nat)
    requires Upper(a, q, 1, t) && Steps(a + Pow2(q) - 1, t) <= x && x >= 1
    ensures Steps(a + Pow2(q) + 1, t) <= 2 + x
  {
    hide GetSkipHeight, Steps, Next, Pow2, Aligned, InvertLowestOne;
    var h := a + Pow2(q) + 1;
    UpperEven(a, q, 1, t);
    SkipOdd(a, q, 1, t);
    StepsNext(h, t);
    OddNext(h, t);
    TopLeave(a, q, t, x);
    if a > 0 { LowestEven(a); } else { LowestZero(); if t <= 1 { LowSteps(0, t); } }
  }

  /** From a height with one bit below the middle two steps lead out. */
  lemma SingleLeave(a: nat, q: nat, b: nat, t: nat, x: nat)
    requires Upper(a, q, b, t) && b > 0 && !Odd(b) && InvertLowestOne(b) == 0
    requires Steps(a + Pow2(q) - 1, t) <= x && x >= 1
    ensures Steps(a + Pow2(q) + b, t) <= 2 + x
  {
    hide GetSkipHeight, Steps, Pow2, Aligned, InvertLowestOne;
    var m := a + Pow2(q);
    UpperEven(a, q, b, t);
    SkipEven(a, q, b, t);
    StepsNext(m + b, t);
    TopLeave(a, q, t, x);
    if Next(m + b, t) == m + b - 1 && b > 1 {
      var before := GetSkipHeight(m + b - 1);
      StepsNext(m + b - 1, t);
      OddNext(m + b - 1, t);
      SkipOdd(a, q, b - 1, t);
      if a > 0 { LowestEven(a); } else { LowestZero(); }
      LowSteps(a, if t <= a + 1 then t else a);
    }
  }

  lemma OnesEven(b: nat)
    requires !Odd(b)
    ensures Ones(b + 1) == Ones(b) + 1
  {
    assert (b + 1) / 2 == b / 2;
  }

  /** From an odd height every step takes two bits away, and two more lead out. */
  lemma {:induction false} OddLeave(a: nat, q: nat, b: nat, t: nat, x: nat)
    requires Upper(a, q, b, t) && Odd(b)
    requires Steps(a + Pow2(q) - 1, t) <= x && x >= 1
    ensures Steps(a + Pow2(q) + b, t) <= Half(Ones(b)) + 2 + x
    decreases b
  {
    hide GetSkipHeight, Steps, Next, Pow2, Aligned, InvertLowestOne, Ones;
    var m := a + Pow2(q);
    OnesEven(b - 1);
    if b == 1 {
      OneLeave(a, q, t, x);
    } else {
      UpperEven(a, q, b, t);
      OnesFewer(b - 1);
      SkipOdd(a, q, b, t);
      StepsNext(m + b, t);
      OddNext(m + b, t);
      LowestEven(b - 1);
      var c := InvertLowestOne(b - 1);
      if c == 0 {
        OnesZero(0);
        if t <= a + 1 { LowSteps(a, t); } else { SingleLeave(a, q, b - 1, t, x); }
      } else {
        OnesFewer(c);
        LowestEven(c);
        OnesEven(InvertLowestOne(c));
        OddLeave(a, q, InvertLowestOne(c) + 1, t, x);
      }
    }
  }

  /** Where the skip link before leads, one below a multiple of eight above the middle. */
  lemma BeforeEight(a: nat, q: nat, k: nat, t: nat)
    requires k > 0 && Upper(a, q, 8 * k, t)
    ensures GetSkipHeight(a + Pow2(q) + 8 * k - 1) == a + Pow2(q) + 8 * k - 7
  {
    hide Odd, GetSkipHeight, Pow2, Aligned, InvertLowestOne;
    Parity(4 * k - 1);
    LowestEight(k - 1);
    SkipOdd(a, q, 8 * k - 1, t);
  }

  /** From a multiple of eight above the middle every step takes one bit away. */
  lemma {:induction false} EightLeave(a: nat, q: nat, k: nat, t: nat, x: nat)
    requires Upper(a, q, 8 * k, t)
    requires Steps(a + Pow2(q) - 1, t) <= x && x >= 1
    ensures Steps(a + Pow2(q) + 8 * k, t) <= Ones(8 * k) + 1 + x
    decreases k
  {
    hide Odd, Half, GetSkipHeight, Steps, Next, Pow2, Aligned, InvertLowestOne, Ones;
    if k == 0 {
      TopLeave(a, q, t, x);
    } else {
      Parity(4 * k);
      OnesFewer(8 * k);
      LowestEight(k);
      if InvertLowestOne(k) == 0 {
        SingleLeave(a, q, 8 * k, t, x);
      } else {
        SkipEven(a, q, 8 * k, t);
        BeforeEight(a, q, k, t);
        NextIs(a + Pow2(q) + 8 * k, t);
        StepsNext(a + Pow2(q) + 8 * k, t);
        EightLeave(a, q, InvertLowestOne(k), t, x);
      }
    }
  }

  lemma HalfBelow(m: nat, q: nat)
    requires m > 0 && 2 * m < Pow2(q)
    ensures q >= 1 && m < Pow2(q - 1)
  {
  }

  lemma OnesEight(k: nat, q: nat)
    requires 0 < k && 8 * k < Pow2(q)
    ensures Ones(8 * k) <= q - 3
  {
    hide Ones, Pow2;
    HalfBelow(4 * k, q);
    HalfBelow(2 * k, q - 1);
    HalfBelow(k, q - 2);
    OnesBound(k, q - 3);
    OnesDouble(k);
    OnesDouble(2 * k);
    OnesDouble(4 * k);
  }

  lemma OnesFour(k: nat, q: nat)
    requires 8 * k + 4 < Pow2(q)
    ensures Ones(8 * k + 4) <= q - 2 && Ones(8 * k + 3) == Ones(8 * k + 4) + 1
  {
    hide Ones, Pow2;
    HalfBelow(4 * k + 2, q);
    HalfBelow(2 * k + 1, q - 1);
    OnesBound(2 * k + 1, q - 2);
    OnesDouble(k);
    OnesDouble(2 * k);
    OnesDouble(2 * k + 1);
    OnesDouble(4 * k + 1);
    OnesDouble(4 * k + 2);
  }

  lemma OnesTwo(k: nat, q: nat)
    requires 4 * k + 2 < Pow2(q)
    ensures Ones(4 * k + 2) <= q - 1 && Ones(4 * k + 1) == Ones(4 * k + 2)
  {
    hide Ones, Pow2;
    HalfBelow(2 * k + 1, q);
    OnesBound(2 * k + 1, q - 1);
    OnesDouble(k);
    OnesDouble(2 * k);
    OnesDouble(2 * k + 1);
  }

  /** Four modulo eight, with more bits: the parent is taken, and from there two bits at a time. */
  lemma FourNext(a: nat, q: nat, k: nat, t: nat)
    requires k > 0 && Upper(a, q, 8 * k + 4, t)
    ensures Next(a + Pow2(q) + 8 * k + 4, t) == a + Pow2(q) + 8 * k + 3
  {
    hide Odd, GetSkipHeight, Skips, Next, Pow2, Aligned, InvertLowestOne;
    Parity(4 * k + 2);
    Parity(4 * k + 1);
    LowestEight(k);
    SkipEven(a, q, 8 * k + 4, t);
    SkipOdd(a, q, 8 * k + 3, t);
    NextIs(a + Pow2(q) + 8 * k + 4, t);
  }

  lemma FourLeave(a: nat, q: nat, k: nat, t: nat, x: nat)
    requires Upper(a, q, 8 * k + 4, t)
    requires Steps(a + Pow2(q) - 1, t) <= x && x >= 1
    ensures Steps(a + Pow2(q) + 8 * k + 4, t) <= Half(q + 1) + 2 + x
  {
    hide Odd, Half, GetSkipHeight, Steps, Next, Pow2, Aligned, InvertLowestOne, Ones;
    Parity(4 * k + 2);
    Parity(4 * k + 1);
    if k == 0 {
      LowestEight(0);
      SingleLeave(a, q, 4, t, x);
    } else {
      OnesFour(k, q);
      FourNext(a, q, k, t);
      StepsNext(a + Pow2(q) + 8 * k + 4, t);
      OddLeave(a, q, 8 * k + 3, t, x);
      Halves(Ones(8 * k + 3), q);
    }
  }

  lemma Halves(o: nat, q: nat)
    requires o < q
    ensures Half(o) + 3 <= Half(q + 1) + 2
  {
  }

  /** Two modulo four: the parent is taken if there is more than one bit above. */
  lemma TwoNext(a: nat, q: nat, k: nat, t: nat)
    requires k > 0 && Upper(a, q, 4 * k + 2, t)
    ensures InvertLowestOne(k) > 0 ==> Next(a + Pow2(q) + 4 * k + 2, t) == a + Pow2(q) + 4 * k + 1
    ensures Next(a + Pow2(q) + 4 * k + 2, t) in {a + Pow2(q) + 4 * k + 1, a + Pow2(q) + 4 * k}
  {
    hide Odd, GetSkipHeight, Skips, Next, Pow2, Aligned, InvertLowestOne;
    Parity(2 * k + 1);
    Parity(2 * k);
    LowestFour(k);
    SkipEven(a, q, 4 * k + 2, t);
    NextIs(a + Pow2(q) + 4 * k + 2, t);
    if InvertLowestOne(k) > 0 {
      LowestFour(InvertLowestOne(k));
      SkipOdd(a, q, 4 * k + 1, t);
    }
  }

  lemma TwoLeave(a: nat, q: nat, k: nat, t: nat, x: nat)
    requires Upper(a, q, 4 * k + 2, t)
    requires Steps(a + Pow2(q) - 1, t) <= x && x >= 1
    ensures Steps(a + Pow2(q) + 4 * k + 2, t) <= Half(q + 1) + 2 + x
  {
    hide Odd, Half, GetSkipHeight, Steps, Next, Pow2, Aligned, InvertLowestOne, Ones;
    Parity(2 * k + 1);
    Parity(2 * k);
    OnesTwo(k, q);
    Halves(Ones(4 * k + 2), q);
    LowestFour(k);
    if k == 0 {
      SingleLeave(a, q, 2, t, x);
    } else {
      TwoNext(a, q, k, t);
      StepsNext(a + Pow2(q) + 4 * k + 2, t);
      if Next(a + Pow2(q) + 4 * k + 2, t) == a + Pow2(q) + 4 * k + 1 {
        OddLeave(a, q, 4 * k + 1, t, x);
      } else {
        SingleLeave(a, q, 4 * k, t, x);
        OnesFewer(4 * k + 2);
        OnesFewer(4 * k);
        Halves(2, q);
      }
    }
  }

  function Max(x: int, y: int): int {
    if x > y then x else y
  }

  /** The most steps it takes to leave the upper half of an interval of 2^p heights. */
  function LeaveMost(p: nat): int {
    Max(p - 3, Half(p) + 2)
  }

  lemma AnyLeave(a: nat, q: nat, b: nat, t: nat, x: nat)
    requires Upper(a, q, b, t) && Steps(a + Pow2(q) - 1, t) <= x && x >= 1
    ensures Steps(a + Pow2(q) + b, t) <= LeaveMost(q + 1) + x
  {
    hide Odd, Half, Steps, Pow2, Aligned, Ones, Upper, LeaveMost;
    LeaveIs(q);
    if Odd(b) {
      OddLeave(a, q, b, t, x);
      UpperOnes(a, q, b, t);
      HalfBound(Ones(b), q);
    } else {
      var k, r := Eighths(b);
      if r == 2 {
        TwoLeave(a, q, 2 * k, t, x);
      } else if r == 6 {
        TwoLeave(a, q, 2 * k + 1, t, x);
      } else if r == 4 {
        FourLeave(a, q, k, t, x);
      } else {
        EightLeave(a, q, k, t, x);
        UpperEight(a, q, k, t);
      }
    }
  }

  lemma Eighths(b: nat) returns (k: nat, r: nat)
    requires !Odd(b)
    ensures b == 8 * k + r && (r == 0 || r == 2 || r == 4 || r == 6)
  {
    var half := b / 2;
    k := half / 4;
    r := 2 * (half % 4);
  }

  lemma HalfBound(o: nat, q: nat)
    requires o <= q
    ensures Half(o) <= Half(q + 1)
  {
  }

  lemma LeaveIs(q: nat)
    ensures Half(q + 1) + 2 <= LeaveMost(q + 1) && q - 2 <= LeaveMost(q + 1) && 2 <= LeaveMost(q + 1)
  {
  }

  lemma UpperOnes(a: nat, q: nat, b: nat, t: nat)
    requires Upper(a, q, b, t)
    ensures Ones(b) <= q
  {
    OnesBound(b, q);
  }

  lemma UpperEight(a: nat, q: nat, k: nat, t: nat)
    requires Upper(a, q, 8 * k, t)
    ensures k > 0 ==> Ones(8 * k) <= q - 3
    ensures k == 0 ==> Ones(8 * k) == 0
  {
    if k > 0 { OnesEight(k, q); }
  }

  // ---------------------------------------------------------------- the number of steps

  lemma SmallLowest(a: nat)
    requires a % 8 == 0
    ensures InvertLowestOne(a + 2) == InvertLowestOne(a + 4) == a && InvertLowestOne(a + 6) == a + 4
  {
    hide InvertLowestOne;
    LowestEight(a / 8);
    assert a == 8 * (a / 8);
  }

  /** Below the interval, or at its start if that is zero. */
  predicate Falls(a: nat, s: nat, z: nat) {
    s < a || (a == 0 && s == z)
  }

  lemma LowestFalls(a: nat)
    requires a % 8 == 0
    ensures Falls(a, InvertLowestOne(a) + 1, 1) && (a > 0 ==> InvertLowestOne(InvertLowestOne(a)) + 1 < a)
  {
    hide InvertLowestOne;
    LowestZero();
    if a > 0 { LowestEven(a); }
  }

  /** The skip heights within eight heights from a multiple of eight on. */
  lemma SmallSkips(a: nat)
    requires a % 8 == 0
    ensures GetSkipHeight(a + 2) == GetSkipHeight(a + 4) == a && GetSkipHeight(a + 6) == a + 4
    ensures GetSkipHeight(a + 7) == a + 1
    ensures Falls(a, GetSkipHeight(a + 1), 0) && Falls(a, GetSkipHeight(a + 3), 1) && Falls(a, GetSkipHeight(a + 5), 1)
  {
    hide InvertLowestOne, Falls;
    SmallLowest(a);
    LowestFalls(a);
    assert Falls(a, GetSkipHeight(a + 1), 0) by { FallsFirst(a); }
  }

  lemma FallsFirst(a: nat)
    requires a % 8 == 0
    ensures Falls(a, GetSkipHeight(a + 1), 0)
  {
    hide InvertLowestOne;
    LowestFalls(a);
  }

  /** Within eight heights it takes at most four steps. */
  lemma SmallSteps(a: nat, x: nat, y: nat)
    requires a % 8 == 0 && y <= x < 8
    ensures Steps(a + x, a + y) <= 4
  {
    hide GetSkipHeight, Steps, Next;
    SmallSkips(a);
    LowThree(a, y);
    StepsFrom(a, 4, y);
    StepsFrom(a, 5, y);
    StepsFrom(a, 6, y);
    StepsFrom(a, 7, y);
  }

  lemma StepsFrom(a: nat, x: nat, y: nat)
    requires x > 0
    ensures x <= y ==> Steps(a + x, a + y) == 0
    ensures x > y ==> var h, t := a + x, a + y;
                      var s, before := GetSkipHeight(h), GetSkipHeight(h - 1);
                      var skips := s == t || (s > t && !(before < s - 2 && before >= t));
                      Steps(h, t) == 1 + Steps(if skips then s else h - 1, t)
  {
    hide GetSkipHeight;
  }

  lemma LowThree(a: nat, y: nat)
    requires a % 8 == 0
    ensures Steps(a, a + y) == 0 && Steps(a + 1, a + y) <= 1 && Steps(a + 2, a + y) <= 1 && Steps(a + 3, a + y) <= 2
    ensures y >= 2 ==> Steps(a + 3, a + y) <= 1
  {
    hide GetSkipHeight, Next;
    SmallSkips(a);
    StepsFrom(a, 1, y);
    StepsFrom(a, 2, y);
    StepsFrom(a, 3, y);
  }

  /** The most steps from an odd height within an aligned interval of 2^p heights. */
  function OddMost(p: nat): nat {
    if p <= 3 then 4 else OddMost(p - 1) + Half(p - 1) + 2
  }

  /** The most steps from any height within an aligned interval of 2^p heights. */
  function Most(p: nat): int {
    if p <= 3 then 4 else LeaveMost(p) + OddMost(p - 1)
  }

  lemma AlignedEight(x: nat)
    requires Aligned(x, 3)
    ensures x % 8 == 0
  {
    assert Aligned(x / 2, 2) && Aligned(x / 2 / 2, 1) && Aligned(x / 2 / 2 / 2, 0);
  }

  lemma EightBound(a: nat, h: nat, t: nat)
    requires Aligned(a, 3) && a <= t <= h < a + Pow2(3)
    ensures Steps(h, t) <= 4
  {
    hide Steps;
    AlignedEight(a);
    PowThree();
    SmallSteps(a, h - a, t - a);
  }

  /** The halves of an aligned interval. */
  lemma HalvesOf(a: nat, p: nat)
    requires p > 3 && Aligned(a, p)
    ensures Pow2(p) == 2 * Pow2(p - 1) && Pow2(p - 1) >= 1
    ensures Aligned(a, p - 1) && Aligned(a + Pow2(p - 1), p - 1) && !Odd(a + Pow2(p - 1)) && Odd(a + Pow2(p - 1) - 1)
  {
    hide Aligned, Odd, Pow2;
    PowNext(p);
    AlignedLess(a, p - 1);
    AlignedTop(a, p - 1);
    AlignedEven(a + Pow2(p - 1), p - 1);
    OddTwo(a + Pow2(p - 1));
  }

  lemma PowNext(p: nat)
    requires p > 0
    ensures Pow2(p) == 2 * Pow2(p - 1)
  {
  }

  lemma AlignedEven(x: nat, q: nat)
    requires q > 0 && Aligned(x, q)
    ensures !Odd(x)
  {
  }

  lemma {:induction false} OddBound(a: nat, p: nat, h: nat, t: nat)
    requires p >= 3 && Aligned(a, p) && a <= t <= h < a + Pow2(p) && Odd(h)
    ensures Steps(h, t) <= OddMost(p)
    decreases p
  {
    hide Steps, Aligned, Ones, OddMost, Odd, Half, Pow2;
    OddMostIs(p);
    if p == 3 {
      EightBound(a, h, t);
    } else {
      var q := p - 1;
      var m := a + Pow2(q);
      HalvesOf(a, p);
      if h < m {
        OddBound(a, q, h, t);
      } else if t >= m {
        OddBound(m, q, h, t);
      } else {
        OddBound(a, q, m - 1, t);
        OddAbove(m, h);
        OddLeave(a, q, h - m, t, OddMost(q));
        UpperOnes(a, q, h - m, t);
        HalfMono(Ones(h - m), q);
      }
    }
  }

  lemma OddAbove(m: nat, h: nat)
    requires !Odd(m) && m <= h
    ensures Odd(h - m) <==> Odd(h)
  {
  }

  lemma HalfMono(o: nat, q: nat)
    requires o <= q
    ensures Half(o) <= Half(q)
  {
  }

  lemma OddMostIs(p: nat)
    ensures OddMost(p) == if p <= 3 then 4 else OddMost(p - 1) + Half(p - 1) + 2
    ensures p > 0 ==> OddMost(p - 1) >= 4
  {
  }

  lemma {:induction false} AnyBound(a: nat, p: nat, h: nat, t: nat)
    requires p >= 3 && Aligned(a, p) && a <= t <= h < a + Pow2(p)
    ensures Steps(h, t) <= Most(p)
    decreases p
  {
    hide Steps, Aligned, Ones, OddMost, LeaveMost, Odd, Half, Pow2;
    if p == 3 {
      EightBound(a, h, t);
    } else {
      var q := p - 1;
      var m := a + Pow2(q);
      HalvesOf(a, p);
      MostGrows(q);
      if h < m {
        AnyBound(a, q, h, t);
      } else if t >= m {
        AnyBound(m, q, h, t);
      } else {
        OddBound(a, q, m - 1, t);
        OddMostIs(p);
        AnyLeave(a, q, h - m, t, OddMost(q));
      }
    }
  }

  lemma MostGrows(p: nat)
    ensures Most(p) <= Most(p + 1)
  {
  }

  /** Going back from any height below 2^k to any other takes at most `Most(k)` steps. */
  lemma StepsBound(h: nat, t: nat, k: nat)
    requires k >= 3 && t <= h < Pow2(k)
    ensures Steps(h, t) <= Most(k)
  {
    AlignedZero(k);
    AnyBound(0, k, h, t);
  }

  /** That is 110 for 18 bits. */
  lemma MostOfEighteen()
    ensures Most(18) == 110 && Pow2(18) == 262144
  {
    assert OddMost(6) == 15;
    assert OddMost(9) == 31;
    assert OddMost(12) == 51;
    assert OddMost(15) == 76;
    assert OddMost(17) == 95;
    assert Pow2(6) == 64;
    assert Pow2(12) == 4096;
  }

  /** So going back below 2^18 blocks takes at most 110 steps. */
  lemma AtMost110(h: nat, t: nat)
    requires t <= h < 0x4_0000
    ensures Steps(h, t) <= 110
  {
    MostOfEighteen();
    StepsBound(h, t, 18);
  }

  /** And never more than the square of the number of bits. */
  lemma {:induction false} MostSquare(k: nat)
    requires k >= 3
    ensures Most(k) <= k * k
  {
    if k > 4 { OddSquare(k - 1); }
  }

  lemma {:induction false} OddSquare(p: nat)
    requires p >= 4
    ensures OddMost(p) + 2 * p <= p * p
  {
    if p > 4 {
      OddSquare(p - 1);
      assert p * p == (p - 1) * (p - 1) + 2 * p - 1;
    }
  }
}
