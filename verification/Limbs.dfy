/** Powers of two, and numbers written in limbs of 32 bits, the lowest first. */
module Limbs {
  import opened Nonlinear

  const BASE := 0x1_0000_0000

  function Pow2(n: nat): (r: nat)
    ensures r >= 1
  {
    if n == 0 then 1 else 2 * Pow2(n - 1)
  }

  lemma {:induction false} Pow2Add(m: nat, n: nat)
    ensures Pow2(m + n) == Pow2(m) * Pow2(n)
  {
    if n > 0 {
      Pow2Add(m, n - 1);
      Swap(Pow2(m), Pow2(n - 1));
    }
  }

  lemma {:induction false} Pow2Less(m: nat, n: nat)
    requires m < n
    ensures 2 * Pow2(m) <= Pow2(n)
  {
    if m + 1 < n { Pow2Less(m, n - 1); }
  }

  lemma Pow2Is()
    ensures Pow2(8) == 256 && Pow2(16) == 0x1_0000 && Pow2(24) == 0x100_0000 && Pow2(32) == BASE
    ensures Pow2(0) == 1 && Pow2(1) == 2 && Pow2(15) == 0x8000 && Pow2(23) == 0x80_0000
  {
    assert Pow2(4) == 16;
    assert Pow2(8) == 256;
    Pow2Add(8, 8);
    Pow2Add(16, 8);
    Pow2Add(16, 16);
  }

  /** The weight of limb `i`. */
  function Weight(i: nat): nat {
    Pow2(32 * i)
  }

  lemma WeightNext(i: nat)
    ensures Weight(i + 1) == BASE * Weight(i)
  {
    Pow2Is();
    Pow2Add(32 * i, 32);
  }

  lemma WeightAdd(i: nat, j: nat)
    ensures Weight(i + j) == Weight(i) * Weight(j)
  {
    Pow2Add(32 * i, 32 * j);
    assert 32 * i + 32 * j == 32 * (i + j);
  }

  ghost predicate IsLimbs(s: seq<nat>) {
    forall k :: 0 <= k < |s| ==> s[k] < BASE
  }

  /** The number a sequence of limbs stands for. */
  ghost function Num(s: seq<nat>): nat {
    if s == [] then 0 else Num(s[..|s| - 1]) + s[|s| - 1] * Weight(|s| - 1)
  }

  lemma NumNext(s: seq<nat>, i: nat)
    requires i < |s|
    ensures Num(s[..i + 1]) == Num(s[..i]) + s[i] * Weight(i)
  {
    assert s[..i + 1][..i] == s[..i];
  }

  lemma {:induction false} NumUpdate(s: seq<nat>, k: nat, v: nat)
    requires k < |s|
    ensures Num(s[k := v]) == Num(s) + (v - s[k]) * Weight(k)
  {
    hide Weight;
    var n := |s| - 1;
    if k < n {
      NumUpdate(s[..n], k, v);
      assert s[k := v][..n] == s[..n][k := v];
    } else {
      assert s[k := v][..n] == s[..n];
      Minus(v, s[k], Weight(k));
    }
  }

  lemma {:induction false} NumBound(s: seq<nat>)
    requires IsLimbs(s)
    ensures Num(s) < Weight(|s|)
  {
    if s != [] {
      var n := |s| - 1;
      NumBound(s[..n]);
      WeightNext(n);
      TopLimb(s[n], Weight(n));
    }
  }

  lemma TopLimb(x: nat, w: nat)
    requires x < BASE
    ensures x * w + w <= BASE * w
  {
    MulMono(x + 1, BASE, w);
  }

  lemma {:induction false} NumSplit(s: seq<nat>, k: nat)
    requires k <= |s|
    ensures Num(s) == Num(s[..k]) + Weight(k) * Num(s[k..])
  {
    hide Weight;
    var n := |s| - 1;
    if k == |s| {
      assert s[..k] == s && s[k..] == [];
    } else {
      NumSplit(s[..n], k);
      assert s[..n][..k] == s[..k] && s[..n][k..] == s[k..][..n - k] && s[k..][n - k] == s[n];
      WeightAdd(k, n - k);
      Spread(Weight(k), Num(s[k..][..n - k]), s[n], Weight(n - k));
    }
  }

  lemma Spread(p: int, a: int, x: int, q: int)
    ensures p * (a + x * q) == p * a + x * (p * q)
  {
    assert p * (x * q) == x * (p * q);
  }

  lemma {:induction false} NumZero(s: seq<nat>)
    requires forall k :: 0 <= k < |s| ==> s[k] == 0
    ensures Num(s) == 0
  {
    if s != [] { NumZero(s[..|s| - 1]); }
  }
}
