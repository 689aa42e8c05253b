/** Small facts of arithmetic with products and remainders. */
module Nonlinear {

  function Product(a: nat, b: nat): nat {
    a * b
  }

  function Quotient(x: nat, d: nat): (q: nat)
    requires d >= 1
  {
    x / d
  }

  function Remainder(x: nat, d: nat): (r: nat)
    requires d >= 1
    ensures r < d
  {
    x % d
  }

  lemma Swap(a: int, b: int)
    ensures 2 * (a * b) == a * (2 * b)
  {
  }

  lemma Regroup(a: int, b: int, c: int)
    ensures a * (b * c) == (a * b) * c
  {
  }

  lemma Distribute(a: int, b: int, p: int)
    ensures (a + b) * p == a * p + b * p
  {
  }

  lemma Minus(a: int, b: int, p: int)
    ensures (a - b) * p == a * p - b * p
  {
  }

  lemma Scale(a: int, w: int)
    ensures (a + 1) * w == a * w + w
  {
  }

  lemma NonNegative(a: nat, b: nat)
    ensures a * b >= 0
  {
  }

  lemma MulMono(a: int, b: int, p: nat)
    requires a <= b
    ensures a * p <= b * p
  {
    NonNegative(b - a, p);
    Minus(b, a, p);
  }

  lemma DivMod(x: int, m: nat)
    requires m > 0
    ensures 0 <= x % m < m && x % m + (x / m) * m == x
  {
  }

  lemma ModUnique(r: nat, q: int, m: nat, q2: int, r2: int)
    requires r < m && 0 <= r2 < m && r + q * m == r2 + q2 * m
    ensures q == q2 && r == r2
  {
    if q > q2 { MulMono(q2 + 1, q, m); }
    if q < q2 { MulMono(q + 1, q2, m); }
  }

  /** A number below the modulus that agrees with `x` up to a multiple of it is the remainder. */
  lemma IsMod(r: nat, q: int, m: nat, x: int)
    requires r < m && r + q * m == x
    ensures r == x % m
  {
    DivMod(x, m);
    ModUnique(r, q, m, x / m, x % m);
  }

  /** Likewise for the quotient. */
  lemma IsDiv(q: int, r: nat, m: nat, x: int)
    requires r < m && q * m + r == x
    ensures q == x / m
  {
    DivMod(x, m);
    ModUnique(r, q, m, x / m, x % m);
  }
}
