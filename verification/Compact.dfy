/** The compact form of 256-bit targets, and the work a target stands for. */
module Compact {
  import opened Limbs
  import opened Nonlinear
  import opened Uint256

  const MANTISSA_LIMIT := 0x80_0000

  function Mantissa(c: nat): (m: nat)
    ensures m < MANTISSA_LIMIT
  {
    c % MANTISSA_LIMIT
  }

  predicate Sign(c: nat) {
    c / MANTISSA_LIMIT % 2 == 1
  }

  function Size(c: nat): nat {
    c / 0x100_0000
  }

  /** The number mantissa * 256^(size - 3), rounded down. */
  function Expand(m: nat, size: nat): nat {
    Quotient(Product(m, Pow2(8 * size)), Pow2(24))
  }

  lemma ExpandSmall(m: nat, size: nat)
    requires size <= 3
    ensures Expand(m, size) == m / Pow2(8 * (3 - size))
  {
    hide Pow2;
    var p, r := Pow2(8 * size), Pow2(8 * (3 - size));
    Pow2Add(8 * size, 8 * (3 - size));
    DivMod(m, r);
    Distribute(m % r, m / r * r, p);
    Regroup(m / r, r, p);
    MulMono(m % r + 1, r, p);
    Scale(m % r, p);
    NonNegative(m % r, p);
    IsDiv(m / r, m % r * p, Pow2(24), m * p);
  }

  lemma ExpandLarge(m: nat, size: nat)
    requires size >= 3
    ensures Expand(m, size) == m * Pow2(8 * (size - 3)) && m * Pow2(8 * size) == Expand(m, size) * Pow2(24)
  {
    hide Pow2;
    Pow2Add(8 * (size - 3), 24);
    Regroup(m, Pow2(8 * (size - 3)), Pow2(24));
    IsDiv(m * Pow2(8 * (size - 3)), 0, Pow2(24), m * Pow2(8 * size));
  }

  /** The number does not fit in 256 bits exactly under the three tests on the shifted mantissa. */
  lemma Overflows(m: nat, size: nat)
    requires m < MANTISSA_LIMIT
    ensures Expand(m, size) >= MODULUS <==>
            m > 0 && (size > 34 || (m > 0xff && size > 33) || (m > 0xffff && size > 32))
  {
    hide Pow2;
    Pow2Is();
    if size <= 3 {
      ExpandSmall(m, size);
      SmallExpand(m, size);
    } else {
      ExpandLarge(m, size);
      LargeExpand(m, size);
    }
  }

  lemma LargeExpand(m: nat, size: nat)
    requires m < MANTISSA_LIMIT && size > 3
    ensures m * Pow2(8 * (size - 3)) >= MODULUS <==>
            m > 0 && (size > 34 || (m > 0xff && size > 33) || (m > 0xffff && size > 32))
  {
    hide Pow2;
    Pow2Is();
    var p := Pow2(8 * (size - 3));
    if size >= 35 {
      Pow2Order(256, 8 * (size - 3));
      if m > 0 { MulMono(1, m, p); }
    } else {
      var r := Pow2(8 * (35 - size));
      Pow2Add(8 * (size - 3), 8 * (35 - size));
      assert MODULUS == p * r;
      FitsIff(m, p, r);
      assert size == 34 ==> r == 256;
      assert size == 33 ==> r == 0x1_0000;
      if size <= 32 { Pow2Order(24, 8 * (35 - size)); }
    }
  }

  lemma SmallExpand(m: nat, size: nat)
    requires m < MANTISSA_LIMIT && size <= 3
    ensures m / Pow2(8 * (3 - size)) < MODULUS
  {
    hide Pow2;
    Pow2Is();
    var r := Pow2(8 * (3 - size));
    DivMod(m, r);
    MulMono(1, r, m / r);
    Pow2Order(24, 256);
  }

  lemma FitsIff(m: nat, p: nat, r: nat)
    requires p > 0
    ensures m * p >= p * r <==> m >= r
  {
    if m >= r { MulMono(r, m, p); } else { MulMono(m + 1, r, p); Scale(m, p); }
  }

  /** Decodes a compact target. It overflows exactly when the number does not fit in 256 bits; otherwise
      the number is stored. It counts as negative when the sign is set on a number other than zero. */
  method SetCompact(u: Uint, compact: nat) returns (negative: bool, overflow: bool)
    requires u.Valid() && compact < BASE
    modifies u.pn
    ensures u.Valid()
    ensures var x := Expand(Mantissa(compact), Size(compact));
            && (overflow <==> x >= MODULUS)
            && (!overflow ==> u.Val() == x)
            && (negative <==> x != 0 && Sign(compact))
  {
    hide Pow2, Expand, Num, Weight;
    var size := compact / 0x100_0000;
    var word := compact % MANTISSA_LIMIT;
    ghost var m := word;
    Overflows(m, size);
    if size <= 3 {
      ExpandSmall(m, size);
      SmallExpand(m, size);
      word := Quotient(word, Pow2(8 * (3 - size)));
      ShiftedSmall(m, size);
      u.AssignLow(word);
    } else {
      ExpandLarge(m, size);
      u.AssignLow(word);
      u.ShiftLeft(8 * (size - 3));
      NonNegative(m, Pow2(8 * (size - 3)));
      if Expand(m, size) < MODULUS { IsMod(Expand(m, size), 0, MODULUS, Expand(m, size)); }
      FitsIff(m, Pow2(8 * (size - 3)), 1);
    }
    negative := word != 0 && compact / MANTISSA_LIMIT % 2 == 1;
    overflow := word != 0 && (size > 34 || (word > 0xff && size > 33) || (word > 0xffff && size > 32));
  }

  lemma ShiftedSmall(m: nat, size: nat)
    requires m < MANTISSA_LIMIT && size <= 3
    ensures m / Pow2(8 * (3 - size)) < BASE
  {
    hide Pow2;
    var r := Pow2(8 * (3 - size));
    DivMod(m, r);
    MulMono(1, r, m / r);
  }

  // ---------------------------------------------------------------- encoding

  /** The mantissa is the number scaled to three bytes, rounded down. */
  ghost predicate Scaled(x: nat, m: nat, size: nat) {
    m * Pow2(8 * size) <= x * Pow2(24) < (m + 1) * Pow2(8 * size)
  }

  /** What the compact form of a number is: zero is all zero, otherwise the scaled mantissa has its
      sixteenth to twenty-third lowest bit on top. */
  ghost predicate IsCompact(x: nat, m: nat, size: nat) {
    if x == 0 then m == 0 && size == 0
    else Pow2(15) <= m < MANTISSA_LIMIT && Scaled(x, m, size)
  }

  /** Encodes a number. */
  method GetCompact(u: Uint, negative: bool) returns (c: nat)
    requires u.Valid()
    ensures c < BASE && IsCompact(u.Val(), Mantissa(c), Size(c))
    ensures Sign(c) <==> negative && Mantissa(c) != 0
  {
    hide Pow2, Num, Weight, Scaled, Or;
    ghost var x := u.Val();
    var bits := u.Bits();
    var size := (bits + 7) / 8;
    ByteLength(x, bits, size);
    var word := TopThree(u, size);
    Pow2Is();
    HighBit(word, 23);
    if IsBitSet(word, 23) {
      OneByteDown(x, word, size);
      word := word / 256;
      size := size + 1;
    }
    assert word < MANTISSA_LIMIT && size < 256;
    OrDisjoint(word, size, 24);
    c := Or(word, size * 0x100_0000);
    Parts(word, size);
    if negative && c % MANTISSA_LIMIT != 0 {
      WithSign(word, size);
      c := Or(c, MANTISSA_LIMIT);
    }
  }

  /** The bytes a number needs. */
  lemma ByteLength(x: nat, bits: nat, size: nat)
    requires bits <= 256 && x < Pow2(bits) && (bits > 0 ==> Pow2(bits - 1) <= x) && size == (bits + 7) / 8
    ensures size <= 32 && x < Pow2(8 * size) && (x > 0 ==> size > 0 && Pow2(8 * (size - 1)) <= x) &&
            (x == 0 ==> size == 0)
  {
    hide Pow2;
    Pow2Is();
    Pow2Order(bits, 8 * size);
    if bits > 0 { Pow2Order(8 * (size - 1), bits - 1); }
  }

  /** The three most significant bytes. */
  method TopThree(u: Uint, size: nat) returns (word: nat)
    requires u.Valid() && size <= 32 && u.Val() < Pow2(8 * size) &&
             (u.Val() > 0 ==> size > 0 && Pow2(8 * (size - 1)) <= u.Val())
    ensures word < Pow2(24) && Scaled(u.Val(), word, size) && (u.Val() > 0 ==> Pow2(16) <= word)
    ensures u.Val() == 0 ==> word == 0
  {
    hide Pow2, Num, Weight, Scaled;
    ghost var x := u.Val();
    Pow2Is();
    if size <= 3 {
      Pow2Order(8 * size, 24);
      word := u.GetLow64();
      IsMod(x, 0, BASE * BASE, x);
      word := Product(word, Pow2(8 * (3 - size)));
      ScaledUp(x, size);
    } else {
      var bn := new Uint.Copy(u);
      bn.ShiftRight(8 * (size - 3));
      ScaledDown(x, size);
      ScaledBounds(x, bn.Val(), size);
      word := bn.GetLow64();
      IsMod(bn.Val(), 0, BASE * BASE, bn.Val());
    }
    ScaledBounds(x, word, size);
  }

  lemma ScaledUp(x: nat, size: nat)
    requires size <= 3
    ensures Scaled(x, Product(x, Pow2(8 * (3 - size))), size)
  {
    hide Pow2;
    var p, r := Pow2(8 * size), Pow2(8 * (3 - size));
    Pow2Add(8 * (3 - size), 8 * size);
    Regroup(x, r, p);
    Scale(x * r, p);
  }

  lemma ScaledDown(x: nat, size: nat)
    requires size > 3
    ensures Scaled(x, Quotient(x, Pow2(8 * (size - 3))), size)
  {
    hide Pow2;
    var p, r := Pow2(8 * (size - 3)), Pow2(24);
    var m := x / p;
    Pow2Add(8 * (size - 3), 24);
    DivMod(x, p);
    Scale(m, p);
    MulMono(m * p, x, r);
    Regroup(m, p, r);
    MulMono(x + 1, (m + 1) * p, r);
    Scale(x, r);
    Regroup(m + 1, p, r);
  }

  /** A number of exactly `size` bytes has a scaled mantissa of exactly three. */
  lemma ScaledBounds(x: nat, m: nat, size: nat)
    requires Scaled(x, m, size) && x < Pow2(8 * size)
    ensures m < Pow2(24) && (x == 0 ==> m == 0)
    ensures size > 0 && Pow2(8 * (size - 1)) <= x ==> Pow2(16) <= m
  {
    hide Pow2;
    var p := Pow2(8 * size);
    MulMono(x + 1, p, Pow2(24));
    Scale(x, Pow2(24));
    FitsIff(m, p, Pow2(24));
    if x == 0 && m > 0 {
      MulMono(1, m, p);
      assert false;
    }
    if size > 0 && Pow2(8 * (size - 1)) <= x {
      MulMono(Pow2(8 * (size - 1)), x, Pow2(24));
      Pow2Add(8 * (size - 1), 24);
      Pow2Add(8 * size, 16);
      FitsIff(m + 1, p, Pow2(16));
      if m < Pow2(16) { MulMono(m + 1, Pow2(16), p); }
    }
  }

  lemma OneByteDown(x: nat, m: nat, size: nat)
    requires Scaled(x, m, size) && MANTISSA_LIMIT <= m < Pow2(24)
    ensures Scaled(x, m / 256, size + 1) && Pow2(15) <= m / 256 < MANTISSA_LIMIT
  {
    hide Pow2;
    Pow2Is();
    Pow2Add(8, 8 * size);
    var d, p := m / 256, Pow2(8 * size);
    Regroup(d, 256, p);
    Regroup(d + 1, 256, p);
    MulMono(d * 256, m, p);
    MulMono(m + 1, (d + 1) * 256, p);
  }

  lemma Parts(m: nat, size: nat)
    requires m < MANTISSA_LIMIT && size < 256
    ensures var c := m + size * 0x100_0000;
            Mantissa(c) == m && Size(c) == size && !Sign(c) && c < BASE
  {
  }

  lemma WithSign(m: nat, size: nat)
    requires m < MANTISSA_LIMIT && size < 256
    ensures var c := Or(m + size * 0x100_0000, MANTISSA_LIMIT);
            Mantissa(c) == m && Size(c) == size && Sign(c) && c < BASE
  {
    hide Pow2, Or;
    Pow2Is();
    OrLow(m, size, 24, Pow2(23));
    OrDisjoint(m, 1, 23);
  }

  /** Higher bits pass through. */
  lemma {:induction false} OrLow(x: nat, h: nat, s: nat, y: nat)
    requires x < Pow2(s) && y < Pow2(s)
    ensures Or(x + h * Pow2(s), y) == Or(x, y) + h * Pow2(s)
  {
    if s == 0 {
      OrSwap(h, 0);
      OrZero(h);
    } else {
      OrLow(x / 2, h, s - 1, y / 2);
      Swap(h, Pow2(s - 1));
    }
  }

  // ---------------------------------------------------------------- what encoding keeps

  lemma CodeLess(m: nat, size: nat, n: nat, size2: nat)
    requires m < MANTISSA_LIMIT && size < size2
    ensures m + size * 0x100_0000 <= n + size2 * 0x100_0000
  {
  }

  /** Of two numbers the smaller never has the larger size. */
  lemma SizeMonotone(x: nat, m: nat, size: nat, y: nat, n: nat, size2: nat)
    requires 0 < x <= y && IsCompact(x, m, size) && IsCompact(y, n, size2)
    ensures size <= size2
  {
    hide Pow2;
    if size > size2 {
      Pow2Is();
      var p := Pow2(8 * size2);
      Pow2Order(8 * size2 + 8, 8 * size);
      Pow2Add(8, 8 * size2);
      MulMono(Pow2(15), m, Pow2(8 * size));
      MulMono(n + 1, MANTISSA_LIMIT, p);
      MulMono(x, y, Pow2(24));
      assert false;
    }
  }

  /** Encoding is monotone, as numbers of 32 bits. */
  lemma Monotone(x: nat, m: nat, size: nat, y: nat, n: nat, size2: nat)
    requires x <= y && IsCompact(x, m, size) && IsCompact(y, n, size2)
    ensures m + size * 0x100_0000 <= n + size2 * 0x100_0000
  {
    hide Pow2;
    if x > 0 {
      SizeMonotone(x, m, size, y, n, size2);
      if size < size2 {
        CodeLess(m, size, n, size2);
      } else {
        MulMono(x, y, Pow2(24));
        if n + 1 <= m { MulMono(n + 1, m, Pow2(8 * size)); assert false; }
      }
    }
  }

  /** The compact form of a number is unique. */
  lemma CompactUnique(x: nat, m: nat, size: nat, n: nat, size2: nat)
    requires IsCompact(x, m, size) && IsCompact(x, n, size2)
    ensures m == n && size == size2
  {
    if x > 0 {
      SizeMonotone(x, m, size, x, n, size2);
      SizeMonotone(x, n, size2, x, m, size);
      Monotone(x, m, size, x, n, size2);
      Monotone(x, n, size2, x, m, size);
    }
  }

  /** Decoding the compact form of a number gives at most the number, short of it by at most one part in
      2^15, and with the same compact form again. */
  lemma RoundTrip(x: nat, m: nat, size: nat)
    requires IsCompact(x, m, size)
    ensures var t := Expand(m, size);
            t <= x && (x - t) * Pow2(15) <= x && IsCompact(t, m, size)
  {
    hide Pow2;
    if x == 0 {
      ExpandSmall(0, 0);
      IsDiv(0, 0, Pow2(24), 0);
    } else if size >= 3 {
      RoundTripLarge(x, m, size);
    } else {
      RoundTripSmall(x, m, size);
    }
  }

  lemma RoundTripLarge(x: nat, m: nat, size: nat)
    requires x > 0 && size >= 3 && IsCompact(x, m, size)
    ensures var t := Expand(m, size);
            t <= x && (x - t) * Pow2(15) <= x && IsCompact(t, m, size)
  {
    hide Pow2, Expand;
    var t, p, q := Expand(m, size), Pow2(8 * (size - 3)), Pow2(24);
    ExpandLarge(m, size);
    ExpandLarge(m + 1, size);
    Scale(m, p);
    FitsIff(x, q, t);
    FitsIff(x, q, t + p);
    MulMono(Pow2(15), m, p);
    MulMono(x - t, p, Pow2(15));
    MulMono(1, m, p);
    Scale(m, Pow2(8 * size));
  }

  lemma RoundTripSmall(x: nat, m: nat, size: nat)
    requires x > 0 && size < 3 && IsCompact(x, m, size)
    ensures Expand(m, size) == x
  {
    hide Pow2, Expand;
    var p, r := Pow2(8 * size), Pow2(8 * (3 - size));
    Pow2Add(8 * (3 - size), 8 * size);
    Regroup(x, r, p);
    FitsIff(x * r, p, m);
    FitsIff(x * r, p, m + 1);
    ExpandSmall(m, size);
    IsDiv(x, 0, r, m);
  }

  /** Encoding and decoding a target in place. */
  method Requantize(u: Uint) returns (compact: nat, again: nat)
    requires u.Valid()
    modifies u.pn
    ensures u.Valid() && u.Val() <= old(u.Val()) && (old(u.Val()) - u.Val()) * Pow2(15) <= old(u.Val())
    ensures IsCompact(old(u.Val()), Mantissa(compact), Size(compact)) && again == compact
  {
    hide Pow2, Num, Weight, Expand, IsCompact;
    ghost var x := u.Val();
    compact := GetCompact(u, false);
    RoundTrip(x, Mantissa(compact), Size(compact));
    var negative, overflow := SetCompact(u, compact);
    again := GetCompact(u, false);
    CompactUnique(u.Val(), Mantissa(compact), Size(compact), Mantissa(again), Size(again));
    SameCode(compact, again);
  }

  lemma SameCode(a: nat, b: nat)
    requires a < BASE && b < BASE && Mantissa(a) == Mantissa(b) && Size(a) == Size(b) && Sign(a) == Sign(b)
    ensures a == b
  {
    assert a == a % MANTISSA_LIMIT + (a / MANTISSA_LIMIT % 2) * MANTISSA_LIMIT + a / 0x100_0000 * 0x100_0000;
    assert b == b % MANTISSA_LIMIT + (b / MANTISSA_LIMIT % 2) * MANTISSA_LIMIT + b / 0x100_0000 * 0x100_0000;
  }

  // ---------------------------------------------------------------- the work of a block

  /** No compact form decodes to the largest number, so one can be added to a target. */
  lemma TargetBelowTop(m: nat, size: nat)
    requires m < MANTISSA_LIMIT
    ensures Expand(m, size) + 1 != MODULUS
  {
    hide Pow2, Expand;
    Pow2Is();
    NextPow(255);
    if size <= 3 {
      ExpandSmall(m, size);
      var r := Pow2(8 * (3 - size));
      DivMod(m, r);
      MulMono(1, r, m / r);
      Pow2Order(24, 255);
    } else {
      ExpandLarge(m, size);
      NextPow(8 * (size - 3) - 1);
      Swap(m, Pow2(8 * (size - 3) - 1));
    }
  }

  /** The expected number of hashes for a target: floor(2^256 / (target + 1)) if the target is neither
      negative, nor too large, nor zero; otherwise zero. */
  method GetBlockProof(bits: nat) returns (proof: Uint)
    requires bits < BASE
    ensures fresh(proof) && fresh(proof.pn) && proof.Valid()
    ensures var t := Expand(Mantissa(bits), Size(bits));
            proof.Val() == if Sign(bits) || t >= MODULUS || t == 0 then 0 else MODULUS / (t + 1)
  {
    hide Pow2, Num, Weight, Expand;
    var target := new Uint(0);
    var negative, overflow := SetCompact(target, bits);
    var zero := target.EqualTo(0);
    if negative || overflow || zero {
      proof := new Uint(0);
      return;
    }
    ghost var t := target.Val();
    TargetBelowTop(Mantissa(bits), Size(bits));
    proof := target.Not();
    var next := new Uint.Copy(target);
    var one := new Uint(1);
    next.Add(one);
    IsMod(t + 1, 0, MODULUS, t + 1);
    var ok := proof.Div(next);
    WorkIs(t, MODULUS);
    proof.Add(one);
    IsMod((MODULUS - 1 - t) / (t + 1) + 1, 0, MODULUS, (MODULUS - 1 - t) / (t + 1) + 1);
  }

  lemma WorkIs(t: nat, m: nat)
    requires 0 < t && t + 1 < m
    ensures (m - 1 - t) / (t + 1) + 1 == m / (t + 1) < m
  {
    var q := (m - 1 - t) / (t + 1);
    DivMod(m - 1 - t, t + 1);
    Scale(q, t + 1);
    IsDiv(q + 1, (m - 1 - t) % (t + 1), t + 1, m);
    MulMono(2, t + 1, q + 1);
  }
}
