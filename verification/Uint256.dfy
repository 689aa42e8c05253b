/** The 256-bit unsigned integer: eight limbs updated in place. */
module Uint256 {
  import opened Limbs
  import opened Nonlinear

  const WIDTH := 8

  ghost const MODULUS: nat := Weight(WIDTH)

  /** A step of schoolbook addition: the low half stays, the high half is carried. */
  lemma Carry(n: nat, i: nat)
    ensures n % BASE * Weight(i) + n / BASE * Weight(i + 1) == n * Weight(i)
  {
    WeightNext(i);
    CarrySplit(n % BASE, n / BASE, Weight(i));
    assert n == n % BASE + n / BASE * BASE;
  }

  lemma CarrySplit(lo: int, hi: int, w: int)
    ensures lo * w + hi * (BASE * w) == (lo + hi * BASE) * w
  {
    Regroup(hi, BASE, w);
    Distribute(lo, hi * BASE, w);
  }

  class Uint {
    const pn: array<nat>

    ghost predicate Valid()
      reads this, pn
    {
      pn.Length == WIDTH && IsLimbs(pn[..])
    }

    ghost function Val(): (v: nat)
      requires Valid()
      reads this, pn
      ensures v < MODULUS
    {
      NumBound(pn[..]);
      Num(pn[..])
    }

    constructor (low: nat)
      requires low < BASE * BASE
      ensures Valid() && fresh(pn) && Val() == low
    {
      pn := new nat[WIDTH](i => if i == 0 then low % BASE else if i == 1 then low / BASE else 0);
      new;
      LowNum(pn[..], low);
    }

    constructor Copy(b: Uint)
      requires b.Valid()
      ensures Valid() && fresh(pn) && pn[..] == b.pn[..]
    {
      pn := new nat[WIDTH];
      new;
      forall k | 0 <= k < WIDTH {
        pn[k] := b.pn[k];
      }
    }

    /** Adds modulo 2^256; the carry out of the top limb is dropped. */
    method Add(b: Uint)
      requires Valid() && b.Valid() && (b == this || b.pn != pn)
      modifies pn
      ensures Valid() && Val() == (old(Val()) + old(b.Val())) % MODULUS
    {
      hide Num, Weight;
      ghost var x := pn[..];
      ghost var y := b.pn[..];
      var carry: nat := 0;
      var i := 0;
      NumEmpty(x);
      NumEmpty(y);
      NumEmpty(pn[..]);
      while i < WIDTH
        invariant 0 <= i <= WIDTH && Valid() && carry <= 1
        invariant pn[i..] == x[i..] && b.pn[i..] == y[i..]
        invariant Num(pn[..][..i]) + carry * Weight(i) == Num(x[..i]) + Num(y[..i])
      {
        assert pn[i] == x[i] && b.pn[i] == y[i];
        var n := carry + pn[i] + b.pn[i];
        assert n < BASE * BASE;
        ghost var was := pn[..];
        pn[i] := n % BASE;
        AddStep(was, pn[..], x, y, i, carry, n);
        carry := n / BASE;
        i := i + 1;
      }
      assert pn[..][..WIDTH] == pn[..] && x[..WIDTH] == x && y[..WIDTH] == y;
      IsMod(Val(), carry, MODULUS, Num(x) + Num(y));
    }

    /** Adds one; the wrap of a limb carries into the next. */
    method Increment()
      requires Valid()
      modifies pn
      ensures Valid() && Val() == (old(Val()) + 1) % MODULUS
    {
      hide Num, Weight;
      ghost var x := pn[..];
      var i := 0;
      var more := true;
      FirstWeight();
      while i < WIDTH && more
        invariant 0 <= i <= WIDTH && Valid()
        invariant Num(pn[..]) + (if more then Weight(i) else 0) == Num(x) + 1
        decreases WIDTH - i, more
      {
        var v: nat := (pn[i] + 1) % BASE;
        NumUpdate(pn[..], i, v);
        WeightNext(i);
        WrapUp(pn[i], Weight(i));
        ghost var was := pn[..];
        pn[i] := v;
        assert pn[..] == was[i := v];
        if v == 0 { i := i + 1; } else { more := false; }
      }
      IsMod(Val(), if more then 1 else 0, MODULUS, Num(x) + 1);
    }

    method Decrement()
      requires Valid()
      modifies pn
      ensures Valid() && Val() == (old(Val()) - 1) % MODULUS
    {
      hide Num, Weight;
      ghost var x := pn[..];
      var i := 0;
      var more := true;
      FirstWeight();
      while i < WIDTH && more
        invariant 0 <= i <= WIDTH && Valid()
        invariant Num(pn[..]) - (if more then Weight(i) else 0) == Num(x) - 1
        decreases WIDTH - i, more
      {
        var v: nat := (pn[i] - 1) % BASE;
        NumUpdate(pn[..], i, v);
        WeightNext(i);
        WrapDown(pn[i], Weight(i));
        ghost var was := pn[..];
        pn[i] := v;
        assert pn[..] == was[i := v];
        if v == BASE - 1 { i := i + 1; } else { more := false; }
      }
      IsMod(Val(), if more then -1 else 0, MODULUS, Num(x) - 1);
    }

    /** The bitwise complement. */
    method Not() returns (r: Uint)
      requires Valid()
      ensures fresh(r) && fresh(r.pn) && r.Valid() && r.Val() == MODULUS - 1 - Val()
    {
      hide Num, Weight;
      r := new Uint(0);
      ghost var x := pn[..];
      var i := 0;
      FirstWeight();
      NumEmpty(x);
      NumEmpty(r.pn[..]);
      while i < WIDTH
        invariant 0 <= i <= WIDTH && r.Valid() && pn[..] == x
        invariant Num(r.pn[..][..i]) + Num(x[..i]) + 1 == Weight(i)
      {
        ghost var was := r.pn[..];
        r.pn[i] := BASE - 1 - pn[i];
        assert r.pn[..][..i] == was[..i];
        NumNext(r.pn[..], i);
        NumNext(x, i);
        WeightNext(i);
        Distribute(r.pn[i], x[i], Weight(i));
        Scale(BASE - 1, Weight(i));
        i := i + 1;
      }
      assert r.pn[..][..WIDTH] == r.pn[..] && x[..WIDTH] == x;
    }

    /** The negation modulo 2^256. */
    method Neg() returns (r: Uint)
      requires Valid()
      ensures fresh(r) && fresh(r.pn) && r.Valid() && r.Val() == (MODULUS - Val()) % MODULUS
    {
      r := Not();
      r.Increment();
    }

    method Sub(b: Uint)
      requires Valid() && b.Valid() && (b == this || b.pn != pn)
      modifies pn
      ensures Valid() && Val() == (old(Val()) - old(b.Val())) % MODULUS
    {
      hide Num, Weight;
      ghost var x, y, m := Val(), b.Val(), MODULUS;
      var n := b.Neg();
      assert n.Val() == (m - y) % m;
      Add(n);
      assert Val() == (x + (m - y) % m) % m;
      SubMod(x, y, m);
    }

    /** Multiplies one limb and adds a carry, in 64 bits. */
    method ScaleLimb(k: nat, b: nat, carry: nat) returns (next: nat)
      requires Valid() && k < WIDTH && b < BASE && carry < BASE
      modifies pn
      ensures Valid() && next < BASE
      ensures var n := carry + b * old(pn[k]);
              n < BASE * BASE && pn[..] == old(pn[..])[k := n % BASE] && next == n / BASE
    {
      MulFits(b, pn[k], 0, carry);
      var n := carry + b * pn[k];
      pn[k] := n % BASE;
      next := n / BASE;
    }

    /** Multiplies by one limb; every intermediate sum fits 64 bits. */
    method MulLimb(b: nat)
      requires Valid() && b < BASE
      modifies pn
      ensures Valid() && Val() == (old(Val()) * b) % MODULUS
    {
      hide Num, Weight;
      ghost var x := pn[..];
      var carry: nat := 0;
      var i := 0;
      NumEmpty(x);
      NumEmpty(pn[..]);
      while i < WIDTH
        invariant 0 <= i <= WIDTH && Valid() && carry < BASE && pn[i..] == x[i..]
        invariant Num(pn[..][..i]) + carry * Weight(i) == b * Num(x[..i])
      {
        assert pn[i] == x[i];
        LimbStep(pn[..], x, i, b, carry);
        carry := ScaleLimb(i, b, carry);
        i := i + 1;
      }
      assert pn[..][..WIDTH] == pn[..] && x[..WIDTH] == x;
      IsMod(Val(), carry, MODULUS, Num(x) * b);
    }

    method Assign(b: Uint)
      requires Valid() && b.Valid() && (b == this || b.pn != pn)
      modifies pn
      ensures Valid() && pn[..] == old(b.pn[..])
    {
      forall k | 0 <= k < WIDTH {
        pn[k] := b.pn[k];
      }
    }

    /** Adds a product of two limbs and a carry to one limb, in 64 bits. */
    method AddProduct(k: nat, p: nat, q: nat, carry: nat) returns (next: nat)
      requires Valid() && k < WIDTH && p < BASE && q < BASE && carry < BASE
      modifies pn
      ensures Valid() && next < BASE
      ensures var n := carry + old(pn[k]) + p * q;
              n < BASE * BASE && pn[..] == old(pn[..])[k := n % BASE] && next == n / BASE
    {
      MulFits(p, q, pn[k], carry);
      var n := carry + pn[k] + p * q;
      pn[k] := n % BASE;
      next := n / BASE;
    }

    /** One row of a multiplication: adds this number times the limb `p` to `a`, from limb `j` on. */
    method AddRow(a: Uint, p: nat, j: nat) returns (ghost out: nat)
      requires Valid() && a.Valid() && a.pn != pn && p < BASE && j < WIDTH
      modifies a.pn
      ensures a.Valid() && pn[..] == old(pn[..])
      ensures Num(a.pn[..]) + out * MODULUS == old(Num(a.pn[..])) + p * Weight(j) * Num(pn[..][..WIDTH - j])
    {
      hide Num, Weight;
      ghost var y := pn[..];
      ghost var before := Num(a.pn[..]);
      var carry: nat := 0;
      var i := 0;
      NumEmpty(y);
      while i + j < WIDTH
        invariant 0 <= i <= WIDTH - j && a.Valid() && carry < BASE && pn[..] == y
        invariant Num(a.pn[..]) + carry * Weight(i + j) == before + p * Weight(j) * Num(y[..i])
      {
        MulStep(a.pn[..], y, p, i, j, carry, before);
        carry := a.AddProduct(i + j, p, pn[i], carry);
        i := i + 1;
      }
      out := carry;
    }

    /** Schoolbook multiplication, keeping the low eight limbs; every intermediate sum fits 64 bits. */
    method Mul(b: Uint)
      requires Valid() && b.Valid() && (b == this || b.pn != pn)
      modifies pn
      ensures Valid() && Val() == (old(Val()) * old(b.Val())) % MODULUS
    {
      hide Num, Weight;
      ghost var x := pn[..];
      ghost var y := b.pn[..];
      var a := new Uint(0);
      var j := 0;
      ghost var q: nat := 0;
      NumEmpty(x);
      while j < WIDTH
        invariant 0 <= j <= WIDTH && a.Valid() && fresh(a.pn) && pn[..] == x && b.pn[..] == y
        invariant Num(a.pn[..]) + q * MODULUS == Num(x[..j]) * Num(y)
        modifies a.pn
      {
        ghost var before := Num(a.pn[..]);
        ghost var carry := b.AddRow(a, pn[j], j);
        MulRow(x, y, j, before, Num(a.pn[..]), carry, q);
        q := q + carry + x[j] * Num(y[WIDTH - j..]);
        j := j + 1;
      }
      assert x[..WIDTH] == x;
      IsMod(a.Val(), q, MODULUS, Num(x) * Num(y));
      Assign(a);
    }

    /** Three-way comparison, from the top limb down. */
    method CompareTo(b: Uint) returns (r: int)
      requires Valid() && b.Valid()
      ensures r == if Val() < b.Val() then -1 else if Val() > b.Val() then 1 else 0
    {
      var i := WIDTH - 1;
      while i >= 0
        invariant -1 <= i < WIDTH && pn[..][i + 1..] == b.pn[..][i + 1..]
      {
        if pn[i] < b.pn[i] {
          NumLess(pn[..], b.pn[..], i);
          return -1;
        }
        if pn[i] > b.pn[i] {
          NumLess(b.pn[..], pn[..], i);
          return 1;
        }
        assert pn[..][i..] == [pn[i]] + pn[..][i + 1..] && b.pn[..][i..] == [b.pn[i]] + b.pn[..][i + 1..];
        i := i - 1;
      }
      assert pn[..][0..] == pn[..] && b.pn[..][0..] == b.pn[..];
      r := 0;
    }

    /** The position of the highest bit set plus one, or zero. */
    method Bits() returns (n: nat)
      requires Valid()
      ensures n <= 32 * WIDTH && Val() < Pow2(n) && (n > 0 ==> Pow2(n - 1) <= Val())
    {
      hide Num, Pow2;
      Pow2Is();
      var pos := WIDTH - 1;
      while pos >= 0
        invariant -1 <= pos < WIDTH && forall k :: pos < k < WIDTH ==> pn[k] == 0
      {
        if pn[pos] != 0 {
          var nbits := 31;
          while nbits > 0
            invariant 0 <= nbits <= 31 && pn[pos] < Pow2(nbits + 1)
          {
            if IsBitSet(pn[pos], nbits) {
              HighBit(pn[pos], nbits);
              TopBits(pn[..], pos, nbits);
              return 32 * pos + nbits + 1;
            }
            HighBit(pn[pos], nbits);
            nbits := nbits - 1;
          }
          TopBits(pn[..], pos, 0);
          return 32 * pos + 1;
        }
        pos := pos - 1;
      }
      NumZero(pn[..]);
      n := 0;
    }

    method Clear()
      requires Valid()
      modifies pn
      ensures Valid() && (forall m :: 0 <= m < WIDTH ==> pn[m] == 0) && Val() == 0
    {
      forall m | 0 <= m < WIDTH {
        pn[m] := 0;
      }
      NumZero(pn[..]);
    }

    /** Spreads one limb over two places of the result of a left shift. */
    method PlaceLeft(x: nat, i: nat, k: nat, s: nat)
      requires Valid() && x < BASE && s < 32
      requires (i + k + 1 < WIDTH ==> pn[i + k + 1] == 0) && (i + k < WIDTH ==> pn[i + k] < Pow2(s))
      modifies pn
      ensures Valid() && pn[..] == PlacedLeft(old(pn[..]), x, i, k, s)
    {
      hide Num, Weight, Pow2, Or;
      ShiftParts(x, s);
      if i + k + 1 < WIDTH && s != 0 {
        OrZero(x / Pow2(32 - s));
        pn[i + k + 1] := Or(pn[i + k + 1], x / Pow2(32 - s));
      }
      if i + k < WIDTH {
        OrDisjoint(pn[i + k], x % Pow2(32 - s), s);
        pn[i + k] := Or(pn[i + k], x * Pow2(s) % BASE);
      }
    }

    /** Spreads one limb over two places of the result of a right shift. */
    method PlaceRight(x: nat, i: nat, k: nat, s: nat)
      requires Valid() && x < BASE && s < 32 && i < WIDTH
      requires (i > k ==> pn[i - k - 1] < Pow2(32 - s)) && (i >= k ==> pn[i - k] == 0)
      modifies pn
      ensures Valid() && pn[..] == PlacedRight(old(pn[..]), x, i, k, s)
    {
      hide Num, Weight, Pow2, Or;
      ShiftParts(x, 32 - s);
      ShiftDown(x, s);
      if i - k - 1 >= 0 && s != 0 {
        OrDisjoint(pn[i - k - 1], x % Pow2(s), 32 - s);
        pn[i - k - 1] := Or(pn[i - k - 1], x * Pow2(32 - s) % BASE);
      }
      if i - k >= 0 {
        OrZero(x / Pow2(s));
        pn[i - k] := Or(pn[i - k], x / Pow2(s));
      }
      NoShift(x);
    }

    /** Shifts left, dropping what leaves at the top. */
    method ShiftLeft(shift: nat)
      requires Valid()
      modifies pn
      ensures Valid() && Val() == (old(Val()) * Pow2(shift)) % MODULUS
    {
      hide Num, Weight, Pow2, Or;
      var a := new Uint.Copy(this);
      ghost var x := a.pn[..];
      Clear();
      var k := shift / 32;
      var s := shift % 32;
      var i := 0;
      ghost var q: nat := 0;
      NumEmpty(x);
      while i < WIDTH
        invariant 0 <= i <= WIDTH && Valid() && a.pn[..] == x && a.pn != pn
        invariant forall m :: i + k < m < WIDTH ==> pn[m] == 0
        invariant i + k < WIDTH ==> pn[i + k] < Pow2(s)
        invariant Num(pn[..]) + q * MODULUS == Num(x[..i]) * (Pow2(s) * Weight(k))
      {
        q := ShiftLeftStep(pn[..], x, i, k, s, q);
        ShiftParts(x[i], s);
        PlaceLeft(a.pn[i], i, k, s);
        i := i + 1;
      }
      assert x[..WIDTH] == x;
      Pow2Add(s, 32 * k);
      WeightIs(k);
      IsMod(Val(), q, MODULUS, Num(x) * Pow2(shift));
    }

    /** Shifts right, dropping what leaves at the bottom. */
    method ShiftRight(shift: nat)
      requires Valid()
      modifies pn
      ensures Valid() && Val() == old(Val()) / Pow2(shift)
    {
      hide Num, Weight, Pow2, Or;
      var a := new Uint.Copy(this);
      ghost var x := a.pn[..];
      Clear();
      var k := shift / 32;
      var s := shift % 32;
      var i := 0;
      ghost var rem: nat := 0;
      NumEmpty(x);
      FirstWeight();
      while i < WIDTH
        invariant 0 <= i <= WIDTH && Valid() && a.pn[..] == x && a.pn != pn
        invariant forall m :: 0 <= m < WIDTH && i - k <= m ==> pn[m] == 0
        invariant 0 <= i - k - 1 ==> pn[i - k - 1] < Pow2(32 - s)
        invariant Num(pn[..]) * (Pow2(s) * Weight(k)) + rem == Num(x[..i])
        invariant rem < if i <= k then Weight(i) else Pow2(s) * Weight(k)
      {
        rem := ShiftRightStep(pn[..], x, i, k, s, rem);
        ShiftDown(x[i], s);
        PlaceRight(a.pn[i], i, k, s);
        i := i + 1;
      }
      assert x[..WIDTH] == x;
      Pow2Add(s, 32 * k);
      WeightIs(k);
      RemSmall(rem, k, s, Num(x), Val());
    }

    /** Sets one bit that was clear, with every lower bit of its limb. */
    method SetBit(shift: nat, ghost h: nat)
      requires Valid() && shift < 32 * WIDTH && pn[shift / 32] == h * Pow2(shift % 32 + 1)
      modifies pn
      ensures Valid() && Val() == old(Val()) + Pow2(shift)
      ensures pn[shift / 32] == (2 * h + 1) * Pow2(shift % 32)
      ensures forall m :: 0 <= m < WIDTH && m != shift / 32 ==> pn[m] == old(pn[m])
    {
      hide Num, Weight, Pow2, Or;
      var w, s := shift / 32, shift % 32;
      ghost var was := pn[..];
      BitOfLimb(h, s);
      pn[w] := Or(pn[w], Pow2(s));
      assert pn[..] == was[w := pn[w]];
      NumUpdate(was, w, pn[w]);
      Pow2Add(s, 32 * w);
      WeightIs(w);
    }

    /** One round of a division: subtracts the shifted divisor if it fits and sets the bit of the quotient. */
    method DivStep(num: Uint, div: Uint, shift: nat, ghost x: nat, ghost y: nat, ghost h: nat) returns (ghost h2: nat)
      requires Valid() && num.Valid() && div.Valid() && num.pn != pn && div.pn != pn && num.pn != div.pn
      requires shift < 32 * WIDTH && Val() * y + num.Val() == x
      requires num.Val() < y * Pow2(shift + 1) && div.Val() == y * Pow2(shift)
      requires pn[shift / 32] == h * Pow2(shift % 32 + 1)
      modifies pn, num.pn, div.pn
      ensures Valid() && num.Valid() && div.Valid() && Val() * y + num.Val() == x
      ensures num.Val() < y * Pow2(shift) && div.Val() == y * Pow2(shift) / Pow2(1)
      ensures pn[shift / 32] == h2 * Pow2(shift % 32)
      ensures forall m :: 0 <= m < WIDTH && m != shift / 32 ==> pn[m] == old(pn[m])
    {
      hide Num, Weight, Pow2, Or;
      var r := num.CompareTo(div);
      Double(y, shift);
      if r >= 0 {
        IsMod(num.Val() - div.Val(), 0, MODULUS, num.Val() - div.Val());
        SubtractRound(Val(), y, Pow2(shift), num.Val(), x);
        num.Sub(div);
        SetBit(shift, h);
        h2 := 2 * h + 1;
      } else {
        Swap(h, Pow2(shift % 32));
        NextPow(shift % 32);
        Regroup(2, h, Pow2(shift % 32));
        h2 := 2 * h;
      }
      div.ShiftRight(1);
    }

    /** All rounds of a division, from the highest bit of the quotient down. */
    method DivRounds(num: Uint, div: Uint, top: nat, ghost x: nat, ghost y: nat)
      requires Valid() && num.Valid() && div.Valid() && num.pn != pn && div.pn != pn && num.pn != div.pn
      requires top < 32 * WIDTH && num.Val() == x && x < y * Pow2(top + 1) && div.Val() == y * Pow2(top)
      requires Val() == 0 && forall m :: 0 <= m < WIDTH ==> pn[m] == 0
      modifies pn, num.pn, div.pn
      ensures Valid() && num.Valid() && Val() * y + num.Val() == x && num.Val() < y
    {
      hide Num, Weight, Pow2, Or;
      ghost var h := 0;
      var shift: int := top;
      Pow2Is();
      while shift >= 0
        invariant -1 <= shift < 32 * WIDTH && Valid() && num.Valid() && div.Valid()
        invariant Val() * y + num.Val() == x && num.Val() < y * Pow2(shift + 1)
        invariant shift >= 0 ==> div.Val() == y * Pow2(shift)
        invariant shift >= 0 ==> pn[shift / 32] == h * Pow2(shift % 32 + 1)
        invariant forall m :: 0 <= m < WIDTH && 32 * m + 31 < shift ==> pn[m] == 0
      {
        h := DivStep(num, div, shift, x, y, h);
        HalfBack(y, shift);
        if shift % 32 == 0 { h := 0; }
        shift := shift - 1;
      }
    }

    /** Shift-and-subtract division. Dividing by zero fails; otherwise the quotient is the floor. */
    method Div(b: Uint) returns (ok: bool)
      requires Valid() && b.Valid() && (b == this || b.pn != pn)
      modifies pn
      ensures Valid() && (ok <==> old(b.Val()) != 0)
      ensures ok ==> Val() == old(Val()) / old(b.Val())
    {
      hide Num, Weight, Pow2, Or;
      var div := new Uint.Copy(b);
      var num := new Uint.Copy(this);
      ghost var x, y := num.Val(), div.Val();
      Clear();
      var numBits := num.Bits();
      var divBits := div.Bits();
      Pow2Is();
      if divBits == 0 {
        return false;
      }
      if divBits > numBits {
        Pow2Order(numBits, divBits - 1);
        IsDiv(0, x, y, x);
        return true;
      }
      var shift := numBits - divBits;
      Aligned(x, y, numBits, divBits);
      NonNegative(y, Pow2(shift));
      div.ShiftLeft(shift);
      IsMod(y * Pow2(shift), 0, MODULUS, y * Pow2(shift));
      DivRounds(num, div, shift, x, y);
      IsDiv(Val(), num.Val(), y, x);
      ok := true;
    }

    method AssignLow(v: nat)
      requires Valid() && v < BASE * BASE
      modifies pn
      ensures Valid() && Val() == v
    {
      hide Num, Weight;
      Clear();
      pn[0] := v % BASE;
      pn[1] := v / BASE;
      LowNum(pn[..], v);
    }

    /** The lowest 64 bits. */
    method GetLow64() returns (v: nat)
      requires Valid()
      ensures v == Val() % (BASE * BASE)
    {
      hide Num, Weight, Pow2, Or;
      Pow2Is();
      OrDisjoint(pn[0], pn[1], 32);
      v := Or(pn[0], pn[1] * BASE);
      LowTwo(pn[..]);
    }

    method EqualTo(v: nat) returns (r: bool)
      requires Valid() && v < BASE * BASE
      ensures r <==> Val() == v
    {
      hide Num, Weight;
      LowTwo(pn[..]);
      var i := WIDTH - 1;
      while i >= 2
        invariant 1 <= i < WIDTH && forall k :: i < k < WIDTH ==> pn[k] == 0
      {
        if pn[i] != 0 {
          HighLimb(pn[..], i);
          return false;
        }
        i := i - 1;
      }
      LowNum(pn[..], pn[0] + pn[1] * BASE);
      r := pn[1] == v / BASE && pn[0] == v % BASE;
    }
  }

  lemma NumEmpty(s: seq<nat>)
    ensures Num(s[..0]) == 0
  {
  }

  lemma LowNum(s: seq<nat>, low: nat)
    requires |s| == WIDTH && low < BASE * BASE && s[0] == low % BASE && s[1] == low / BASE
    requires forall k :: 2 <= k < WIDTH ==> s[k] == 0
    ensures Num(s) == low
  {
    hide Num, Weight;
    NumSplit(s, 2);
    NumZero(s[2..]);
    NumNext(s, 0);
    NumNext(s, 1);
    FirstWeight();
    WeightNext(0);
    NumEmpty(s);
  }

  lemma AddStep(was: seq<nat>, now: seq<nat>, x: seq<nat>, y: seq<nat>, i: nat, carry: nat, n: nat)
    requires |was| == |now| == |x| == |y| == WIDTH && i < WIDTH && now == was[i := n % BASE]
    requires n == carry + x[i] + y[i]
    requires Num(was[..i]) + carry * Weight(i) == Num(x[..i]) + Num(y[..i])
    ensures Num(now[..i + 1]) + n / BASE * Weight(i + 1) == Num(x[..i + 1]) + Num(y[..i + 1])
  {
    hide Num, Weight;
    NumNext(now, i);
    NumNext(x, i);
    NumNext(y, i);
    assert now[..i] == was[..i];
    Carry(n, i);
    Distribute(carry + x[i], y[i], Weight(i));
    Distribute(carry, x[i], Weight(i));
  }

  lemma FirstWeight()
    ensures Weight(0) == 1
  {
  }

  /** Adding one to a limb adds its weight, or carries. */
  lemma WrapUp(x: nat, w: int)
    requires x < BASE
    ensures ((x + 1) % BASE - x) * w == if x == BASE - 1 then w - BASE * w else w
  {
    if x == BASE - 1 {
      assert (x + 1) % BASE - x == 1 - BASE;
      Minus(1, BASE, w);
    } else {
      assert (x + 1) % BASE - x == 1;
    }
  }

  lemma WrapDown(x: nat, w: int)
    requires x < BASE
    ensures ((x - 1) % BASE - x) * w == if x == 0 then BASE * w - w else -w
  {
    if x == 0 {
      assert (x - 1) % BASE - x == BASE - 1;
      Minus(BASE, 1, w);
    } else {
      assert (x - 1) % BASE - x == -1;
      Minus(0, 1, w);
    }
  }

  lemma SubMod(x: nat, y: nat, m: nat)
    requires y < m
    ensures (x + (m - y) % m) % m == (x - y) % m
  {
    if y == 0 {
      IsMod(0, 1, m, m);
    } else {
      IsMod(m - y, 0, m, m - y);
      DivMod(x - y, m);
      Distribute((x - y) / m, 1, m);
      IsMod((x - y) % m, (x - y) / m + 1, m, x + (m - y));
    }
  }

  /** A product of limbs plus two limbs fits in 64 bits. */
  lemma MulFits(a: nat, b: nat, c: nat, d: nat)
    requires a < BASE && b < BASE && c < BASE && d < BASE
    ensures d + c + a * b < BASE * BASE && (d + c + a * b) / BASE < BASE
  {
    MulMono(a, BASE - 1, b);
    assert a * b <= (BASE - 1) * b <= (BASE - 1) * (BASE - 1);
  }

  lemma LimbStep(was: seq<nat>, x: seq<nat>, i: nat, b: nat, carry: nat)
    requires |was| == |x| == WIDTH && i < WIDTH && Num(was[..i]) + carry * Weight(i) == b * Num(x[..i])
    ensures var n := carry + b * x[i];
            Num(was[i := n % BASE][..i + 1]) + n / BASE * Weight(i + 1) == b * Num(x[..i + 1])
  {
    hide Num, Weight;
    var n := carry + b * x[i];
    var now := was[i := n % BASE];
    assert now[..i] == was[..i];
    NumNext(now, i);
    NumNext(x, i);
    Carry(n, i);
    Distribute(carry, b * x[i], Weight(i));
    Spread(b, Num(x[..i]), x[i], Weight(i));
    Regroup(x[i], b, Weight(i));
  }

  lemma MulStep(was: seq<nat>, y: seq<nat>, p: nat, i: nat, j: nat, carry: nat, before: nat)
    requires |was| == |y| == WIDTH && i + j < WIDTH
    requires Num(was) + carry * Weight(i + j) == before + p * Weight(j) * Num(y[..i])
    ensures var n := carry + was[i + j] + p * y[i];
            Num(was[i + j := n % BASE]) + n / BASE * Weight(i + j + 1) == before + p * Weight(j) * Num(y[..i + 1])
  {
    hide Num, Weight;
    var k := i + j;
    var w := Weight(k);
    var n := carry + was[k] + p * y[i];
    NumUpdate(was, k, n % BASE);
    Minus(n % BASE, was[k], w);
    Carry(n, k);
    Distribute(carry + was[k], p * y[i], w);
    Distribute(carry, was[k], w);
    NumNext(y, i);
    WeightAdd(j, i);
    RowTerm(p, Weight(j), Num(y[..i]), y[i], Weight(i));
  }

  lemma RowTerm(p: int, wj: int, num: int, yi: int, wi: int)
    ensures p * wj * (num + yi * wi) == p * wj * num + p * yi * (wj * wi)
  {
    Spread(p * wj, num, yi, wi);
    Regroup(p, wj, wi);
    Regroup(yi, p, wj * wi);
    assert yi * p == p * yi;
  }

  lemma MulRow(x: seq<nat>, y: seq<nat>, j: nat, before: nat, after: nat, carry: nat, q: nat)
    requires |x| == |y| == WIDTH && j < WIDTH && before + q * MODULUS == Num(x[..j]) * Num(y)
    requires after + carry * Weight(WIDTH) == before + x[j] * Weight(j) * Num(y[..WIDTH - j])
    ensures after + (q + carry + x[j] * Num(y[WIDTH - j..])) * MODULUS == Num(x[..j + 1]) * Num(y)
  {
    hide Num, Weight;
    var hi := Num(y[WIDTH - j..]);
    NumNext(x, j);
    NumSplit(y, WIDTH - j);
    WeightAdd(j, WIDTH - j);
    RowTerm(x[j], Weight(j), Num(y[..WIDTH - j]), hi, Weight(WIDTH - j));
    assert Weight(WIDTH - j) * hi == hi * Weight(WIDTH - j);
    Distribute(Num(x[..j]), x[j] * Weight(j), Num(y));
    Distribute(q + carry, x[j] * hi, MODULUS);
    Distribute(q, carry, MODULUS);
  }

  lemma NumLess(s: seq<nat>, t: seq<nat>, i: nat)
    requires |s| == |t| && i < |s| && IsLimbs(s) && s[i + 1..] == t[i + 1..] && s[i] < t[i]
    ensures Num(s) < Num(t)
  {
    hide Num, Weight;
    NumSplit(s, i + 1);
    NumSplit(t, i + 1);
    NumNext(s, i);
    NumNext(t, i);
    NumBound(s[..i]);
    MulMono(s[i] + 1, t[i], Weight(i));
    Scale(s[i], Weight(i));
  }

  predicate IsBitSet(x: nat, n: nat) {
    x / Pow2(n) % 2 == 1
  }

  lemma HighBit(x: nat, n: nat)
    requires x < Pow2(n + 1)
    ensures IsBitSet(x, n) <==> x >= Pow2(n)
  {
    var p := Pow2(n);
    if x < p { IsDiv(0, x, p, x); } else { IsDiv(1, x - p, p, x); }
  }

  lemma TopBits(s: seq<nat>, pos: nat, n: nat)
    requires |s| == WIDTH && IsLimbs(s) && pos < WIDTH && n < 32 && Pow2(n) <= s[pos] < Pow2(n + 1)
    requires forall k :: pos < k < WIDTH ==> s[k] == 0
    ensures Pow2(32 * pos + n) <= Num(s) < Pow2(32 * pos + n + 1)
  {
    hide Num, Pow2;
    NumSplit(s, pos + 1);
    NumZero(s[pos + 1..]);
    NumNext(s, pos);
    NumBound(s[..pos]);
    Pow2Add(32 * pos, n);
    Pow2Add(32 * pos, n + 1);
    TopRange(Num(s[..pos]), s[pos], Weight(pos), Pow2(n), Pow2(n + 1));
    assert Weight(pos + 1) * 0 == 0;
  }

  lemma TopRange(low: nat, x: nat, w: nat, p: nat, p2: nat)
    requires low < w && p <= x < p2
    ensures w * p <= low + x * w < w * p2
  {
    MulMono(p, x, w);
    MulMono(x + 1, p2, w);
    Scale(x, w);
  }

  // ---------------------------------------------------------------- bits

  /** Bitwise or. */
  function Or(x: nat, y: nat): nat
    decreases x + y
  {
    if x == 0 && y == 0 then 0 else (if x % 2 == 1 || y % 2 == 1 then 1 else 0) + 2 * Or(x / 2, y / 2)
  }

  lemma {:induction false} OrZero(y: nat)
    ensures Or(0, y) == y
  {
    if y > 0 { OrZero(y / 2); }
  }

  /** Bits that do not overlap add up. */
  lemma {:induction false} OrDisjoint(x: nat, h: nat, s: nat)
    requires x < Pow2(s)
    ensures Or(x, h * Pow2(s)) == x + h * Pow2(s)
  {
    if s == 0 {
      OrZero(h);
    } else {
      OrDisjoint(x / 2, h, s - 1);
      Swap(h, Pow2(s - 1));
    }
  }

  lemma WeightIs(k: nat)
    ensures Weight(k) == Pow2(32 * k)
  {
  }

  lemma HalvesOfLimb(s: nat)
    requires s <= 32
    ensures Pow2(s) * Pow2(32 - s) == BASE
  {
    hide Pow2;
    Pow2Is();
    Pow2Add(s, 32 - s);
  }

  /** What a left shift makes of one limb: the part that stays is a multiple of the shift, the part that
      leaves is below it. */
  lemma ShiftParts(x: nat, s: nat)
    requires x < BASE && s <= 32
    ensures x * Pow2(s) % BASE == x % Pow2(32 - s) * Pow2(s)
    ensures x * Pow2(s) == x * Pow2(s) % BASE + x / Pow2(32 - s) * BASE
    ensures x / Pow2(32 - s) < Pow2(s) && x * Pow2(s) % BASE + Pow2(s) <= BASE
    ensures s == 0 ==> x / Pow2(32 - s) == 0
  {
    hide Pow2;
    Pow2Is();
    HalvesOfLimb(s);
    var q, r := Pow2(s), Pow2(32 - s);
    DivMod(x, r);
    Distribute(x % r, x / r * r, q);
    Regroup(x / r, r, q);
    MulMono(x % r + 1, r, q);
    Scale(x % r, q);
    NonNegative(x % r, q);
    IsMod(x % r * q, x / r, BASE, x * q);
    if x / r >= q { MulMono(q, x / r, r); }
  }

  /** What a right shift keeps of one limb. */
  lemma ShiftDown(x: nat, s: nat)
    requires x < BASE && s <= 32
    ensures x / Pow2(s) < Pow2(32 - s)
  {
    ShiftParts(x, 32 - s);
  }

  /** A limb increased, if it is there. */
  ghost function Put(limbs: seq<nat>, m: nat, v: nat): (r: seq<nat>)
    ensures |r| == |limbs|
  {
    if m < |limbs| then limbs[m := limbs[m] + v] else limbs
  }

  /** What a shift drops at the top is a multiple of the modulus. */
  ghost function Dropped(m: nat, v: nat): nat {
    if m < WIDTH then 0 else v * Weight(m - WIDTH)
  }

  lemma PutNum(limbs: seq<nat>, m: nat, v: nat)
    requires |limbs| == WIDTH
    ensures Num(Put(limbs, m, v)) + Dropped(m, v) * MODULUS == Num(limbs) + v * Weight(m)
  {
    hide Num, Weight;
    if m < WIDTH {
      NumUpdate(limbs, m, limbs[m] + v);
    } else {
      WeightAdd(m - WIDTH, WIDTH);
      Regroup(v, Weight(m - WIDTH), MODULUS);
    }
  }

  ghost function PlacedLeft(was: seq<nat>, x: nat, i: nat, k: nat, s: nat): (r: seq<nat>)
    requires s < 32
    ensures |r| == |was|
  {
    Put(Put(was, i + k + 1, Quotient(x, Pow2(32 - s))), i + k, x * Pow2(s) % BASE)
  }

  ghost function PlacedRight(was: seq<nat>, x: nat, i: nat, k: nat, s: nat): (r: seq<nat>)
    requires s < 32
    ensures |r| == |was|
  {
    var mid := if i > k then Put(was, i - k - 1, x % Pow2(s) * Pow2(32 - s)) else was;
    if i >= k then Put(mid, i - k, Quotient(x, Pow2(s))) else mid
  }

  lemma NoShift(x: nat)
    ensures x % Pow2(0) * Pow2(32) == 0
  {
  }

  lemma ShiftLeftStep(was: seq<nat>, x: seq<nat>, i: nat, k: nat, s: nat, q: nat) returns (r: nat)
    requires |was| == |x| == WIDTH && i < WIDTH && s < 32 && IsLimbs(x)
    requires Num(was) + q * MODULUS == Num(x[..i]) * (Pow2(s) * Weight(k))
    ensures Num(PlacedLeft(was, x[i], i, k, s)) + r * MODULUS == Num(x[..i + 1]) * (Pow2(s) * Weight(k))
  {
    hide Num, Weight, Pow2, Put, Dropped;
    var hi := x[i] / Pow2(32 - s);
    var lo := x[i] * Pow2(s) % BASE;
    ShiftParts(x[i], s);
    PutNum(was, i + k + 1, hi);
    PutNum(Put(was, i + k + 1, hi), i + k, lo);
    r := q + Dropped(i + k + 1, hi) + Dropped(i + k, lo);
    Distribute(q + Dropped(i + k + 1, hi), Dropped(i + k, lo), MODULUS);
    Distribute(q, Dropped(i + k + 1, hi), MODULUS);
    WeightNext(i + k);
    CarrySplit(lo, hi, Weight(i + k));
    NumNext(x, i);
    WeightAdd(i, k);
    Distribute(Num(x[..i]), x[i] * Weight(i), Pow2(s) * Weight(k));
    Interchange(x[i], Weight(i), Pow2(s), Weight(k));
  }

  lemma Interchange(a: int, b: int, c: int, d: int)
    ensures (a * b) * (c * d) == (a * c) * (b * d)
  {
    Regroup(a, b, c * d);
    Regroup(a, c, b * d);
    Regroup(b, c, d);
    Regroup(c, b, d);
  }

  /** Below its lowest kept limb a right shift drops everything, in it the low bits, above it nothing. */
  lemma ShiftRightStep(was: seq<nat>, x: seq<nat>, i: nat, k: nat, s: nat, rem: nat) returns (r: nat)
    requires |was| == |x| == WIDTH && i < WIDTH && s < 32 && IsLimbs(x)
    requires Num(was) * (Pow2(s) * Weight(k)) + rem == Num(x[..i])
    requires rem < if i <= k then Weight(i) else Pow2(s) * Weight(k)
    ensures Num(PlacedRight(was, x[i], i, k, s)) * (Pow2(s) * Weight(k)) + r == Num(x[..i + 1])
    ensures r < if i + 1 <= k then Weight(i + 1) else Pow2(s) * Weight(k)
  {
    hide Num, Weight, Pow2, Put, Dropped;
    var d, l := x[i] / Pow2(s), x[i] % Pow2(s);
    DivMod(x[i], Pow2(s));
    NumNext(x, i);
    if i < k {
      NonNegative(x[i], Weight(i));
      r := rem + x[i] * Weight(i);
      WeightNext(i);
      TopLimb(x[i], Weight(i));
    } else if i == k {
      NonNegative(l, Weight(k));
      r := rem + l * Weight(k);
      FirstKept(was, PlacedRight(was, x[i], i, k, s), d, l, Pow2(s), Weight(k), rem);
    } else {
      r := rem;
      LaterKept(was, Put(was, i - k - 1, l * Pow2(32 - s)), PlacedRight(was, x[i], i, k, s), d, l, i, k, s);
    }
  }

  lemma FirstKept(was: seq<nat>, now: seq<nat>, d: nat, l: nat, q: nat, w: nat, rem: nat)
    requires |was| == WIDTH && now == Put(was, 0, d) && rem < w && l < q
    ensures Num(now) * (q * w) + l * w == Num(was) * (q * w) + (l + d * q) * w
    ensures rem + l * w < q * w
  {
    hide Num, Weight, Put;
    PutNum(was, 0, d);
    FirstWeight();
    Distribute(Num(was), d, q * w);
    Regroup(d, q, w);
    Distribute(l, d * q, w);
    MulMono(l + 1, q, w);
    Scale(l, w);
  }

  lemma LaterKept(was: seq<nat>, mid: seq<nat>, now: seq<nat>, d: nat, l: nat, i: nat, k: nat, s: nat)
    requires |was| == WIDTH && k < i < WIDTH && s < 32
    requires mid == Put(was, i - k - 1, l * Pow2(32 - s)) && now == Put(mid, i - k, d)
    ensures Num(now) * (Pow2(s) * Weight(k)) == Num(was) * (Pow2(s) * Weight(k)) + (l + d * Pow2(s)) * Weight(i)
  {
    hide Num, Weight, Pow2, Put;
    var q, r, w := Pow2(s), Pow2(32 - s), Weight(k);
    PutNum(was, i - k - 1, l * r);
    PutNum(mid, i - k, d);
    var low, high := (l * r) * Weight(i - k - 1), d * Weight(i - k);
    assert Num(now) == Num(was) + low + high;
    Distribute(Num(was) + low, high, q * w);
    Distribute(Num(was), low, q * w);
    LaterLow(l, i, k, s);
    Interchange(d, Weight(i - k), q, w);
    WeightAdd(i - k, k);
    Distribute(l, d * q, Weight(i));
  }

  lemma LaterLow(l: nat, i: nat, k: nat, s: nat)
    requires k < i && s < 32
    ensures ((l * Pow2(32 - s)) * Weight(i - k - 1)) * (Pow2(s) * Weight(k)) == l * Weight(i)
  {
    hide Weight, Pow2;
    Interchange(l * Pow2(32 - s), Weight(i - k - 1), Pow2(s), Weight(k));
    WeightAdd(i - k - 1, k);
    WeightNext(i - 1);
    HalvesOfLimb(s);
    Regroup(l, Pow2(32 - s), Pow2(s));
    assert (l * Pow2(32 - s)) * Pow2(s) == l * BASE;
    Regroup(l, BASE, Weight(i - 1));
  }

  lemma RemSmall(rem: nat, k: nat, s: nat, x: nat, v: nat)
    requires rem < if WIDTH <= k then Weight(WIDTH) else Pow2(s) * Weight(k)
    requires v * (Pow2(s) * Weight(k)) + rem == x
    ensures v == x / (Pow2(s) * Weight(k))
  {
    hide Weight, Pow2;
    if WIDTH <= k {
      WeightAdd(WIDTH, k - WIDTH);
      WeightIs(k - WIDTH);
      MulMono(1, Weight(k - WIDTH), Weight(WIDTH));
      MulMono(1, Pow2(s), Weight(k));
    }
    IsDiv(v, rem, Pow2(s) * Weight(k), x);
  }

  lemma {:induction false} OrSwap(x: nat, y: nat)
    ensures Or(x, y) == Or(y, x)
    decreases x + y
  {
    if x != 0 || y != 0 { OrSwap(x / 2, y / 2); }
  }

  lemma NextPow(n: nat)
    ensures Pow2(n + 1) == 2 * Pow2(n)
  {
  }

  /** Setting the bit just below the lowest one that may be set. */
  lemma BitOfLimb(h: nat, s: nat)
    requires s < 32 && h * Pow2(s + 1) < BASE
    ensures Or(h * Pow2(s + 1), Pow2(s)) == h * Pow2(s + 1) + Pow2(s) == (2 * h + 1) * Pow2(s) < BASE
  {
    hide Pow2, Or;
    NextPow(s);
    OrDisjoint(Pow2(s), h, s + 1);
    OrSwap(Pow2(s), h * Pow2(s + 1));
    HalvesOfLimb(s + 1);
    FitsAgain(h, Pow2(s + 1), Pow2(31 - s));
    OddMultiple(h, Pow2(s));
  }

  lemma FitsAgain(h: nat, p: nat, r: nat)
    requires h * p < p * r
    ensures h * p + p <= p * r
  {
    if h >= r { MulMono(r, h, p); assert false; }
    MulMono(h + 1, r, p);
    Scale(h, p);
  }

  lemma OddMultiple(h: nat, p: nat)
    ensures h * (2 * p) + p == (2 * h + 1) * p
  {
    Swap(h, p);
    Scale(2 * h, p);
    Regroup(2, h, p);
  }

  lemma SubtractRound(v: nat, y: nat, p: nat, n: nat, x: nat)
    requires v * y + n == x
    ensures (v + p) * y + (n - y * p) == x
  {
    Distribute(v, p, y);
  }

  lemma Pow2Order(m: nat, n: nat)
    requires m <= n
    ensures Pow2(m) <= Pow2(n)
  {
    if m < n { Pow2Less(m, n); }
  }

  /** Shifting the divisor so that the top bits align neither overflows nor falls short. */
  lemma Aligned(x: nat, y: nat, n: nat, d: nat)
    requires 0 < d <= n <= 32 * WIDTH && x < Pow2(n) && Pow2(d - 1) <= y < Pow2(d)
    ensures y * Pow2(n - d) < MODULUS && x < y * Pow2(n - d + 1)
  {
    hide Pow2;
    Pow2Add(d, n - d);
    Pow2Add(d - 1, n - d + 1);
    MulMono(y + 1, Pow2(d), Pow2(n - d));
    Scale(y, Pow2(n - d));
    MulMono(Pow2(d - 1), y, Pow2(n - d + 1));
    Pow2Order(n, 32 * WIDTH);
  }

  lemma Double(y: nat, shift: nat)
    ensures y * Pow2(shift + 1) == 2 * (y * Pow2(shift))
  {
    Swap(y, Pow2(shift));
  }

  lemma HalfBack(y: nat, shift: nat)
    ensures shift > 0 ==> y * Pow2(shift) / Pow2(1) == y * Pow2(shift - 1)
  {
    if shift > 0 { Swap(y, Pow2(shift - 1)); }
  }

  lemma LowTwo(s: seq<nat>)
    requires |s| == WIDTH && IsLimbs(s)
    ensures Num(s) % (BASE * BASE) == s[0] + s[1] * BASE
  {
    hide Num, Weight;
    NumSplit(s, 2);
    NumNext(s, 0);
    NumNext(s, 1);
    NumEmpty(s);
    FirstWeight();
    WeightNext(0);
    WeightNext(1);
    IsMod(s[0] + s[1] * BASE, Num(s[2..]), BASE * BASE, Num(s));
  }

  lemma HighLimb(s: seq<nat>, i: nat)
    requires |s| == WIDTH && 2 <= i < WIDTH && s[i] > 0
    ensures Num(s) >= BASE * BASE
  {
    hide Num, Weight;
    NumSplit(s, i + 1);
    NumNext(s, i);
    NonNegative(Weight(i + 1), Num(s[i + 1..]));
    FirstWeight();
    WeightNext(0);
    WeightNext(1);
    WeightAdd(2, i - 2);
    WeightIs(i - 2);
    MulMono(1, Weight(i - 2), Weight(2));
    MulMono(1, s[i], Weight(i));
  }
}
