/** Why the checksum finds errors: the generator has three consecutive powers of an element of order 1023 as its
    roots, so two words that differ in up to three places, less than 1023 apart, have different remainders. */
module Bch {
  import opened Bech32
  import opened Field
  import opened Options

  // ---------------------------------------------------------------- evaluating remainders

  /** The coefficient of a remainder at a power of x. */
  function Group(c: bv32, i: nat): bv32 {
    if i == 0 then c & 31
    else if i == 1 then (c >> 5) & 31
    else if i == 2 then (c >> 10) & 31
    else if i == 3 then (c >> 15) & 31
    else if i == 4 then (c >> 20) & 31
    else (c >> 25) & 31
  }

  lemma GroupLinear(a: bv32, b: bv32, i: nat)
    ensures Group(Add(a, b), i) == Add(Group(a, i), Group(b, i))
  {
    if i == 0 {
    } else if i == 1 {
    } else if i == 2 {
    } else if i == 3 {
    } else if i == 4 {
    } else {
    }
  }

  /** The value of the coefficients from the `i`-th on at an element. */
  function Value(r: bv32, c: bv32, i: nat): bv32
    decreases 6 - i
  {
    if i >= 6 then 0 else Add(Group(c, i), Product(r, Value(r, c, i + 1)))
  }

  lemma {:induction false} ValueLinear(r: bv32, a: bv32, b: bv32, i: nat)
    ensures Value(r, Add(a, b), i) == Add(Value(r, a, i), Value(r, b, i))
    decreases 6 - i
  {
    hide Add, Group, Product;
    if i >= 6 {
      AddZero(0);
    } else {
      ValueLinear(r, a, b, i + 1);
      GroupLinear(a, b, i);
      ProductLinear(r, Value(r, a, i + 1), Value(r, b, i + 1));
      Exchange(Group(a, i), Group(b, i), Product(r, Value(r, a, i + 1)), Product(r, Value(r, b, i + 1)));
    }
  }

  /** The power `n` of an element, times another. */
  function Times(r: bv32, n: nat, y: bv32): bv32 {
    if n == 0 then y else Product(r, Times(r, n - 1, y))
  }

  lemma {:induction false} TimesLinear(r: bv32, n: nat, a: bv32, b: bv32)
    ensures Times(r, n, Add(a, b)) == Add(Times(r, n, a), Times(r, n, b))
  {
    hide Add, Product;
    if n > 0 {
      TimesLinear(r, n - 1, a, b);
      ProductLinear(r, Times(r, n - 1, a), Times(r, n - 1, b));
    }
  }

  lemma {:induction false} TimesZero(r: bv32, n: nat)
    ensures Times(r, n, 0) == 0
  {
    hide Product;
    ProductZero(r);
    if n > 0 { TimesZero(r, n - 1); }
  }

  /** The bits of the leading coefficient, one at a time. */
  function Lead(c: bv32, bit: bv32): bv32 {
    Tap(c, bit, bit)
  }

  /** The element is a root of the generator: x^6 has the value of what it is reduced to. */
  ghost predicate IsRoot(r: bv32) {
    && Value(r, 0x3b6a57b2, 0) == Times(r, 6, 1) && Value(r, 0x26508e6d, 0) == Times(r, 6, 2)
    && Value(r, 0x1ea119fa, 0) == Times(r, 6, 4) && Value(r, 0x3d4233dd, 0) == Times(r, 6, 8)
    && Value(r, 0x2a1462b3, 0) == Times(r, 6, 16)
  }

  lemma {:induction false} ValueZero(r: bv32, i: nat)
    ensures Value(r, 0, i) == 0
    decreases 6 - i
  {
    hide Product;
    if i < 6 {
      ValueZero(r, i + 1);
      ProductZero(r);
    }
  }

  lemma TapValue(r: bv32, c: bv32, bit: bv32, k: bv32)
    requires Value(r, k, 0) == Times(r, 6, bit)
    ensures Value(r, Tap(c, bit, k), 0) == Times(r, 6, Lead(c, bit))
  {
    hide Value, Times, HasBit;
    ValueZero(r, 0);
    TimesZero(r, 6);
  }

  /** The reduction of the leading coefficient. */
  function Reduced(c: bv32): bv32 {
    Five(Tap(c, 1, 0x3b6a57b2), Tap(c, 2, 0x26508e6d), Tap(c, 4, 0x1ea119fa), Tap(c, 8, 0x3d4233dd),
         Tap(c, 16, 0x2a1462b3))
  }

  lemma FoldIs(c: bv32)
    ensures Fold(c) == Add(Shifted(c), Reduced(c))
  {
    hide Add, Tap, Shifted;
    var s, p, q, r := Shifted(c), Tap(c, 1, 0x3b6a57b2), Tap(c, 2, 0x26508e6d), Tap(c, 4, 0x1ea119fa);
    var t, u := Tap(c, 8, 0x3d4233dd), Tap(c, 16, 0x2a1462b3);
    Assoc(s, p, Add(q, r));
    Assoc(s, Add(p, Add(q, r)), Add(t, u));
    Assoc(p, q, r);
    Assoc(Add(p, Add(q, r)), t, u);
    Assoc(Add(p, q), r, t);
  }

  lemma ValueFive(r: bv32, a: bv32, b: bv32, c: bv32, d: bv32, e: bv32)
    ensures Value(r, Five(a, b, c, d, e), 0) ==
            Five(Value(r, a, 0), Value(r, b, 0), Value(r, c, 0), Value(r, d, 0), Value(r, e, 0))
  {
    hide Value, Add;
    ValueLinear(r, a, b, 0);
    ValueLinear(r, c, d, 0);
    ValueLinear(r, Add(a, b), Add(c, d), 0);
    ValueLinear(r, Add(Add(a, b), Add(c, d)), e, 0);
  }

  lemma TimesFive(r: bv32, n: nat, a: bv32, b: bv32, c: bv32, d: bv32, e: bv32)
    ensures Times(r, n, Five(a, b, c, d, e)) ==
            Five(Times(r, n, a), Times(r, n, b), Times(r, n, c), Times(r, n, d), Times(r, n, e))
  {
    hide Times, Add;
    TimesLinear(r, n, a, b);
    TimesLinear(r, n, c, d);
    TimesLinear(r, n, Add(a, b), Add(c, d));
    TimesLinear(r, n, Add(Add(a, b), Add(c, d)), e);
  }

  lemma LeadIs(c: bv32)
    requires c < 0x40000000
    ensures Five(Lead(c, 1), Lead(c, 2), Lead(c, 4), Lead(c, 8), Lead(c, 16)) == c >> 25
  {
  }

  lemma ReducedValue(r: bv32, c: bv32)
    requires IsRoot(r) && c < 0x40000000
    ensures Value(r, Reduced(c), 0) == Times(r, 6, c >> 25)
  {
    hide Value, Times, Five, Tap, Lead;
    TapValue(r, c, 1, 0x3b6a57b2);
    TapValue(r, c, 2, 0x26508e6d);
    TapValue(r, c, 4, 0x1ea119fa);
    TapValue(r, c, 8, 0x3d4233dd);
    TapValue(r, c, 16, 0x2a1462b3);
    ValueFive(r, Tap(c, 1, 0x3b6a57b2), Tap(c, 2, 0x26508e6d), Tap(c, 4, 0x1ea119fa), Tap(c, 8, 0x3d4233dd),
              Tap(c, 16, 0x2a1462b3));
    TimesFive(r, 6, Lead(c, 1), Lead(c, 2), Lead(c, 4), Lead(c, 8), Lead(c, 16));
    LeadIs(c);
  }

  lemma ShiftedGroup(c: bv32, i: nat)
    ensures Group(Shifted(c), 0) == 0 && Group(c & 0x1ffffff, 5) == 0
    ensures i < 5 ==> Group(Shifted(c), i + 1) == Group(c & 0x1ffffff, i)
  {
    if i == 0 {
    } else if i == 1 {
    } else if i == 2 {
    } else if i == 3 {
    } else {
    }
  }

  lemma {:induction false} ShiftedFrom(r: bv32, c: bv32, i: nat)
    requires i <= 5
    ensures Value(r, Shifted(c), i + 1) == Value(r, c & 0x1ffffff, i)
    decreases 5 - i
  {
    hide Group, Product, Shifted, Add;
    ShiftedGroup(c, i);
    if i == 5 {
      ProductZero(r);
      AddZero(0);
    } else {
      ShiftedFrom(r, c, i + 1);
    }
  }

  lemma ShiftedValue(r: bv32, c: bv32)
    ensures Value(r, Shifted(c), 0) == Product(r, Value(r, c & 0x1ffffff, 0))
  {
    hide Group, Product, Shifted, Add;
    ShiftedGroup(c, 0);
    ShiftedFrom(r, c, 0);
    AddZero(Product(r, Value(r, c & 0x1ffffff, 0)));
  }

  lemma TopGroup(t: bv32, i: nat)
    requires t < 32
    ensures Group(t << 25, if i < 5 then i else 5) == if i < 5 then 0 else t
  {
    if i == 0 {
    } else if i == 1 {
    } else if i == 2 {
    } else if i == 3 {
    } else if i == 4 {
    } else {
    }
  }

  lemma {:induction false} TopValue(r: bv32, t: bv32, i: nat)
    requires t < 32 && i <= 5
    ensures Value(r, t << 25, i) == Times(r, 5 - i, t)
    decreases 5 - i
  {
    hide Group, Product, Add;
    TopGroup(t, i);
    if i == 5 {
      ProductZero(r);
      AddZero(t);
    } else {
      TopValue(r, t, i + 1);
      AddZero(Times(r, 5 - i, t));
    }
  }

  lemma SplitTop(c: bv32)
    requires c < 0x40000000
    ensures c >> 25 < 32 && c == Add(c & 0x1ffffff, (c >> 25) << 25)
  {
  }

  /** A step by zero multiplies the value by the element. */
  lemma FoldValue(r: bv32, c: bv32)
    requires IsRoot(r) && c < 0x40000000
    ensures Value(r, Fold(c), 0) == Product(r, Value(r, c, 0))
  {
    hide Value, Product, Add, Fold, Shifted, Reduced, IsRoot;
    var low, top := c & 0x1ffffff, c >> 25;
    FoldIs(c);
    ValueLinear(r, Shifted(c), Reduced(c), 0);
    ShiftedValue(r, c);
    ReducedValue(r, c);
    SplitTop(c);
    ValueLinear(r, low, top << 25, 0);
    TopValue(r, top, 0);
    ProductLinear(r, Value(r, low, 0), Times(r, 5, top));
  }

  lemma SmallGroup(v: bv32, i: nat)
    requires v < 32
    ensures Group(v, i) == if i == 0 then v else 0
  {
    if i == 0 {
    } else if i == 1 {
    } else if i == 2 {
    } else if i == 3 {
    } else if i == 4 {
    } else {
    }
  }

  lemma {:induction false} SmallValue(r: bv32, v: bv32, i: nat)
    requires v < 32
    ensures Value(r, v, i) == if i == 0 then v else 0
    decreases 6 - i
  {
    hide Group, Product, Add;
    if i < 6 {
      SmallGroup(v, i);
      SmallValue(r, v, i + 1);
      ProductZero(r);
      AddZero(v);
      AddZero(0);
    }
  }

  lemma StepValue(r: bv32, c: bv32, v: bv32)
    requires IsRoot(r) && c < 0x40000000 && v < 32
    ensures Value(r, Step(c, v), 0) == Add(Product(r, Value(r, c, 0)), v)
  {
    hide Value, Product, Add, Fold, IsRoot;
    ValueLinear(r, Fold(c), v, 0);
    FoldValue(r, c);
    SmallValue(r, v, 0);
  }

  // ---------------------------------------------------------------- the three roots

  /** The power 997 of (e). The roots are this element and the two that follow it. */
  const ROOT: bv32 := 0x1bd

  function Horner(r: bv32, a: bv32, b: bv32, c: bv32, d: bv32, e: bv32, f: bv32): bv32 {
    Add(f, Product(r, Add(e, Product(r, Add(d, Product(r, Add(c, Product(r, Add(b, Product(r, a))))))))))
  }

  function Six(r: bv32, y: bv32): bv32 {
    Product(r, Product(r, Product(r, Product(r, Product(r, Product(r, y))))))
  }

  lemma Roots()
    ensures Raise(0, ROOT) == 0x1bd && Raise(1, ROOT) == 0x65 && Raise(2, ROOT) == 0x3d0
  {
    assert Raise(1, ROOT) == Next(Raise(0, ROOT));
    assert Next(0x1bd) == 0x65 && Next(0x65) == 0x3d0;
  }

  /** One step of the evaluation. */
  predicate Link(r: bv32, v: bv32, c: bv32, w: bv32) {
    Add(c, Product(r, v)) == w
  }

  lemma FirstLinks()
    ensures Link(0x1bd, 29, 22, 0x18f)
    ensures Link(0x1bd, 0x18f, 20, 0x1be)
    ensures Link(0x1bd, 0x1be, 21, 0x192)
    ensures Link(0x1bd, 0x192, 29, 0x2e)
    ensures Link(0x1bd, 0x2e, 18, 0x2f5)
  {
  }

  lemma FirstSix()
    ensures Product(0x1bd, 0x1) == 0x1bd
    ensures Product(0x1bd, 0x1bd) == 0x369
    ensures Product(0x1bd, 0x369) == 0x34f
    ensures Product(0x1bd, 0x34f) == 0x3d6
    ensures Product(0x1bd, 0x3d6) == 0x74
    ensures Product(0x1bd, 0x74) == 0x2f5
  {
  }

  lemma SecondLinks()
    ensures Link(0x65, 29, 22, 0x1c4)
    ensures Link(0x65, 0x1c4, 20, 0x396)
    ensures Link(0x65, 0x396, 21, 0x34c)
    ensures Link(0x65, 0x34c, 29, 0x176)
    ensures Link(0x65, 0x176, 18, 0x3da)
  {
  }

  lemma SecondSix()
    ensures Product(0x65, 0x1) == 0x65
    ensures Product(0x65, 0x65) == 0x88
    ensures Product(0x65, 0x88) == 0x373
    ensures Product(0x65, 0x373) == 0x3a3
    ensures Product(0x65, 0x3a3) == 0x25a
    ensures Product(0x65, 0x25a) == 0x3da
  {
  }

  lemma ThirdLinks()
    ensures Link(0x3d0, 29, 22, 0x2e3)
    ensures Link(0x3d0, 0x2e3, 20, 0x2e3)
    ensures Link(0x3d0, 0x2e3, 21, 0x2e2)
    ensures Link(0x3d0, 0x2e2, 29, 0x13a)
    ensures Link(0x3d0, 0x13a, 18, 0xa1)
  {
  }

  lemma ThirdSix()
    ensures Product(0x3d0, 0x1) == 0x3d0
    ensures Product(0x3d0, 0x3d0) == 0x159
    ensures Product(0x3d0, 0x159) == 0x2c6
    ensures Product(0x3d0, 0x2c6) == 0x51
    ensures Product(0x3d0, 0x51) == 0x42
    ensures Product(0x3d0, 0x42) == 0xa1
  {
  }

  /** The value of the first reduction at the roots, by its steps. */
  lemma GeneratorRoot(r: bv32, k: nat)
    requires (r, k) == (0x1bd, 0) || (r, k) == (0x65, 1) || (r, k) == (0x3d0, 2)
    ensures Horner(r, 29, 22, 20, 21, 29, 18) == Six(r, 1)
  {
    hide Add, Product;
    if k == 0 {
      FirstLinks();
      FirstSix();
    } else if k == 1 {
      SecondLinks();
      SecondSix();
    } else {
      ThirdLinks();
      ThirdSix();
    }
  }

  lemma ValueIs(r: bv32, c: bv32)
    ensures Value(r, c, 0) == Horner(r, Group(c, 5), Group(c, 4), Group(c, 3), Group(c, 2), Group(c, 1), Group(c, 0))
  {
    hide Product, Group, Add;
    ProductZero(r);
    assert Value(r, c, 6) == 0;
    assert Value(r, c, 5) == Group(c, 5) by { AddZero(Group(c, 5)); }
    assert Value(r, c, 3) == Add(Group(c, 3), Product(r, Add(Group(c, 4), Product(r, Group(c, 5)))));
    assert Value(r, c, 1) == Add(Group(c, 1), Product(r, Add(Group(c, 2), Product(r, Value(r, c, 3)))));
  }

  lemma TimesSix(r: bv32, y: bv32)
    ensures Times(r, 6, y) == Six(r, y)
  {
    hide Product;
    assert Times(r, 1, y) == Product(r, Times(r, 0, y));
    assert Times(r, 2, y) == Product(r, Times(r, 1, y));
    assert Times(r, 4, y) == Product(r, Product(r, Times(r, 2, y)));
  }

  lemma {:induction false} TimesNarrow(r: bv32, n: nat, y: bv32)
    requires r < 1024 && y < 1024
    ensures Times(r, n, y) < 1024
  {
    hide Product;
    if n > 0 { ProductNarrow(r, Times(r, n - 1, y)); }
  }

  lemma {:induction false} TimesTwice(r: bv32, n: nat, y: bv32)
    requires r < 1024 && y < 1024
    ensures Times(r, n, Twice(y)) == Twice(Times(r, n, y))
  {
    hide Product, Twice;
    if n > 0 {
      TimesTwice(r, n - 1, y);
      TimesNarrow(r, n - 1, y);
      ProductTwice(r, Times(r, n - 1, y));
    }
  }

  /** The coefficients of one remainder are twice those of the other. */
  predicate Doubles(c: bv32, d: bv32) {
    && Group(d, 0) == Twice(Group(c, 0)) && Group(d, 1) == Twice(Group(c, 1)) && Group(d, 2) == Twice(Group(c, 2))
    && Group(d, 3) == Twice(Group(c, 3)) && Group(d, 4) == Twice(Group(c, 4)) && Group(d, 5) == Twice(Group(c, 5))
  }

  lemma GroupNarrow(c: bv32, i: nat)
    ensures Group(c, i) < 1024
  {
  }

  lemma {:induction false} ValueNarrow(r: bv32, c: bv32, i: nat)
    requires r < 1024
    ensures Value(r, c, i) < 1024
    decreases 6 - i
  {
    hide Product, Group, Add;
    if i < 6 {
      ProductNarrow(r, Value(r, c, i + 1));
      GroupNarrow(c, i);
      Narrow(Group(c, i), Product(r, Value(r, c, i + 1)));
    }
  }

  lemma {:induction false} ValueTwice(r: bv32, c: bv32, d: bv32, i: nat)
    requires r < 1024 && Doubles(c, d)
    ensures Value(r, d, i) == Twice(Value(r, c, i))
    decreases 6 - i
  {
    hide Product, Twice, Group, Add;
    TwiceLinear(0, 0);
    if i < 6 {
      ValueTwice(r, c, d, i + 1);
      ValueNarrow(r, c, i + 1);
      ProductTwice(r, Value(r, c, i + 1));
      TwiceLinear(Group(c, i), Product(r, Value(r, c, i + 1)));
    }
  }

  lemma RootTwice(r: bv32, c: bv32, d: bv32, bit: bv32)
    requires r < 1024 && bit < 1024 && Doubles(c, d) && Value(r, c, 0) == Times(r, 6, bit)
    ensures Value(r, d, 0) == Times(r, 6, Twice(bit))
  {
    hide Value, Times, Twice, Doubles;
    ValueTwice(r, c, d, 0);
    TimesTwice(r, 6, bit);
  }

  lemma GeneratorDoubles()
    ensures Doubles(0x3b6a57b2, 0x26508e6d) && Doubles(0x26508e6d, 0x1ea119fa)
    ensures Doubles(0x1ea119fa, 0x3d4233dd) && Doubles(0x3d4233dd, 0x2a1462b3)
    ensures Twice(1) == 2 && Twice(2) == 4 && Twice(4) == 8 && Twice(8) == 16
  {
  }

  lemma GeneratorGroups()
    ensures Group(0x3b6a57b2, 5) == 29 && Group(0x3b6a57b2, 4) == 22 && Group(0x3b6a57b2, 3) == 20
    ensures Group(0x3b6a57b2, 2) == 21 && Group(0x3b6a57b2, 1) == 29 && Group(0x3b6a57b2, 0) == 18
  {
  }

  lemma RootFrom(r: bv32)
    requires r < 1024 && Horner(r, 29, 22, 20, 21, 29, 18) == Six(r, 1)
    ensures IsRoot(r)
  {
    hide Value, Times, Twice, Doubles, Group, Horner, Six;
    ValueIs(r, 0x3b6a57b2);
    TimesSix(r, 1);
    GeneratorGroups();
    GeneratorDoubles();
    RootTwice(r, 0x3b6a57b2, 0x26508e6d, 1);
    RootTwice(r, 0x26508e6d, 0x1ea119fa, 2);
    RootTwice(r, 0x1ea119fa, 0x3d4233dd, 4);
    RootTwice(r, 0x3d4233dd, 0x2a1462b3, 8);
  }

  /** The generator has three consecutive powers of (e) as roots. */
  lemma AreRoots(k: nat)
    requires k < 3
    ensures IsRoot(Raise(k, ROOT)) && Raise(k, ROOT) < 1024
  {
    hide Raise, Horner, Six, IsRoot;
    Roots();
    GeneratorRoot(Raise(k, ROOT), k);
    RootFrom(Raise(k, ROOT));
  }

  // ---------------------------------------------------------------- three errors

  lemma {:induction false} RootTimes(k: nat, n: nat, y: bv32)
    requires y < 1024
    ensures Times(Raise(k, ROOT), n, y) == Raise(k * n, Times(ROOT, n, y))
  {
    hide Product, Raise;
    if n == 0 {
      assert k * n == 0;
      RaiseNone(Times(ROOT, n, y));
    } else {
      RootTimes(k, n - 1, y);
      var t := Times(ROOT, n - 1, y);
      TimesNarrow(ROOT, n - 1, y);
      RaiseProduct(ROOT, k, Raise(k * (n - 1), t));
      ProductRaise(ROOT, k * (n - 1), t);
      RaiseAdd(k, k * (n - 1), Product(ROOT, t));
      assert k + k * (n - 1) == k * n;
    }
  }

  lemma RaiseNone(y: bv32)
    ensures Raise(0, y) == y
  {
  }

  lemma RootOnlyZero(y: bv32)
    requires y < 1024 && Product(ROOT, y) == 0
    ensures y == 0
  {
    hide Raise, Product;
    SmallPowers();
    RootInverse();
    RaiseIs(26, ROOT);
    RaiseProduct(ROOT, 26, y);
    RaiseZero(26, 0);
    ProductOne(y);
  }

  lemma RootInverse()
    ensures Product(0x164, ROOT) == 1
  {
  }

  lemma {:induction false} TimesOnlyZero(n: nat, y: bv32)
    requires y < 1024 && Times(ROOT, n, y) == 0
    ensures y == 0
  {
    hide Product;
    if n > 0 {
      TimesNarrow(ROOT, n - 1, y);
      RootOnlyZero(Times(ROOT, n - 1, y));
      TimesOnlyZero(n - 1, y);
    }
  }

  lemma Cancel(a: bv32, b: bv32, c: bv32, p: bv32, q: bv32)
    requires Add(Add(a, b), c) == 0 && Add(Add(p, q), c) == 0
    ensures Add(a, p) == Add(b, q)
  {
    hide Add;
    AddEqual(Add(a, b), c);
    AddEqual(Add(p, q), c);
    Exchange(a, b, p, q);
    AddEqual(Add(a, b), Add(p, q));
    AddEqual(Add(a, p), Add(b, q));
  }

  /** Two values and a constant that vanish at three consecutive powers vanish. */
  lemma Eliminate(n: nat, m: nat, a: bv32, b: bv32, c: bv32)
    requires 0 < m < n < 1023 && a < 1024 && b < 1024
    requires Add(Add(a, b), c) == 0 && Add(Add(Raise(n, a), Raise(m, b)), c) == 0
    requires Add(Add(Raise(2 * n, a), Raise(2 * m, b)), c) == 0
    ensures a == 0 && b == 0 && c == 0
  {
    hide Raise, Add;
    Cancel(a, b, c, Raise(n, a), Raise(m, b));
    Cancel(Raise(n, a), Raise(m, b), c, Raise(2 * n, a), Raise(2 * m, b));
    RaiseAdd(n, n, a);
    RaiseAdd(m, m, b);
    RaiseLinear(n, a, Raise(n, a));
    RaiseLinear(m, b, Raise(m, b));
    var u := Gap(n, a);
    assert Raise(n, u) == Raise(m, u);
    RaiseNarrow(n, a);
    RaiseNarrow(m, b);
    Narrow(a, Raise(n, a));
    SameRaise(n, m, u);
    AddEqual(a, Raise(n, a));
    AddEqual(b, Raise(m, b));
    FixedZero(n, a);
    FixedZero(m, b);
    AddZero(0);
    AddZero(c);
  }

  /** Zeros and then a value multiply what was there by a power of the root and add the value. */
  lemma {:induction false} Reach(r: bv32, c: bv32, z: seq<bv32>, v: bv32)
    requires IsRoot(r) && c < 0x40000000 && AllZero(z) && v < 32
    ensures Remainder(c, z + [v]) < 0x40000000
    ensures Value(r, Remainder(c, z + [v]), 0) == Add(Times(r, |z| + 1, Value(r, c, 0)), v)
  {
    hide IsRoot, Value, Product, Step, Remainder, Add;
    RemainderNext(c, z, v);
    TrailingZeros(c, z);
    StepBound(Remainder(c, z), v);
    StepValue(r, Remainder(c, z), v);
    if z == [] {
      RemainderNothing(c);
      assert Times(r, 1, Value(r, c, 0)) == Product(r, Times(r, 0, Value(r, c, 0)));
    } else {
      var n := |z| - 1;
      assert z == z[..n] + [0];
      Reach(r, c, z[..n], 0);
      AddZero(Times(r, n + 1, Value(r, c, 0)));
    }
  }

  /** A word with values at three places, the last one the end. */
  predicate IsWord(e: seq<bv32>, i: nat, j: nat) {
    && i < j < |e| - 1 && e[i] < 32 && e[j] < 32 && e[|e| - 1] < 32
    && forall k :: 0 <= k < |e| - 1 && k != i && k != j ==> e[k] == 0
  }

  lemma PairValue(r: bv32, x: seq<bv32>, a: bv32, y: seq<bv32>, b: bv32)
    requires IsRoot(r) && AllZero(x) && AllZero(y) && a < 32 && b < 32
    ensures Remainder(0, x + [a] + (y + [b])) < 0x40000000
    ensures Value(r, Remainder(0, x + [a] + (y + [b])), 0) == Add(Times(r, |y| + 1, a), b)
  {
    hide IsRoot, Value, Remainder, Add, Times, AllZero;
    ValueZero(r, 0);
    TimesZero(r, |x| + 1);
    AddZero(a);
    Reach(r, 0, x, a);
    Reach(r, Remainder(0, x + [a]), y, b);
    RemainderSplit(0, x + [a], y + [b]);
  }

  lemma PiecesValue(r: bv32, x: seq<bv32>, a: bv32, y: seq<bv32>, b: bv32, z: seq<bv32>, c: bv32)
    requires IsRoot(r) && AllZero(x) && AllZero(y) && AllZero(z) && a < 32 && b < 32 && c < 32
    ensures Value(r, Remainder(0, x + [a] + (y + [b]) + (z + [c])), 0) ==
            Add(Add(Times(r, |z| + |y| + 2, a), Times(r, |z| + 1, b)), c)
  {
    hide IsRoot, Value, Remainder, Add, Times, AllZero;
    var w := x + [a] + (y + [b]);
    PairValue(r, x, a, y, b);
    Reach(r, Remainder(0, w), z, c);
    TimesLinear(r, |z| + 1, Times(r, |y| + 1, a), b);
    TimesAdd(r, |z| + 1, |y| + 1, a);
    RemainderSplit(0, w, z + [c]);
  }

  lemma Pieces(e: seq<bv32>, i: nat, j: nat)
    requires i < j < |e| - 1
    ensures var n := |e| - 1;
            e == e[..i] + [e[i]] + (e[i + 1..j] + [e[j]]) + (e[j + 1..n] + [e[n]])
  {
  }

  lemma WordValue(r: bv32, e: seq<bv32>, i: nat, j: nat)
    requires IsRoot(r) && IsWord(e, i, j)
    ensures Value(r, Remainder(0, e), 0) ==
            Add(Add(Times(r, |e| - 1 - i, e[i]), Times(r, |e| - 1 - j, e[j])), e[|e| - 1])
  {
    hide IsRoot, Value, Remainder, Add, Times;
    var n := |e| - 1;
    Pieces(e, i, j);
    PiecesValue(r, e[..i], e[i], e[i + 1..j], e[j], e[j + 1..n], e[n]);
  }

  lemma {:induction false} TimesAdd(r: bv32, a: nat, b: nat, y: bv32)
    ensures Times(r, a + b, y) == Times(r, a, Times(r, b, y))
  {
    hide Product;
    if a > 0 { TimesAdd(r, a - 1, b, y); }
  }

  /** What the word says at one of the roots. */
  lemma WordAtRoot(e: seq<bv32>, i: nat, j: nat, k: nat)
    requires k < 3 && IsWord(e, i, j) && Remainder(0, e) == 0
    ensures var n := |e| - 1;
            Add(Add(Raise(k * (n - i), Times(ROOT, n - i, e[i])), Raise(k * (n - j), Times(ROOT, n - j, e[j]))),
                e[n]) == 0
  {
    hide IsRoot, Value, Remainder, Add, Times, Raise;
    var n := |e| - 1;
    AreRoots(k);
    WordValue(Raise(k, ROOT), e, i, j);
    ValueZero(Raise(k, ROOT), 0);
    RootTimes(k, n - i, e[i]);
    RootTimes(k, n - j, e[j]);
  }

  lemma WordZero(e: seq<bv32>, i: nat, j: nat)
    requires IsWord(e, i, j) && |e| - 1 - i < 1023 && Remainder(0, e) == 0
    ensures AllZero(e)
  {
    hide Remainder, Add, Times, Raise;
    var n := |e| - 1;
    var a, b := Times(ROOT, n - i, e[i]), Times(ROOT, n - j, e[j]);
    WordAtRoot(e, i, j, 0);
    WordAtRoot(e, i, j, 1);
    WordAtRoot(e, i, j, 2);
    RaiseNone(a);
    RaiseNone(b);
    TimesNarrow(ROOT, n - i, e[i]);
    TimesNarrow(ROOT, n - j, e[j]);
    Eliminate(n - i, n - j, a, b, e[n]);
    TimesOnlyZero(n - i, e[i]);
    TimesOnlyZero(n - j, e[j]);
  }

  // ---------------------------------------------------------------- detection

  /** Values at up to three places, less than 1023 apart, have remainder zero only if they are zero. */
  lemma ThreeZero(e: seq<bv32>, i: nat, j: nat, k: nat)
    requires i < j < k < |e| && k - i < 1023 && e[i] < 32 && e[j] < 32 && e[k] < 32
    requires forall p :: 0 <= p < |e| && p != i && p != j && p != k ==> e[p] == 0
    requires Remainder(0, e) == 0
    ensures AllZero(e)
  {
    hide Remainder, Step;
    var w, z := e[..k + 1], e[k + 1..];
    assert e == w + z;
    RemainderSplit(0, w, z);
    RemainderNext(0, e[..k], e[k]);
    assert w == e[..k] + [e[k]];
    StepBound(Remainder(0, e[..k]), e[k]);
    TrailingZeros(Remainder(0, w), z);
    WordZero(w, i, j);
    assert w[i] == 0 && w[j] == 0 && w[k] == 0;
  }

  /** Places that span less than 1023. */
  predicate Near(places: set<nat>) {
    forall p, q :: p in places && q in places ==> q - p < 1023
  }

  lemma Listed(places: set<nat>) returns (a: nat, b: nat, c: nat)
    requires 0 < |places| <= 3
    ensures places == {a, b, c}
  {
    a :| a in places;
    var rest := places - {a};
    b, c := a, a;
    if rest != {} {
      b :| b in rest;
      c := b;
      var last := rest - {b};
      if last != {} {
        c :| c in last;
        assert |last - {c}| == 0;
      }
    }
  }

  function Min(a: nat, b: nat): nat {
    if a <= b then a else b
  }

  function Max(a: nat, b: nat): nat {
    if a <= b then b else a
  }

  /** The first and the last of up to three places, and one between them that leaves none out. */
  lemma Ordered(places: set<nat>) returns (i: nat, j: nat, k: nat)
    requires 0 < |places| <= 3
    ensures i in places && k in places && i <= k && (i + 1 < k ==> i < j < k)
    ensures forall p :: p in places ==> p == i || p == k || (p == j && i < j < k)
  {
    var a, b, c := Listed(places);
    i, k := Min(a, Min(b, c)), Max(a, Max(b, c));
    j := if i < a < k then a else if i < b < k then b else if i < c < k then c else i + 1;
  }

  lemma PlacesZero(e: seq<bv32>, places: set<nat>)
    requires |places| <= 3 && Near(places) && Remainder(0, e) == 0
    requires forall p :: p in places ==> p < |e| && e[p] < 32
    requires forall p :: 0 <= p < |e| && p !in places ==> e[p] == 0
    ensures AllZero(e)
  {
    hide Remainder;
    if places != {} {
      var i, j, k := Ordered(places);
      if i + 1 < k {
        ThreeZero(e, i, j, k);
      } else {
        WindowZero(e, i, k + 1);
      }
    }
  }

  /** Two lists that differ in up to three places, less than 1023 apart, never have the same remainder. */
  lemma ErrorsDetected(s: seq<bv32>, t: seq<bv32>, places: set<nat>)
    requires |s| == |t| && |places| <= 3 && Near(places) && Remainder(1, s) == Remainder(1, t)
    requires forall p :: p in places ==> p < |s| && s[p] < 32 && t[p] < 32
    requires forall p :: 0 <= p < |s| && p !in places ==> s[p] == t[p]
    ensures s == t
  {
    hide Add, Xor, Remainder, Near;
    var e := Xor(s, t);
    forall p | 0 <= p < |s| ensures (e[p] == 0 <==> s[p] == t[p]) && (s[p] < 32 && t[p] < 32 ==> e[p] < 32) {
      XorAt(s, t, p);
    }
    Linear(1, 1, s, t);
    AddEqual(1, 1);
    AddEqual(Remainder(1, s), Remainder(1, t));
    PlacesZero(e, places);
  }

  /** The places where two lists differ. */
  function Errors(s: seq<bv32>, t: seq<bv32>): set<nat>
    requires |s| == |t|
  {
    set p: nat | p < |s| && s[p] != t[p]
  }

  /** Lists of up to 1023 values with the same remainder are the same or differ in at least four places. */
  lemma ListsApart(s: seq<bv32>, t: seq<bv32>)
    requires |s| == |t| <= 1023 && Remainder(1, s) == Remainder(1, t)
    requires forall p :: 0 <= p < |s| ==> s[p] == t[p] || (s[p] < 32 && t[p] < 32)
    ensures s == t || |Errors(s, t)| >= 4
  {
    hide Remainder;
    if |Errors(s, t)| <= 3 { ErrorsDetected(s, t, Errors(s, t)); }
  }

  function Later(places: set<nat>, n: nat): set<nat> {
    set p | p in places :: n + p
  }

  lemma {:induction false} LaterSize(places: set<nat>, n: nat)
    ensures |Later(places, n)| == |places|
  {
    if places != {} {
      var q :| q in places;
      LaterSize(places - {q}, n);
      forall p | p in Later(places, n) ensures p in Later(places - {q}, n) + {n + q} {
        assert p == n + q || p - n in places - {q};
      }
      assert Later(places, n) == Later(places - {q}, n) + {n + q};
    }
  }

  lemma LaterErrors(x: seq<bv32>, v: seq<bv32>, w: seq<bv32>, p: nat)
    requires |v| == |w| && p < |x + v|
    ensures (x + v)[p] == (x + w)[p] || p in Later(Errors(v, w), |x|)
  {
    if p >= |x| && v[p - |x|] != w[p - |x|] {
      assert p - |x| in Errors(v, w);
    }
  }

  /** With the same prefix and encoding, accepted lists of up to 1023 values differ in no place or in at least four. */
  lemma FourApart(hrp: string, v: seq<bv32>, w: seq<bv32>, e: Encoding)
    requires |v| == |w| <= 1023 && IsData(v) && IsData(w)
    requires VerifyChecksum(hrp, v) == Some(e) && VerifyChecksum(hrp, w) == Some(e)
    ensures v == w || |Errors(v, w)| >= 4
  {
    hide Remainder, ExpandHrp;
    if |Errors(v, w)| <= 3 {
      var x := ExpandHrp(hrp);
      var places := Later(Errors(v, w), |x|);
      LaterSize(Errors(v, w), |x|);
      forall p | 0 <= p < |x + v| && p !in places ensures (x + v)[p] == (x + w)[p] {
        LaterErrors(x, v, w, p);
      }
      ErrorsDetected(x + v, x + w, places);
      assert v == (x + v)[|x|..] && w == (x + w)[|x|..];
    }
  }
}
