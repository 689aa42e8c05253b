/** The field of 1024 elements in which the checksum's generator has its roots. An element is a ten-bit word: the low
    five bits are the coordinate of 1 and the high five that of (e), a root of x^2 + 9x + 23 over the field of 32
    elements. The order of (e) is 1023. */
module Field {
  import opened Bech32

  // ---------------------------------------------------------------- multiplication

  /** Multiplication by the element 2 of the field of 32 elements, in which 2^5 is 9. */
  function Twice(y: bv32): bv32 {
    var top := (y & 0x210) >> 4;
    ((y & 0x1ef) << 1) ^ top ^ (top << 3)
  }

  function Nine(h: bv32): bv32 {
    Add(h, Twice(Twice(Twice(h))))
  }

  function TwentyThree(h: bv32): bv32 {
    Add(Add(h, Twice(h)), Add(Twice(Twice(h)), Twice(Twice(Twice(Twice(h))))))
  }

  /** Multiplication by (e), whose square is 9(e) + 23. */
  function Next(y: bv32): bv32 {
    Add(Up(Add(Low(y), Nine(High(y)))), TwentyThree(High(y)))
  }

  function Low(y: bv32): bv32 {
    y & 31
  }

  function High(y: bv32): bv32 {
    y >> 5
  }

  function Up(y: bv32): bv32 {
    y << 5
  }

  predicate Hit(y: bv32, bit: bv32) {
    y & bit != 0
  }

  function When(hit: bool, k: bv32): bv32 {
    if hit then k else 0
  }

  function Five(a: bv32, b: bv32, c: bv32, d: bv32, e: bv32): bv32 {
    Add(Add(Add(a, b), Add(c, d)), e)
  }

  /** The product with the low coordinate of an element. */
  function Part(a: bv32, y: bv32): bv32 {
    var b := Twice(a);
    var c := Twice(b);
    var d := Twice(c);
    Five(When(Hit(y, 1), a), When(Hit(y, 2), b), When(Hit(y, 4), c), When(Hit(y, 8), d), When(Hit(y, 16), Twice(d)))
  }

  function Product(a: bv32, y: bv32): bv32 {
    Add(Part(a, y), Next(Part(a, High(y))))
  }

  /** A power of (e), times an element. */
  function Raise(n: nat, y: bv32): bv32 {
    if n == 0 then y else Next(Raise(n - 1, y))
  }

  // ---------------------------------------------------------------- linearity

  lemma TwiceLinear(a: bv32, b: bv32)
    ensures Twice(Add(a, b)) == Add(Twice(a), Twice(b)) && Twice(0) == 0
  {
  }

  lemma NineLinear(a: bv32, b: bv32)
    ensures Nine(Add(a, b)) == Add(Nine(a), Nine(b))
  {
    hide Twice, Add;
    TwiceLinear(a, b);
    TwiceLinear(Twice(a), Twice(b));
    TwiceLinear(Twice(Twice(a)), Twice(Twice(b)));
    Exchange(a, b, Twice(Twice(Twice(a))), Twice(Twice(Twice(b))));
  }

  lemma TwentyThreeLinear(a: bv32, b: bv32)
    ensures TwentyThree(Add(a, b)) == Add(TwentyThree(a), TwentyThree(b))
  {
    hide Twice, Add;
    var a2, b2 := Twice(a), Twice(b);
    var a4, b4 := Twice(a2), Twice(b2);
    var a16, b16 := Twice(Twice(a4)), Twice(Twice(b4));
    TwiceLinear(a, b);
    TwiceLinear(a2, b2);
    TwiceLinear(a4, b4);
    TwiceLinear(Twice(a4), Twice(b4));
    Exchange(a, b, a2, b2);
    Exchange(a4, b4, a16, b16);
    Exchange(Add(a, a2), Add(b, b2), Add(a4, a16), Add(b4, b16));
  }

  lemma LowLinear(a: bv32, b: bv32)
    ensures Low(Add(a, b)) == Add(Low(a), Low(b))
  {
  }

  lemma HighLinear(a: bv32, b: bv32)
    ensures High(Add(a, b)) == Add(High(a), High(b))
  {
  }

  lemma UpLinear(a: bv32, b: bv32)
    ensures Up(Add(a, b)) == Add(Up(a), Up(b))
  {
  }

  lemma NextLinear(a: bv32, b: bv32)
    ensures Next(Add(a, b)) == Add(Next(a), Next(b))
  {
    hide Nine, TwentyThree, Add, High, Low, Up;
    var p, q := Add(Low(a), Nine(High(a))), Add(Low(b), Nine(High(b)));
    LowLinear(a, b);
    HighLinear(a, b);
    NineLinear(High(a), High(b));
    TwentyThreeLinear(High(a), High(b));
    Exchange(Low(a), Low(b), Nine(High(a)), Nine(High(b)));
    UpLinear(p, q);
    Exchange(Up(p), Up(q), TwentyThree(High(a)), TwentyThree(High(b)));
  }

  lemma NextZero()
    ensures Next(0) == 0
  {
  }

  lemma HitLinear(a: bv32, b: bv32, bit: bv32)
    requires bit == 1 || bit == 2 || bit == 4 || bit == 8 || bit == 16
    ensures Hit(Add(a, b), bit) <==> (Hit(a, bit) != Hit(b, bit))
  {
    if bit == 1 {
    } else if bit == 2 {
    } else if bit == 4 {
    } else if bit == 8 {
    } else {
    }
  }

  lemma WhenLinear(x: bv32, y: bv32, bit: bv32, k: bv32)
    requires bit == 1 || bit == 2 || bit == 4 || bit == 8 || bit == 16
    ensures When(Hit(Add(x, y), bit), k) == Add(When(Hit(x, bit), k), When(Hit(y, bit), k))
  {
    hide Hit, Add;
    HitLinear(x, y, bit);
    AddZero(k);
    AddZero(0);
  }

  lemma FiveAdd(a: bv32, b: bv32, c: bv32, d: bv32, e: bv32, p: bv32, q: bv32, r: bv32, s: bv32, t: bv32)
    ensures Five(Add(a, p), Add(b, q), Add(c, r), Add(d, s), Add(e, t)) == Add(Five(a, b, c, d, e), Five(p, q, r, s, t))
  {
    hide Add;
    Exchange(a, p, b, q);
    Exchange(c, r, d, s);
    Exchange(Add(a, b), Add(p, q), Add(c, d), Add(r, s));
    Exchange(Add(Add(a, b), Add(c, d)), Add(Add(p, q), Add(r, s)), e, t);
  }

  lemma PartLinear(a: bv32, x: bv32, y: bv32)
    ensures Part(a, Add(x, y)) == Add(Part(a, x), Part(a, y))
  {
    hide Add, When, Hit, Five, Twice;
    var b := Twice(a);
    var c := Twice(b);
    var d := Twice(c);
    var e := Twice(d);
    WhenLinear(x, y, 1, a);
    WhenLinear(x, y, 2, b);
    WhenLinear(x, y, 4, c);
    WhenLinear(x, y, 8, d);
    WhenLinear(x, y, 16, e);
    FiveAdd(When(Hit(x, 1), a), When(Hit(x, 2), b), When(Hit(x, 4), c), When(Hit(x, 8), d), When(Hit(x, 16), e),
            When(Hit(y, 1), a), When(Hit(y, 2), b), When(Hit(y, 4), c), When(Hit(y, 8), d), When(Hit(y, 16), e));
  }

  lemma ProductLinear(a: bv32, x: bv32, y: bv32)
    ensures Product(a, Add(x, y)) == Add(Product(a, x), Product(a, y))
  {
    hide Add, Part, Next, High;
    HighLinear(x, y);
    PartLinear(a, x, y);
    PartLinear(a, High(x), High(y));
    NextLinear(Part(a, High(x)), Part(a, High(y)));
    Exchange(Part(a, x), Part(a, y), Next(Part(a, High(x))), Next(Part(a, High(y))));
  }

  lemma WhenAdd(hit: bool, j: bv32, k: bv32)
    ensures When(hit, Add(j, k)) == Add(When(hit, j), When(hit, k))
  {
    hide Add;
    AddZero(0);
  }

  lemma PartLeft(a: bv32, p: bv32, y: bv32)
    ensures Part(Add(a, p), y) == Add(Part(a, y), Part(p, y))
  {
    hide Add, When, Hit, Five, Twice;
    var b, q := Twice(a), Twice(p);
    var c, r := Twice(b), Twice(q);
    var d, s := Twice(c), Twice(r);
    var e, t := Twice(d), Twice(s);
    TwiceLinear(a, p);
    TwiceLinear(b, q);
    TwiceLinear(c, r);
    TwiceLinear(d, s);
    WhenAdd(Hit(y, 1), a, p);
    WhenAdd(Hit(y, 2), b, q);
    WhenAdd(Hit(y, 4), c, r);
    WhenAdd(Hit(y, 8), d, s);
    WhenAdd(Hit(y, 16), e, t);
    FiveAdd(When(Hit(y, 1), a), When(Hit(y, 2), b), When(Hit(y, 4), c), When(Hit(y, 8), d), When(Hit(y, 16), e),
            When(Hit(y, 1), p), When(Hit(y, 2), q), When(Hit(y, 4), r), When(Hit(y, 8), s), When(Hit(y, 16), t));
  }

  lemma ProductLeft(a: bv32, b: bv32, y: bv32)
    ensures Product(Add(a, b), y) == Add(Product(a, y), Product(b, y))
  {
    hide Add, Part, Next, High;
    var h := High(y);
    PartLeft(a, b, y);
    PartLeft(a, b, h);
    NextLinear(Part(a, h), Part(b, h));
    Exchange(Part(a, y), Part(b, y), Next(Part(a, h)), Next(Part(b, h)));
  }

  lemma ProductZero(a: bv32)
    ensures Product(a, 0) == 0
  {
  }

  // ---------------------------------------------------------------- laws of the product

  /** In the field of 32 elements, 2^5 is 2^3 + 1. */
  lemma TwiceFive(y: bv32)
    requires y < 1024
    ensures Twice(Twice(Twice(Twice(Twice(y))))) == Add(Twice(Twice(Twice(y))), y)
  {
  }

  lemma TwiceNext(y: bv32)
    requires y < 1024
    ensures Twice(Next(y)) == Next(Twice(y))
  {
  }

  lemma Narrow(a: bv32, b: bv32)
    ensures Twice(a) < 1024
    ensures a < 1024 ==> Next(a) < 1024
    ensures a < 1024 && b < 1024 ==> Add(a, b) < 1024
  {
  }

  lemma FiveNarrow(a: bv32, b: bv32, c: bv32, d: bv32, e: bv32)
    requires a < 1024 && b < 1024 && c < 1024 && d < 1024 && e < 1024
    ensures Five(a, b, c, d, e) < 1024
  {
    hide Add;
    Narrow(a, b);
    Narrow(c, d);
    Narrow(Add(a, b), Add(c, d));
    Narrow(Add(Add(a, b), Add(c, d)), e);
  }

  lemma PartNarrow(a: bv32, y: bv32)
    requires a < 1024
    ensures Part(a, y) < 1024
  {
    hide Hit, Five, Twice;
    var b := Twice(a);
    var c := Twice(b);
    var d := Twice(c);
    var e := Twice(d);
    Narrow(a, a);
    Narrow(b, b);
    Narrow(c, c);
    Narrow(d, d);
    FiveNarrow(When(Hit(y, 1), a), When(Hit(y, 2), b), When(Hit(y, 4), c), When(Hit(y, 8), d), When(Hit(y, 16), e));
  }

  lemma ProductNarrow(a: bv32, y: bv32)
    requires a < 1024
    ensures Product(a, y) < 1024
  {
    hide Add, Part, Next;
    PartNarrow(a, y);
    PartNarrow(a, High(y));
    Narrow(Part(a, High(y)), 0);
    Narrow(Part(a, y), Next(Part(a, High(y))));
  }

  lemma PartOne(y: bv32)
    ensures Part(1, y) == Low(y)
  {
    assert Twice(1) == 2 && Twice(2) == 4 && Twice(4) == 8 && Twice(8) == 16;
    hide Twice;
  }

  lemma NextLow(y: bv32)
    requires y < 1024
    ensures Add(Low(y), Next(Low(High(y)))) == y
  {
  }

  lemma ProductOne(y: bv32)
    requires y < 1024
    ensures Product(1, y) == y
  {
    hide Part, Next, Low, High, Add;
    PartOne(y);
    PartOne(High(y));
    NextLow(y);
  }

  lemma WhenTwice(hit: bool, k: bv32)
    ensures Twice(When(hit, k)) == When(hit, Twice(k))
  {
    hide Twice;
    TwiceLinear(0, 0);
  }

  lemma WhenNext(hit: bool, k: bv32)
    ensures Next(When(hit, k)) == When(hit, Next(k))
  {
    hide Next;
    NextZero();
  }

  lemma FiveTwice(a: bv32, b: bv32, c: bv32, d: bv32, e: bv32)
    ensures Twice(Five(a, b, c, d, e)) == Five(Twice(a), Twice(b), Twice(c), Twice(d), Twice(e))
  {
    hide Twice, Add;
    TwiceLinear(a, b);
    TwiceLinear(c, d);
    TwiceLinear(Add(a, b), Add(c, d));
    TwiceLinear(Add(Add(a, b), Add(c, d)), e);
  }

  lemma FiveNext(a: bv32, b: bv32, c: bv32, d: bv32, e: bv32)
    ensures Next(Five(a, b, c, d, e)) == Five(Next(a), Next(b), Next(c), Next(d), Next(e))
  {
    hide Next, Add;
    NextLinear(a, b);
    NextLinear(c, d);
    NextLinear(Add(a, b), Add(c, d));
    NextLinear(Add(Add(a, b), Add(c, d)), e);
  }

  lemma HitTwice(y: bv32)
    ensures Hit(Twice(y), 1) == Hit(y, 16) && Hit(Twice(y), 2) == Hit(y, 1) && Hit(Twice(y), 4) == Hit(y, 2)
    ensures Hit(Twice(y), 8) == (Hit(y, 4) != Hit(y, 16)) && Hit(Twice(y), 16) == Hit(y, 8)
  {
  }

  lemma Rotated(a: bv32, b: bv32, c: bv32, d: bv32, e: bv32, f: bv32)
    ensures Five(a, b, c, Add(d, f), e) == Five(b, c, d, e, Add(f, a))
  {
    hide Add;
    var bc := Add(b, c);
    Assoc(a, b, Add(c, Add(d, f)));
    Assoc(Add(a, b), c, Add(d, f));
    Assoc(a, b, c);
    Comm(a, bc);
    Assoc(bc, a, Add(d, f));
    Comm(a, Add(d, f));
    Assoc(d, f, a);
    Assoc(Add(b, c), d, Add(f, a));
    Assoc(Add(bc, d), Add(f, a), e);
    Comm(Add(f, a), e);
    Assoc(Add(bc, d), e, Add(f, a));
    Assoc(bc, d, e);
  }

  /** The sum of the images, with the image of the fifth power of 2 reduced. */
  lemma Rotate(p: bool, q: bool, r: bool, s: bool, t: bool, a: bv32, b: bv32, c: bv32, d: bv32, e: bv32)
    ensures Five(When(t, a), When(p, b), When(q, c), When(r != t, d), When(s, e)) ==
            Five(When(p, b), When(q, c), When(r, d), When(s, e), When(t, Add(d, a)))
  {
    hide Five, Add;
    AddZero(d);
    AddZero(0);
    Rotated(When(t, a), When(p, b), When(q, c), When(r, d), When(s, e), When(t, d));
  }

  lemma PartTwice(a: bv32, y: bv32)
    requires a < 1024
    ensures Part(a, Twice(y)) == Twice(Part(a, y))
  {
    hide Twice, Hit, Add, Five, When;
    var b := Twice(a);
    var c := Twice(b);
    var d := Twice(c);
    var e := Twice(d);
    HitTwice(y);
    WhenTwice(Hit(y, 1), a);
    WhenTwice(Hit(y, 2), b);
    WhenTwice(Hit(y, 4), c);
    WhenTwice(Hit(y, 8), d);
    WhenTwice(Hit(y, 16), e);
    FiveTwice(When(Hit(y, 1), a), When(Hit(y, 2), b), When(Hit(y, 4), c), When(Hit(y, 8), d), When(Hit(y, 16), e));
    TwiceFive(a);
    Rotate(Hit(y, 1), Hit(y, 2), Hit(y, 4), Hit(y, 8), Hit(y, 16), a, b, c, d, e);
  }

  lemma PartNine(a: bv32, h: bv32)
    requires a < 1024
    ensures Part(a, Nine(h)) == Nine(Part(a, h)) && Part(a, TwentyThree(h)) == TwentyThree(Part(a, h))
  {
    hide Twice, Add, Part;
    var b := Twice(h);
    var c := Twice(b);
    var d := Twice(c);
    var e := Twice(d);
    PartTwice(a, h);
    PartTwice(a, b);
    PartTwice(a, c);
    PartTwice(a, d);
    PartLinear(a, h, d);
    PartLinear(a, h, b);
    PartLinear(a, c, e);
    PartLinear(a, Add(h, b), Add(c, e));
  }

  lemma NineNext(y: bv32)
    requires y < 1024
    ensures Next(Nine(y)) == Nine(Next(y))
  {
    hide Twice, Add, Next;
    Narrow(y, 0);
    Narrow(Twice(y), 0);
    TwiceNext(y);
    TwiceNext(Twice(y));
    TwiceNext(Twice(Twice(y)));
    NextLinear(y, Twice(Twice(Twice(y))));
  }

  lemma NextParts(y: bv32)
    requires y < 1024
    ensures High(Next(y)) == Add(Low(y), Nine(High(y))) && Low(Next(y)) == TwentyThree(High(y))
  {
  }

  lemma UpNine(h: bv32)
    requires h < 32
    ensures Nine(Up(h)) == Up(Nine(h)) && TwentyThree(Up(h)) == Up(TwentyThree(h)) && Nine(h) < 32
  {
  }

  lemma NineTwentyThree(h: bv32)
    requires h < 32
    ensures TwentyThree(Nine(h)) == Nine(TwentyThree(h))
  {
  }

  lemma Split(y: bv32)
    requires y < 1024
    ensures y == Add(Up(High(y)), Low(y)) && High(y) < 32 && Low(y) < 32
  {
  }

  lemma NextNext(y: bv32)
    requires y < 1024
    ensures Next(Next(y)) == Add(Nine(Next(y)), TwentyThree(y))
  {
    hide Add, Up, Low, High, Nine, TwentyThree;
    var l, h := Low(y), High(y);
    var x, z := Add(l, Nine(h)), TwentyThree(h);
    Split(y);
    NextParts(y);
    assert Next(y) == Add(Up(x), z);
    assert Next(Next(y)) == Add(Up(Add(z, Nine(x))), TwentyThree(x)) by {
      hide Next;
      NextIs(Next(y));
    }
    hide Next;
    UpNine(h);
    AddSmall(l, Nine(h));
    UpNine(x);
    NineLinear(Up(x), z);
    TwentyThreeLinear(Up(h), l);
    TwentyThreeLinear(l, Nine(h));
    NineTwentyThree(h);
    UpLinear(z, Nine(x));
    Comm(TwentyThree(l), Nine(z));
    Comm(Up(z), Up(Nine(x)));
    Exchange(Up(Nine(x)), Up(z), Nine(z), TwentyThree(l));
  }

  lemma NextIs(y: bv32)
    ensures Next(y) == Add(Up(Add(Low(y), Nine(High(y)))), TwentyThree(High(y)))
  {
  }

  lemma PartLow(a: bv32, y: bv32)
    ensures Part(a, Low(y)) == Part(a, y)
  {
    hide Twice, Add, Five;
  }

  /** Multiplication by an element respects multiplication by (e), in either argument. */
  lemma ProductNext(a: bv32, y: bv32)
    requires a < 1024 && y < 1024
    ensures Product(a, Next(y)) == Next(Product(a, y))
  {
    hide Twice, Add, Next, Part, Low, High, Nine, TwentyThree;
    var l, h := Part(a, y), Part(a, High(y));
    NextParts(y);
    PartLow(a, y);
    PartLow(a, Next(y));
    PartNine(a, High(y));
    PartLinear(a, Low(y), Nine(High(y)));
    PartNarrow(a, High(y));
    NineNext(h);
    NextNext(h);
    NextLinear(l, Nine(h));
    NextLinear(l, Next(h));
    Comm(TwentyThree(h), Add(Next(l), Nine(Next(h))));
    Assoc(Next(l), Nine(Next(h)), TwentyThree(h));
  }

  lemma ProductTwice(a: bv32, y: bv32)
    requires a < 1024 && y < 1024
    ensures Product(a, Twice(y)) == Twice(Product(a, y))
  {
    hide Twice, Add, Next, Part, High;
    HighTwice(y);
    PartTwice(a, y);
    PartTwice(a, High(y));
    PartNarrow(a, High(y));
    TwiceNext(Part(a, High(y)));
    TwiceLinear(Part(a, y), Next(Part(a, High(y))));
  }

  lemma HighTwice(y: bv32)
    requires y < 1024
    ensures High(Twice(y)) == Twice(High(y))
  {
  }

  lemma NextImages(a: bv32)
    requires a < 1024
    ensures Twice(Next(a)) == Next(Twice(a)) && Twice(Next(Twice(a))) == Next(Twice(Twice(a)))
    ensures var c := Twice(Twice(a));
            Twice(Next(c)) == Next(Twice(c)) && Twice(Next(Twice(c))) == Next(Twice(Twice(c)))
  {
    hide Twice, Next;
    var b := Twice(a);
    var c := Twice(b);
    Narrow(a, 0);
    Narrow(b, 0);
    Narrow(c, 0);
    TwiceNext(a);
    TwiceNext(b);
    TwiceNext(c);
    TwiceNext(Twice(c));
  }

  lemma PartNext(a: bv32, y: bv32)
    requires a < 1024
    ensures Part(Next(a), y) == Next(Part(a, y))
  {
    hide Twice, Add, Next, Five, When, Hit;
    var b := Twice(a);
    var c := Twice(b);
    var d := Twice(c);
    var e := Twice(d);
    NextImages(a);
    WhenNext(Hit(y, 1), a);
    WhenNext(Hit(y, 2), b);
    WhenNext(Hit(y, 4), c);
    WhenNext(Hit(y, 8), d);
    WhenNext(Hit(y, 16), e);
    FiveNext(When(Hit(y, 1), a), When(Hit(y, 2), b), When(Hit(y, 4), c), When(Hit(y, 8), d), When(Hit(y, 16), e));
  }

  lemma NextProduct(a: bv32, y: bv32)
    requires a < 1024
    ensures Product(Next(a), y) == Next(Product(a, y))
  {
    hide Add, Next, Part, High;
    PartNext(a, y);
    PartNext(a, High(y));
    NextLinear(Part(a, y), Next(Part(a, High(y))));
  }

  // ---------------------------------------------------------------- powers

  lemma {:induction false} RaiseAdd(a: nat, b: nat, y: bv32)
    ensures Raise(a + b, y) == Raise(a, Raise(b, y))
  {
    hide Next;
    if a > 0 { RaiseAdd(a - 1, b, y); }
  }

  lemma {:induction false} RaiseLinear(n: nat, x: bv32, y: bv32)
    ensures Raise(n, Add(x, y)) == Add(Raise(n, x), Raise(n, y))
  {
    hide Next, Add;
    if n > 0 {
      RaiseLinear(n - 1, x, y);
      NextLinear(Raise(n - 1, x), Raise(n - 1, y));
    }
  }

  lemma {:induction false} RaiseNarrow(n: nat, y: bv32)
    requires y < 1024
    ensures Raise(n, y) < 1024
  {
    hide Next;
    if n > 0 {
      RaiseNarrow(n - 1, y);
      Narrow(Raise(n - 1, y), 0);
    }
  }

  lemma {:induction false} ProductRaise(a: bv32, n: nat, y: bv32)
    requires a < 1024 && y < 1024
    ensures Product(a, Raise(n, y)) == Raise(n, Product(a, y))
  {
    hide Next, Product;
    if n > 0 {
      ProductRaise(a, n - 1, y);
      RaiseNarrow(n - 1, y);
      ProductNext(a, Raise(n - 1, y));
    }
  }

  lemma {:induction false} RaiseProduct(a: bv32, n: nat, y: bv32)
    requires a < 1024
    ensures Product(Raise(n, a), y) == Raise(n, Product(a, y))
  {
    hide Next, Product;
    if n > 0 {
      RaiseProduct(a, n - 1, y);
      RaiseNarrow(n - 1, a);
      NextProduct(Raise(n - 1, a), y);
    }
  }

  /** Powers of (e), by products of smaller ones. */
  lemma PowerIs(a: nat, b: nat, f: bv32, g: bv32, h: bv32)
    requires Raise(a, 1) == f && Raise(b, 1) == g && g < 1024 && Product(f, g) == h
    ensures Raise(a + b, 1) == h
  {
    hide Raise, Product;
    RaiseAdd(a, b, 1);
    RaiseProduct(1, a, g);
    ProductOne(g);
  }

  lemma Product2()
    ensures Product(0x20, 0x20) == 0x137
  {
  }

  lemma Product3()
    ensures Product(0x137, 0x20) == 0x8b
  {
  }

  lemma Product5()
    ensures Product(0x8b, 0x137) == 0x229
  {
  }

  lemma Product10()
    ensures Product(0x229, 0x229) == 0x38e
  {
  }

  lemma Product13()
    ensures Product(0x38e, 0x8b) == 0x175
  {
  }

  lemma Product26()
    ensures Product(0x175, 0x175) == 0x164
  {
  }

  lemma Product31()
    ensures Product(0x164, 0x229) == 0xde
  {
  }

  lemma Product33()
    ensures Product(0xde, 0x137) == 0x17
  {
  }

  lemma Product62()
    ensures Product(0xde, 0xde) == 0x203
  {
  }

  lemma Product93()
    ensures Product(0x203, 0xde) == 0x356
  {
  }

  lemma Product155()
    ensures Product(0x356, 0x203) == 0x3d7
  {
  }

  lemma Product248()
    ensures Product(0x3d7, 0x356) == 0x2b
  {
  }

  lemma Product341()
    ensures Product(0x2b, 0x356) == 0x16d
  {
  }

  lemma Product682()
    ensures Product(0x16d, 0x16d) == 0x16c
  {
  }

  lemma Product1023()
    ensures Product(0x16c, 0x16d) == 0x1
  {
  }

  lemma PowerOne()
    ensures Raise(1, 1) == 0x20
  {
    assert Raise(1, 1) == Next(Raise(0, 1));
  }

  lemma SmallPowers()
    ensures Raise(26, 1) == 0x164 && Raise(31, 1) == 0xde && Raise(33, 1) == 0x17
  {
    hide Raise, Product;
    PowerOne();
    Product2();
    PowerIs(1, 1, 0x20, 0x20, 0x137);
    Product3();
    PowerIs(2, 1, 0x137, 0x20, 0x8b);
    Product5();
    PowerIs(3, 2, 0x8b, 0x137, 0x229);
    Product10();
    PowerIs(5, 5, 0x229, 0x229, 0x38e);
    Product13();
    PowerIs(10, 3, 0x38e, 0x8b, 0x175);
    Product26();
    PowerIs(13, 13, 0x175, 0x175, 0x164);
    Product31();
    PowerIs(26, 5, 0x164, 0x229, 0xde);
    Product33();
    PowerIs(31, 2, 0xde, 0x137, 0x17);
  }

  lemma LargePowers()
    ensures Raise(93, 1) == 0x356 && Raise(341, 1) == 0x16d
  {
    hide Raise, Product;
    SmallPowers();
    Product62();
    PowerIs(31, 31, 0xde, 0xde, 0x203);
    Product93();
    PowerIs(62, 31, 0x203, 0xde, 0x356);
    Product155();
    PowerIs(93, 62, 0x356, 0x203, 0x3d7);
    Product248();
    PowerIs(155, 93, 0x3d7, 0x356, 0x2b);
    Product341();
    PowerIs(248, 93, 0x2b, 0x356, 0x16d);
  }

  lemma Power1023()
    ensures Raise(1023, 1) == 1
  {
    hide Raise, Product;
    LargePowers();
    Product682();
    PowerIs(341, 341, 0x16d, 0x16d, 0x16c);
    Product1023();
    PowerIs(682, 341, 0x16c, 0x16d, 0x1);
  }

  // ---------------------------------------------------------------- the order of (e)

  ghost predicate Fixes(n: nat, y: bv32) {
    Raise(n, y) == y
  }

  lemma Distributes(p: nat, q: nat, g: nat)
    ensures (p + q) * g == p * g + q * g
  {
  }

  /** Powers that fix an element are closed under taking the rest. */
  lemma {:induction false} FixesGcd(a: nat, b: nat, y: bv32) returns (g: nat, p: nat, q: nat)
    requires Fixes(a, y) && Fixes(b, y) && 0 < b
    ensures g > 0 && a == p * g && b == q * g && Fixes(g, y)
    decreases a + b
  {
    hide Raise;
    if a < b {
      if a == 0 {
        g, p, q := b, 0, 1;
      } else {
        RaiseAdd(b - a, a, y);
        g, p, q := FixesGcd(a, b - a, y);
        q := p + q;
        Distributes(p, q - p, g);
      }
    } else {
      RaiseAdd(a - b, b, y);
      g, p, q := FixesGcd(a - b, b, y);
      p := p + q;
      Distributes(p - q, q, g);
    }
  }

  lemma {:induction false} FixesMultiple(n: nat, k: nat, y: bv32)
    requires Fixes(n, y)
    ensures Fixes(k * n, y)
  {
    if k > 0 {
      hide Raise;
      FixesMultiple(n, k - 1, y);
      assert k * n == n + (k - 1) * n;
      RaiseAdd(n, (k - 1) * n, y);
    }
  }

  lemma SmallDivisor(d: nat, e: nat)
    requires 1023 == d * e && d <= 31
    ensures d == 1 || d == 3 || d == 11 || d == 31
  {
    if d == 2 {
    } else if d == 4 {
    } else if d == 5 {
    } else if d == 6 {
    } else if d == 7 {
    } else if d == 8 {
    } else if d == 9 {
    } else if d == 10 {
    } else if d == 12 {
    } else if d == 13 {
    } else if d == 14 {
    } else if d == 15 {
    } else if d == 16 {
    } else if d == 17 {
    } else if d == 18 {
    } else if d == 19 {
    } else if d == 20 {
    } else if d == 21 {
    } else if d == 22 {
    } else if d == 23 {
    } else if d == 24 {
    } else if d == 25 {
    } else if d == 26 {
    } else if d == 27 {
    } else if d == 28 {
    } else if d == 29 {
    } else if d == 30 {
    }
  }

  /** The proper divisors of 1023 divide 33, 93 or 341. */
  lemma ProperDivisor(g: nat, p: nat) returns (k: nat)
    requires 1023 == p * g && g < 1023
    ensures k * g == 33 || k * g == 93 || k * g == 341
  {
    if g <= 31 {
      Commutes(p, g);
      SmallDivisor(g, p);
      k := if g == 1 then 33 else if g == 3 then 11 else 3;
    } else {
      if p > 31 { Grows(p, g); }
      SmallDivisor(p, g);
      k := 1;
    }
  }

  lemma Commutes(p: nat, g: nat)
    ensures p * g == g * p
  {
  }

  lemma Grows(p: nat, g: nat)
    requires p >= 32 && g >= 32
    ensures p * g >= 1024
  {
    assert p * g >= 32 * g;
  }

  /** A power of (e) times an element is a product. */
  lemma RaiseIs(n: nat, y: bv32)
    requires y < 1024
    ensures Raise(n, y) == Product(Raise(n, 1), y)
  {
    hide Raise, Product;
    RaiseProduct(1, n, y);
    ProductOne(y);
  }

  lemma Inverse33()
    ensures Add(Product(0x17, 0x10), 0x10) == 1
  {
  }

  lemma Inverse93()
    ensures Add(Product(0x356, 0x17b), 0x17b) == 1
  {
  }

  lemma Inverse341()
    ensures Add(Product(0x16d, 0x16d), 0x16d) == 1
  {
  }

  /** A power that differs from 1 by an element with an inverse fixes only zero. */
  lemma NoneFixed(n: nat, d: bv32, y: bv32)
    requires y < 1024 && d < 1024 && Fixes(n, y) && Add(Product(Raise(n, 1), d), d) == 1
    ensures y == 0
  {
    hide Raise, Product, Add;
    RaiseIs(n, d);
    RaiseProduct(d, n, y);
    ProductLeft(Raise(n, d), d, y);
    ProductRaise(d, n, y);
    AddZero(Product(d, y));
    ProductOne(y);
  }

  /** The order of (e) is 1023: no smaller power of it fixes anything but zero. */
  lemma FixedZero(n: nat, y: bv32)
    requires 0 < n < 1023 && y < 1024 && Fixes(n, y)
    ensures y == 0
  {
    hide Raise, Product, Add;
    Power1023();
    RaiseIs(1023, y);
    ProductOne(y);
    var g, p, q := FixesGcd(1023, n, y);
    if q > 0 { assert q * g >= g; }
    var k := ProperDivisor(g, p);
    FixesMultiple(g, k, y);
    if k * g == 33 {
      SmallPowers();
      Inverse33();
      NoneFixed(33, 0x10, y);
    } else if k * g == 93 {
      LargePowers();
      Inverse93();
      NoneFixed(93, 0x17b, y);
    } else {
      LargePowers();
      Inverse341();
      NoneFixed(341, 0x16d, y);
    }
  }

  /** Multiplication by a power of (e) loses nothing. */
  lemma {:induction false} RaiseZero(n: nat, y: bv32)
    requires y < 1024
    ensures Raise(n, y) == 0 <==> y == 0
  {
    hide Next;
    if n > 0 {
      RaiseZero(n - 1, y);
      RaiseNarrow(n - 1, y);
      NextOnlyZero(Raise(n - 1, y));
    }
  }

  lemma NextOnlyZero(y: bv32)
    requires y < 1024
    ensures Next(y) == 0 <==> y == 0
  {
  }

  /** An element plus a power of (e) times it. */
  function Gap(n: nat, y: bv32): bv32 {
    Add(y, Raise(n, y))
  }

  /** Different powers take only zero to the same element. */
  lemma SameRaise(n: nat, m: nat, u: bv32)
    requires m < n < 1023 && u < 1024 && Raise(n, u) == Raise(m, u)
    ensures u == 0
  {
    hide Raise, Add;
    RaiseAdd(m, n - m, u);
    RaiseLinear(m, u, Raise(n - m, u));
    AddEqual(Raise(m, u), Raise(n, u));
    RaiseNarrow(n - m, u);
    Narrow(u, Raise(n - m, u));
    RaiseZero(m, Gap(n - m, u));
    AddEqual(u, Raise(n - m, u));
    FixedZero(n - m, u);
  }

  /** The powers of (e) below its order are different, and none is zero. */
  lemma PowersDistinct(i: nat, j: nat)
    requires i < j < 1023
    ensures Raise(i, 1) != Raise(j, 1) && Raise(i, 1) != 0
  {
    hide Raise;
    RaiseZero(i, 1);
    if Raise(i, 1) == Raise(j, 1) { SameRaise(j, i, 1); }
  }
}
