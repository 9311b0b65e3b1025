/**
  The field GF(256) that the QR code's error correction computes in: polynomials over
  GF(2) of degree below 8, added by exclusive-or and multiplied modulo
  x^8 + x^4 + x^3 + x^2 + 1 (0x11D), with x (the byte 2) generating the nonzero elements.
 */
module GaloisField {
  import opened Counting

  function Add(a: bv8, b: bv8): bv8 {
    a ^ b
  }

  /** Multiplication by the generator. */
  function Double(a: bv8): bv8 {
    (a << 1) ^ (if a & 0x80 != 0 then 0x1d else 0)
  }

  function Half(b: bv8): bv8 {
    b >> 1
  }

  function IfOdd(b: bv8, a: bv8): bv8 {
    if b & 1 != 0 then a else 0
  }

  /** The reference product: Horner's rule over the bits of `b`, reducing at every doubling. */
  function Mul(a: bv8, b: bv8): bv8
    decreases b as nat
  {
    if b == 0 then 0
    else
      HalfIsSmaller(b);
      Add(Double(Mul(a, Half(b))), IfOdd(b, a))
  }

  lemma HalfIsSmaller(b: bv8)
    requires b != 0
    ensures Half(b) as nat < b as nat
  {
  }

  // ---------------------------------------------------------------------------
  // What is known of the bits; everything after this section hides them
  // ---------------------------------------------------------------------------

  lemma AddAssociative(a: bv8, b: bv8, c: bv8)
    ensures Add(Add(a, b), c) == Add(a, Add(b, c))
    ensures Add(a, b) == Add(b, a)
  {
  }

  lemma AddSelf(a: bv8, b: bv8)
    ensures Add(a, 0) == a && Add(0, a) == a && Add(a, a) == 0
    ensures Add(a, b) == 0 <==> a == b
  {
  }

  lemma AddLaws(a: bv8, b: bv8, c: bv8, d: bv8)
    ensures Add(a, b) == Add(b, a)
    ensures Add(Add(a, b), c) == Add(a, Add(b, c))
    ensures Add(Add(a, b), Add(c, d)) == Add(Add(a, c), Add(b, d))
    ensures Add(a, 0) == a && Add(0, a) == a && Add(a, a) == 0
    ensures Add(a, b) == 0 <==> a == b
  {
    hide Add;
    AddAssociative(a, b, c);
    AddSelf(a, b);
    AddAssociative(a, b, Add(c, d));
    AddAssociative(b, c, d);
    AddAssociative(b, d, c);
    AddAssociative(c, b, d);
    AddAssociative(a, c, Add(b, d));
    AddAssociative(c, d, b);
    AddAssociative(d, b, c);
  }

  lemma HighBits(a: bv8, b: bv8)
    ensures (a ^ b) << 1 == (a << 1) ^ (b << 1)
    ensures (a ^ b) & 0x80 == (a & 0x80) ^ (b & 0x80)
    ensures a & 0x80 == 0 || a & 0x80 == 0x80
  {
  }

  lemma DoubleAdd(a: bv8, b: bv8)
    ensures Double(Add(a, b)) == Add(Double(a), Double(b))
  {
    HighBits(a, b);
    HighBits(b, a);
  }

  lemma DoubleZero(a: bv8)
    ensures Double(a) == 0 <==> a == 0
    ensures Double(1) == 2
  {
  }

  lemma DoubleInjective(a: bv8, b: bv8)
    requires Double(a) == Double(b)
    ensures a == b
  {
  }

  lemma HalfAdd(b: bv8, b': bv8)
    ensures Half(Add(b, b')) == Add(Half(b), Half(b'))
    ensures Half(0) == 0 && Half(1) == 0
  {
  }

  lemma LowBits(b: bv8, b': bv8)
    ensures (b ^ b') & 1 == (b & 1) ^ (b' & 1)
    ensures b & 1 == 0 || b & 1 == 1
  {
  }

  lemma IfOddLaws(b: bv8, b': bv8, a: bv8, a': bv8)
    ensures IfOdd(b, Add(a, a')) == Add(IfOdd(b, a), IfOdd(b, a'))
    ensures IfOdd(Add(b, b'), a) == Add(IfOdd(b, a), IfOdd(b', a))
    ensures IfOdd(b, Double(a)) == Double(IfOdd(b, a))
    ensures IfOdd(0, a) == 0 && IfOdd(1, a) == a && IfOdd(b, 0) == 0
  {
    LowBits(b, b');
    LowBits(b', b);
  }

  lemma BitsOf(b: bv8)
    ensures b == Add(Double(Half(b)), IfOdd(b, 1))
  {
  }

  // ---------------------------------------------------------------------------
  // Bilinearity
  // ---------------------------------------------------------------------------

  lemma MulStep(a: bv8, b: bv8)
    ensures Mul(a, b) == Add(Double(Mul(a, Half(b))), IfOdd(b, a))
    ensures Mul(a, 0) == 0
  {
  }

  lemma {:induction false} MulAddLeft(a: bv8, a': bv8, b: bv8)
    ensures Mul(Add(a, a'), b) == Add(Mul(a, b), Mul(a', b))
    decreases b as nat
  {
    hide Add, Double, Half, IfOdd, Mul;
    if b == 0 {
      MulStep(a, b);
      MulStep(a', b);
      MulStep(Add(a, a'), b);
      AddLaws(0, 0, 0, 0);
    } else {
      var c := Half(b);
      HalfIsSmaller(b);
      MulAddLeft(a, a', c);
      MulStep(a, b);
      MulStep(a', b);
      MulStep(Add(a, a'), b);
      DoubleAdd(Mul(a, c), Mul(a', c));
      IfOddLaws(b, b, a, a');
      AddLaws(Double(Mul(a, c)), Double(Mul(a', c)), IfOdd(b, a), IfOdd(b, a'));
    }
  }

  lemma {:induction false} MulDouble(a: bv8, b: bv8)
    ensures Mul(Double(a), b) == Double(Mul(a, b))
    decreases b as nat
  {
    hide Add, Double, Half, IfOdd, Mul;
    MulStep(a, b);
    MulStep(Double(a), b);
    if b == 0 {
      DoubleZero(0);
    } else {
      HalfIsSmaller(b);
      MulDouble(a, Half(b));
      IfOddLaws(b, b, a, a);
      DoubleAdd(Double(Mul(a, Half(b))), IfOdd(b, a));
    }
  }

  lemma {:induction false} MulAddRight(a: bv8, b: bv8, b': bv8, n: nat)
    requires b as nat <= n && b' as nat <= n
    ensures Mul(a, Add(b, b')) == Add(Mul(a, b), Mul(a, b'))
    decreases n
  {
    hide Add, Double, Half, IfOdd, Mul;
    MulStep(a, b);
    MulStep(a, b');
    MulStep(a, Add(b, b'));
    if n == 0 {
      AddLaws(0, 0, 0, 0);
    } else {
      var c, c' := Half(b), Half(b');
      HalfIsBelow(b, n);
      HalfIsBelow(b', n);
      MulAddRight(a, c, c', n - 1);
      HalfAdd(b, b');
      DoubleAdd(Mul(a, c), Mul(a, c'));
      IfOddLaws(b, b', a, a);
      AddLaws(Double(Mul(a, c)), Double(Mul(a, c')), IfOdd(b, a), IfOdd(b', a));
    }
  }

  lemma HalfIsBelow(b: bv8, n: nat)
    requires b as nat <= n && n > 0
    ensures Half(b) as nat <= n - 1
  {
    if b != 0 {
      HalfIsSmaller(b);
    }
  }

  lemma MulAdd(a: bv8, b: bv8, c: bv8)
    ensures Mul(a, Add(b, c)) == Add(Mul(a, b), Mul(a, c))
    ensures Mul(Add(b, c), a) == Add(Mul(b, a), Mul(c, a))
  {
    MulAddRight(a, b, c, 255);
    MulAddLeft(b, c, a);
  }

  lemma {:induction false} MulOneLeft(b: bv8)
    ensures Mul(1, b) == b
    decreases b as nat
  {
    hide Add, Double, Half, IfOdd, Mul;
    MulStep(1, b);
    BitsOf(b);
    if b != 0 {
      HalfIsSmaller(b);
      MulOneLeft(Half(b));
    }
  }

  lemma MulOneRight(a: bv8)
    ensures Mul(a, 1) == a
  {
    hide Add, Double, Half, IfOdd, Mul;
    MulStep(a, 1);
    MulStep(a, 0);
    HalfAdd(1, 1);
    IfOddLaws(1, 1, a, a);
    DoubleZero(0);
    AddLaws(a, 0, 0, 0);
  }

  lemma MulZero(a: bv8)
    ensures Mul(0, a) == 0 && Mul(a, 0) == 0
  {
    hide Add, Double, Half, IfOdd, Mul;
    AddLaws(a, a, 0, 0);
    MulAdd(a, a, a);
    AddLaws(Mul(a, a), Mul(a, a), 0, 0);
    MulStep(a, 0);
  }

  // ---------------------------------------------------------------------------
  // `Mul` is the product of polynomials modulo 0x11D
  // ---------------------------------------------------------------------------

  function Wide(a: bv8): bv16 {
    a as bv16
  }

  function AddWide(a: bv16, b: bv16): bv16 {
    a ^ b
  }

  function ShiftWide(a: bv16): bv16 {
    a << 1
  }

  function IfOddWide(b: bv8, a: bv16): bv16 {
    if b & 1 != 0 then a else 0
  }

  /** The product of two polynomials over GF(2), with no reduction. */
  function CarrylessProduct(a: bv16, b: bv8): bv16
    decreases b as nat
  {
    if b == 0 then 0
    else
      HalfIsSmaller(b);
      AddWide(ShiftWide(CarrylessProduct(a, Half(b))), IfOddWide(b, a))
  }

  lemma CarrylessStep(a: bv16, b: bv8)
    ensures CarrylessProduct(a, b) == AddWide(ShiftWide(CarrylessProduct(a, Half(b))), IfOddWide(b, a))
    ensures CarrylessProduct(a, 0) == 0
  {
  }

  lemma WideLaws(a: bv8, b: bv8, x: bv16, y: bv16)
    ensures Wide(Add(a, b)) == AddWide(Wide(a), Wide(b))
    ensures Wide(IfOdd(b, a)) == IfOddWide(b, Wide(a))
    ensures ShiftWide(AddWide(x, y)) == AddWide(ShiftWide(x), ShiftWide(y))
    ensures Wide(0) == 0 && AddWide(0, 0) == 0
  {
  }

  lemma WideExchange(x: bv16, t: bv16, r: bv16, l: bv16)
    ensures AddWide(AddWide(AddWide(x, t), r), l) == AddWide(AddWide(x, l), AddWide(r, t))
  {
  }

  /** The next digit of the quotient: one exactly when doubling `m` overflows. */
  function NextQuotient(q: bv8, m: bv8): bv8 {
    (q << 1) | (if m & 0x80 != 0 then 1 else 0)
  }

  lemma QuotientShift(q: bv8, m: bv8)
    requires q < 0x80
    ensures var q' := NextQuotient(q, m);
            Half(q') == q && ShiftWide(Wide(m)) == AddWide(Wide(Double(m)), IfOddWide(q', 0x11D))
  {
  }

  /** In bytes: the quotient stays below the multiplier. */
  lemma QuotientBelow(q: bv8, m: bv8, b: bv8)
    requires if Half(b) == 0 then q == 0 && m == 0 else q < Half(b)
    ensures q < 0x80
    ensures b != 0 ==> NextQuotient(q, m) < b
  {
  }

  lemma BelowIsBelow(a: bv8, b: bv8)
    ensures a as nat < b as nat <==> a < b
  {
  }

  lemma QuotientDigit(q: bv8, m: bv8, b: bv8)
    requires if Half(b) == 0 then q == 0 && m == 0 else q as nat < Half(b) as nat
    ensures var q' := NextQuotient(q, m);
            && Half(q') == q
            && ShiftWide(Wide(m)) == AddWide(Wide(Double(m)), IfOddWide(q', 0x11D))
            && (b != 0 ==> q' as nat < b as nat)
  {
    hide NextQuotient, Half, ShiftWide, AddWide, Wide, Double, IfOddWide;
    BelowIsBelow(q, Half(b));
    QuotientBelow(q, m, b);
    QuotientShift(q, m);
    BelowIsBelow(NextQuotient(q, m), b);
  }

  /** The unreduced product and `Mul` differ by a multiple of the modulus. */
  lemma {:induction false} MulIsProductModulo(a: bv8, b: bv8) returns (quotient: bv8)
    ensures CarrylessProduct(Wide(a), b) == AddWide(Wide(Mul(a, b)), CarrylessProduct(0x11D, quotient))
    ensures if b == 0 then quotient == 0 else quotient as nat < b as nat
    decreases b as nat
  {
    hide Add, Double, Half, IfOdd, Mul, Wide, AddWide, ShiftWide, IfOddWide, CarrylessProduct, NextQuotient;
    CarrylessStep(Wide(a), b);
    MulStep(a, b);
    if b == 0 {
      quotient := 0;
      CarrylessStep(0x11D, 0);
      WideLaws(0, 0, 0, 0);
    } else {
      HalfIsSmaller(b);
      var q := MulIsProductModulo(a, Half(b));
      var m := Mul(a, Half(b));
      MulStep(a, 0);
      QuotientDigit(q, m, b);
      quotient := NextQuotient(q, m);
      CarrylessStep(0x11D, quotient);
      WideLaws(Double(m), IfOdd(b, a), Wide(m), CarrylessProduct(0x11D, q));
      WideLaws(a, b, 0, 0);
      WideExchange(Wide(Double(m)), IfOddWide(quotient, 0x11D), ShiftWide(CarrylessProduct(0x11D, q)),
                   Wide(IfOdd(b, a)));
    }
  }

  // ---------------------------------------------------------------------------
  // Powers of the generator
  // ---------------------------------------------------------------------------

  /** `a` multiplied `n` times by the generator. */
  function Doubled(n: nat, a: bv8): bv8 {
    if n == 0 then a else Double(Doubled(n - 1, a))
  }

  function Pow(n: nat): bv8 {
    Doubled(n, 1)
  }

  lemma {:induction false} DoubledAdd(m: nat, n: nat, a: bv8)
    ensures Doubled(m + n, a) == Doubled(m, Doubled(n, a))
    decreases m
  {
    hide Double;
    if m > 0 {
      DoubledAdd(m - 1, n, a);
    }
  }

  lemma {:induction false} MulPow(n: nat, b: bv8)
    ensures Mul(Pow(n), b) == Doubled(n, b)
    decreases n
  {
    hide Double, Mul;
    if n == 0 {
      MulOneLeft(b);
    } else {
      MulPow(n - 1, b);
      MulDouble(Pow(n - 1), b);
    }
  }

  /** Exponents add under multiplication. */
  lemma PowAdd(m: nat, n: nat)
    ensures Pow(m + n) == Mul(Pow(m), Pow(n))
  {
    hide Mul, Doubled;
    MulPow(m, Pow(n));
    DoubledAdd(m, n, 1);
  }

  lemma {:induction false} DoubledInjective(n: nat, a: bv8, b: bv8)
    requires Doubled(n, a) == Doubled(n, b)
    ensures a == b
    decreases n
  {
    hide Double;
    if n > 0 {
      DoubleInjective(Doubled(n - 1, a), Doubled(n - 1, b));
      DoubledInjective(n - 1, a, b);
    }
  }

  lemma {:induction false} PowNonzero(n: nat)
    ensures Pow(n) != 0
    decreases n
  {
    hide Double;
    if n > 0 {
      PowNonzero(n - 1);
      DoubleZero(Pow(n - 1));
    }
  }

  // ---------------------------------------------------------------------------
  // The generator has order 255
  // ---------------------------------------------------------------------------

  /** Peeling the low bit of `b` trades it for a doubling of `a`. */
  lemma MulPeel(a: bv8, b: bv8)
    ensures Mul(a, b) == Add(Mul(Double(a), Half(b)), IfOdd(b, a))
  {
    hide Add, Double, Half, IfOdd, Mul;
    MulStep(a, b);
    MulDouble(a, Half(b));
  }

  /** The product with its eight bits written out, so that products of known bytes can be computed. */
  function Product(a: bv8, b: bv8): bv8 {
    var a1 := Double(a);
    var a2 := Double(a1);
    var a3 := Double(a2);
    var a4 := Double(a3);
    var a5 := Double(a4);
    var a6 := Double(a5);
    var a7 := Double(a6);
    var b1 := Half(b);
    var b2 := Half(b1);
    var b3 := Half(b2);
    var b4 := Half(b3);
    var b5 := Half(b4);
    var b6 := Half(b5);
    var b7 := Half(b6);
    Add(Add(Add(Add(Add(Add(Add(IfOdd(b7, a7), IfOdd(b6, a6)), IfOdd(b5, a5)), IfOdd(b4, a4)),
                    IfOdd(b3, a3)), IfOdd(b2, a2)), IfOdd(b1, a1)), IfOdd(b, a))
  }

  lemma EightHalves(b: bv8)
    ensures Half(Half(Half(Half(Half(Half(Half(Half(b)))))))) == 0
  {
  }

  lemma MulIsProduct(a: bv8, b: bv8)
    ensures Mul(a, b) == Product(a, b)
  {
    hide Add, Double, Half, IfOdd, Mul;
    var a1 := Double(a);
    var a2 := Double(a1);
    var a3 := Double(a2);
    var a4 := Double(a3);
    var a5 := Double(a4);
    var a6 := Double(a5);
    var a7 := Double(a6);
    var b1 := Half(b);
    var b2 := Half(b1);
    var b3 := Half(b2);
    var b4 := Half(b3);
    var b5 := Half(b4);
    var b6 := Half(b5);
    var b7 := Half(b6);
    EightHalves(b);
    MulPeel(a, b);
    MulPeel(a1, b1);
    MulPeel(a2, b2);
    MulPeel(a3, b3);
    MulPeel(a4, b4);
    MulPeel(a5, b5);
    MulPeel(a6, b6);
    MulPeel(a7, b7);
    MulStep(Double(a7), 0);
    AddSelf(IfOdd(b7, a7), 0);
  }

  lemma SmallPowers()
    ensures Pow(1) == 2 && Pow(8) == 0x1d
  {
    assert Pow(4) == 16;
    assert Pow(8) == 0x1d;
  }

  /** Squares and products that lead from 2 to its powers 15, 51, 85 and 255. */
  lemma KnownProducts()
    ensures Mul(0x1d, 0x1d) == 0x4c && Mul(0x4c, 2) == 0x98
    ensures Mul(0x98, 0x98) == 0x4e && Mul(0x4e, 0x98) == 0x0a
    ensures Mul(0x4e, 0x4e) == 0x99 && Mul(0x99, 0x98) == 0xd6
    ensures Mul(0xd6, 0xd6) == 0xd7 && Mul(0xd7, 0xd6) == 1
  {
    hide Mul;
    MulIsProduct(0x1d, 0x1d);
    MulIsProduct(0x4c, 2);
    MulIsProduct(0x98, 0x98);
    MulIsProduct(0x4e, 0x98);
    MulIsProduct(0x4e, 0x4e);
    MulIsProduct(0x99, 0x98);
    MulIsProduct(0xd6, 0xd6);
    MulIsProduct(0xd7, 0xd6);
  }

  lemma KnownPowers()
    ensures Pow(255) == 1 && Pow(15) != 1 && Pow(51) != 1 && Pow(85) != 1
  {
    SmallPowers();
    KnownProducts();
    hide Mul, Doubled;
    PowAdd(8, 8);
    PowAdd(16, 1);
    PowAdd(17, 17);
    PowAdd(34, 17);
    PowAdd(34, 34);
    PowAdd(68, 17);
    PowAdd(85, 85);
    PowAdd(170, 85);
    PowAdd(15, 1);
    MulOneLeft(2);
  }

  lemma {:induction false} PowMultiple(p: nat, k: nat)
    requires Pow(p) == 1
    ensures Pow(p * k) == 1
    decreases k
  {
    if k > 0 {
      hide Mul;
      PowMultiple(p, k - 1);
      assert p * k == p * (k - 1) + p;
      PowAdd(p * (k - 1), p);
      MulOneLeft(1);
    }
  }

  lemma LeastPeriod(n: nat) returns (p: nat)
    requires n > 0 && Pow(n) == 1
    ensures 0 < p <= n && Pow(p) == 1
    ensures forall m :: 0 < m < p ==> Pow(m) != 1
  {
    p := 1;
    while Pow(p) != 1
      invariant 0 < p <= n
      invariant forall m :: 0 < m < p ==> Pow(m) != 1
      decreases n - p
    {
      p := p + 1;
    }
  }

  lemma ProductBound(p: nat, q: nat)
    requires p * q == 255
    ensures p <= 16 || q <= 15
  {
    if p > 16 {
      assert p * q >= 17 * q;
    }
  }

  /** A proper divisor of 255 divides 15, 51 or 85. */
  lemma ProperDivisors(p: nat, q: nat)
    requires p * q == 255 && q > 1
    ensures p * 1 == 15 || p * 3 == 15 || p * 5 == 15 || p * 15 == 15 || p * 3 == 51 || p * 1 == 51 || p * 1 == 85
  {
    ProductBound(p, q);
    if q <= 15 {
      assert q in {2, 3, 4, 5, 6, 7, 8, 9, 10, 11, 12, 13, 14, 15};
    } else {
      assert p in {0, 1, 2, 3, 4, 5, 6, 7, 8, 9, 10, 11, 12, 13, 14, 15, 16};
    }
  }

  /** The least period divides 255, since the remainder would be a smaller one. */
  lemma LeastPeriodDivides(p: nat)
    requires 0 < p < 255 && Pow(p) == 1
    requires forall m :: 0 < m < p ==> Pow(m) != 1
    ensures p * (255 / p) == 255
  {
    hide Mul, Doubled;
    var q, r := 255 / p, 255 % p;
    KnownPowers();
    PowMultiple(p, q);
    assert p * q + r == 255;
    PowAdd(p * q, r);
    MulOneLeft(Pow(r));
  }

  lemma PowMultiples(p: nat)
    requires Pow(p) == 1
    ensures Pow(p * 1) == 1 && Pow(p * 3) == 1 && Pow(p * 5) == 1 && Pow(p * 15) == 1
  {
    PowMultiple(p, 1);
    PowMultiple(p, 3);
    PowMultiple(p, 5);
    PowMultiple(p, 15);
  }

  /** No smaller positive power of the generator is one. */
  lemma OrderIs255(n: nat)
    requires 0 < n < 255
    ensures Pow(n) != 1
  {
    if Pow(n) == 1 {
      hide Mul, Doubled;
      var p := LeastPeriod(n);
      LeastPeriodDivides(p);
      ProperDivisors(p, 255 / p);
      KnownPowers();
      PowMultiples(p);
    }
  }

  lemma PowInjective(i: nat, j: nat)
    requires i < j < 255
    ensures Pow(i) != Pow(j)
  {
    hide Double;
    if Pow(i) == Pow(j) {
      DoubledAdd(i, j - i, 1);
      DoubledInjective(i, 1, Pow(j - i));
      OrderIs255(j - i);
    }
  }

  lemma PowPeriodic(n: nat)
    ensures Pow(n + 255) == Pow(n)
  {
    hide Mul, Doubled;
    KnownPowers();
    PowAdd(n, 255);
    MulOneRight(Pow(n));
  }

  lemma ByteValue(a: bv8, b: bv8)
    ensures a as int == b as int ==> a == b
    ensures 0 <= a as int < 256 && (a as int == 0 ==> a == 0)
  {
  }

  /** `a` after the 255 powers of the generator, numbered from zero. */
  function Pigeon(a: bv8, i: nat): int {
    (if i < 255 then Pow(i) as int else a as int) - 1
  }

  lemma PigeonsDiffer(a: bv8, i: nat, j: nat)
    requires i < j < 256
    requires forall k: nat :: k < 255 ==> Pow(k) != a
    ensures Pigeon(a, i) != Pigeon(a, j)
  {
    hide Doubled;
    if j < 255 {
      PowInjective(i, j);
      ByteValue(Pow(i), Pow(j));
    } else {
      ByteValue(Pow(i), a);
    }
  }

  /** Every nonzero byte is a power of the generator: 256 different ones would not fit in 255 values. */
  lemma LogExists(a: bv8) returns (i: nat)
    requires a != 0
    ensures i < 255 && Pow(i) == a
  {
    hide Doubled;
    if forall k: nat :: k < 255 ==> Pow(k) != a {
      var xs := Range(256);
      RangeIsRange(256);
      var f := map k | k in xs :: Pigeon(a, k);
      forall k | k in xs ensures 0 <= f[k] < 255 {
        PowNonzero(k);
        ByteValue(Pow(k), 0);
        ByteValue(a, 0);
      }
      forall k, m | k in xs && m in xs && f[k] == f[m] ensures k == m {
        if k < m {
          PigeonsDiffer(a, k, m);
        } else if m < k {
          PigeonsDiffer(a, m, k);
        }
      }
      InjectionBoundsSize(xs, f, 255);
      assert false;
    }
    i :| i < 255 && Pow(i) == a;
  }

  // ---------------------------------------------------------------------------
  // Field laws
  // ---------------------------------------------------------------------------

  lemma MulCommutative(a: bv8, b: bv8)
    ensures Mul(a, b) == Mul(b, a)
  {
    hide Mul, Doubled;
    MulZero(a);
    MulZero(b);
    if a != 0 && b != 0 {
      var i := LogExists(a);
      var j := LogExists(b);
      PowAdd(i, j);
      PowAdd(j, i);
    }
  }

  lemma MulAssociativeOnPowers(i: nat, j: nat, c: bv8)
    ensures Mul(Mul(Pow(i), Pow(j)), c) == Mul(Pow(i), Mul(Pow(j), c))
  {
    hide Mul, Doubled, Pow;
    PowAdd(i, j);
    MulPow(i + j, c);
    MulPow(j, c);
    MulPow(i, Mul(Pow(j), c));
    DoubledAdd(i, j, c);
  }

  lemma MulAssociative(a: bv8, b: bv8, c: bv8)
    ensures Mul(Mul(a, b), c) == Mul(a, Mul(b, c))
  {
    hide Mul, Doubled, Pow;
    if a == 0 || b == 0 {
      MulZero(a);
      MulZero(b);
      MulZero(c);
      MulZero(Mul(b, c));
    } else {
      var i := LogExists(a);
      var j := LogExists(b);
      MulAssociativeOnPowers(i, j, c);
    }
  }

  lemma NoZeroDivisors(a: bv8, b: bv8)
    ensures Mul(a, b) == 0 <==> a == 0 || b == 0
  {
    hide Mul, Doubled;
    MulZero(a);
    MulZero(b);
    if a != 0 && b != 0 {
      var i := LogExists(a);
      var j := LogExists(b);
      PowAdd(i, j);
      PowNonzero(i + j);
    }
  }
}
