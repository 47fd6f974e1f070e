/** Field multiplication as carry-less multiplication followed by reduction modulo
    0x11D: section 7.5.2 of ISO/IEC 18004:2015. */
module Reduction {
  import opened BitVectors
  import opened Galois

  // ----- the product is carry-less multiplication modulo 0x11D -----

  /** The product of two polynomials over GF(2), coefficients as bits. */
  function CarryLess(p: bv32, y: Byte): bv32
    decreases y.bits
  {
    if y == ZERO then 0 else Accumulate(CarryLess(p, Half(y)), p, y)
  }

  predicate Odd(y: Byte) {
    y.bits & 1 == 1
  }

  /** Horner's rule: what the lowest bit of y adds to the product so far. */
  function Accumulate(c: bv32, p: bv32, y: Byte): bv32 {
    Shifted(c, p, Odd(y))
  }

  function Quotient(x: Byte, y: Byte): Byte
    decreases y.bits
  {
    if y == ZERO then ZERO else NextQuotient(Quotient(x, Half(y)), Mul(x, Half(y)))
  }

  function NextQuotient(h: Byte, m: Byte): Byte {
    Byte((h.bits << 1) | (m.bits >> 7))
  }

  lemma QuotientStep(h: Byte, m: Byte)
    requires h.bits < 128
    ensures Half(NextQuotient(h, m)) == h
    ensures NextQuotient(h, m).bits & 1 == m.bits >> 7
    ensures NextQuotient(h, m) == ZERO <==> h == ZERO && m.bits >> 7 == 0
  {
  }

  /** The quotient of a product by 0x11D has one bit less than the multiplier. */
  lemma {:induction false} QuotientBound(x: Byte, y: Byte, m: Byte)
    requires y.bits <= m.bits && m.bits & (m.bits + 1) == 0
    ensures Quotient(x, y).bits <= Half(m).bits
    decreases y.bits
  {
    if y != ZERO {
      HalfLess(y);
      HalfMask(y, m);
      QuotientBound(x, Half(y), Half(m));
      if Half(y) == ZERO {
        MulOne(x);
      } else {
        QuotientFits(Quotient(x, Half(y)), Mul(x, Half(y)), Half(m));
      }
    }
  }

  lemma HalfMask(y: Byte, m: Byte)
    requires y.bits <= m.bits && m.bits & (m.bits + 1) == 0
    ensures Half(y).bits <= Half(m).bits && Half(m).bits & (Half(m).bits + 1) == 0
  {
  }

  lemma QuotientFits(h: Byte, t: Byte, m: Byte)
    requires m != ZERO && m.bits & (m.bits + 1) == 0 && h.bits <= Half(m).bits
    ensures NextQuotient(h, t).bits <= m.bits
  {
  }

  function Wide(r: Byte): bv32 {
    r.bits as bv32
  }

  function Plus(a: bv32, r: Byte): bv32 {
    Xor(a, Wide(r))
  }

  predicate High(m: Byte) {
    m.bits >> 7 == 1
  }

  lemma WideAdd(a: Byte, b: Byte)
    ensures Wide(Add(a, b)) == Xor(Wide(a), Wide(b))
  {
  }

  lemma WideDouble(m: Byte)
    ensures Wide(Double(m)) == Xor(Shift(Wide(m)), if High(m) then 0x11D else 0)
  {
  }

  lemma WideLowBit(y: Byte, x: Byte)
    ensures Wide(LowBit(y, x)) == if Odd(y) then Wide(x) else 0
  {
    if Odd(y) {
      assert (y.bits & 1) * x.bits == x.bits;
    } else {
      assert (y.bits & 1) * x.bits == 0;
    }
  }

  lemma QuotientOdd(h: Byte, m: Byte)
    ensures Odd(NextQuotient(h, m)) == High(m)
  {
  }

  /** One round of both computations, side by side. */
  lemma CarryLessStep(a: bv32, h: Byte, m: Byte, x: Byte, y: Byte)
    ensures Accumulate(Plus(a, m), Wide(x), y)
         == Plus(Accumulate(a, 0x11D, NextQuotient(h, m)), Add(Double(m), LowBit(y, x)))
  {
    hide NextQuotient, Xor, Shift, Wide, Add, Double, LowBit, Odd, High;
    var (s, d, w) := (Shift(a), Shift(Wide(m)), Wide(LowBit(y, x)));
    var g := if High(m) then 0x11D else 0;
    QuotientOdd(h, m);
    WideLowBit(y, x);
    WideDouble(m);
    WideAdd(Double(m), LowBit(y, x));
    ShiftAdds(a, Wide(m));
    XorOnce(d, g, w);
    XorTwice(s, Xor(d, w), g);
    XorOnce(s, d, w);
  }

  /** Mul(x, y) is what is left of the carry-less product after taking away a
      carry-less multiple of 0x11D. */
  lemma {:induction false} MulIsReducedProduct(x: Byte, y: Byte)
    ensures CarryLess(Wide(x), y) == Plus(CarryLess(0x11D, Quotient(x, y)), Mul(x, y))
    decreases y.bits
  {
    if y != ZERO {
      hide Half, Double, LowBit, Add, Plus, Accumulate, NextQuotient, Wide;
      HalfLess(y);
      var (h, m) := (Quotient(x, Half(y)), Mul(x, Half(y)));
      MulIsReducedProduct(x, Half(y));
      QuotientRange(x, Half(y));
      CarryLessStep(CarryLess(0x11D, h), h, m, x, y);
      CarryLessSplit(h, m);
    }
  }

  /** The quotient of a product has at most seven bits. */
  lemma QuotientRange(x: Byte, y: Byte)
    ensures Quotient(x, y).bits <= 127
  {
    QuotientBound(x, y, Byte(255));
  }

  lemma CarryLessSplit(h: Byte, m: Byte)
    requires h.bits < 128
    ensures CarryLess(0x11D, NextQuotient(h, m))
         == Accumulate(CarryLess(0x11D, h), 0x11D, NextQuotient(h, m))
  {
    hide Half, NextQuotient;
    QuotientStep(h, m);
  }

  // ----- ...and nothing else is -----

  lemma CarryLessNext(p: bv32, y: Byte)
    ensures CarryLess(p, y) == Accumulate(CarryLess(p, Half(y)), p, y)
  {
    if y == ZERO {
      NothingAccumulated(p);
      assert Half(y) == ZERO;
    }
  }

  lemma NothingAccumulated(p: bv32)
    ensures Accumulate(0, p, ZERO) == 0
  {
  }

  lemma HalfAdd(a: Byte, b: Byte)
    ensures Half(Add(a, b)) == Add(Half(a), Half(b))
    ensures Half(a).bits <= a.bits && (a != ZERO ==> Half(a).bits < a.bits)
  {
  }

  lemma AccumulateAdd(c: bv32, d: bv32, p: bv32, a: Byte, b: Byte)
    ensures Accumulate(Xor(c, d), p, Add(a, b)) == Xor(Accumulate(c, p, a), Accumulate(d, p, b))
  {
    hide Xor, Add, Shifted, Odd;
    OddSum(a, b);
    ShiftedAdds(c, d, p, Odd(a), Odd(b));
  }

  lemma OddSum(a: Byte, b: Byte)
    ensures Odd(Add(a, b)) == (Odd(a) != Odd(b))
  {
  }

  /** Multiples add up to multiples. */
  lemma {:induction false} CarryLessAdd(p: bv32, a: Byte, b: Byte)
    ensures CarryLess(p, Add(a, b)) == Xor(CarryLess(p, a), CarryLess(p, b))
    decreases a.bits, b.bits
  {
    hide CarryLess, Half, Add, Accumulate, Xor;
    if a == ZERO {
      AddZero(b);
      CarryLessNothing(p, b);
    } else {
      HalfAdd(a, b);
      CarryLessAdd(p, Half(a), Half(b));
      CarryLessNext(p, a);
      CarryLessNext(p, b);
      CarryLessNext(p, Add(a, b));
      AccumulateAdd(CarryLess(p, Half(a)), CarryLess(p, Half(b)), p, a, b);
    }
  }

  lemma CarryLessNothing(p: bv32, b: Byte)
    ensures CarryLess(p, b) == Xor(CarryLess(p, ZERO), CarryLess(p, b))
  {
  }

  /** No multiple of 0x11D fits eight bits, except 0. */
  lemma {:induction false} MultipleLarge(q: Byte, m: bv32)
    requires q != ZERO && q.bits as bv32 <= m <= 127 && m & (m + 1) == 0
    ensures 0x100 <= CarryLess(0x11D, q) <= (m << 8) | 0xFF
    decreases q.bits
  {
    hide CarryLess, Half, Accumulate;
    CarryLessNext(0x11D, q);
    if q == ONE {
      OneMultiple(m);
    } else {
      HalfMultiple(q, m);
      MultipleLarge(Half(q), m >> 1);
      MultipleNext(CarryLess(0x11D, Half(q)), q, m);
    }
  }

  lemma OneMultiple(m: bv32)
    requires 1 <= m <= 127
    ensures 0x100 <= Accumulate(CarryLess(0x11D, Half(ONE)), 0x11D, ONE) <= (m << 8) | 0xFF
  {
    assert Half(ONE) == ZERO;
  }

  lemma HalfMultiple(q: Byte, m: bv32)
    requires q != ZERO && q != ONE && q.bits as bv32 <= m <= 127 && m & (m + 1) == 0
    ensures Half(q) != ZERO && Half(q).bits < q.bits
    ensures Half(q).bits as bv32 <= m >> 1 <= 127 && (m >> 1) & ((m >> 1) + 1) == 0
  {
  }

  lemma MultipleNext(c: bv32, q: Byte, m: bv32)
    requires 1 < m <= 127 && m & (m + 1) == 0
    requires 0x100 <= c <= ((m >> 1) << 8) | 0xFF
    ensures 0x100 <= Accumulate(c, 0x11D, q) <= (m << 8) | 0xFF
  {
  }

  /** There is only one way to reduce a product to eight bits. */
  lemma ReductionUnique(q: Byte, r: Byte, q': Byte, r': Byte)
    requires q.bits <= 127 && q'.bits <= 127
    requires Plus(CarryLess(0x11D, q), r) == Plus(CarryLess(0x11D, q'), r')
    ensures q == q' && r == r'
  {
    hide CarryLess, Add, Xor, Plus;
    CarryLessAdd(0x11D, q, q');
    AddCancel(q, q');
    Difference(CarryLess(0x11D, q), CarryLess(0x11D, q'), r, r');
    if q != q' {
      SmallSum(q, q');
      MultipleLarge(Add(q, q'), 127);
    }
  }

  lemma SmallSum(a: Byte, b: Byte)
    requires a.bits <= 127 && b.bits <= 127
    ensures Add(a, b).bits <= 127 && Add(a, b).bits as bv32 <= 127
  {
  }

  lemma Difference(c: bv32, d: bv32, r: Byte, r': Byte)
    requires Plus(c, r) == Plus(d, r')
    ensures Xor(c, d) < 0x100 && (c == d ==> r == r')
  {
  }

  /** Mul(x, y) is the carry-less product of x and y modulo 0x11D: the only byte that
      differs from the product by a multiple of 0x11D. */
  lemma ProductIsResidue(x: Byte, y: Byte, r: Byte)
    ensures r == Mul(x, y)
       <==> exists q: Byte :: q.bits <= 127 && CarryLess(Wide(x), y) == Plus(CarryLess(0x11D, q), r)
  {
    hide CarryLess, Mul, Plus, Wide, Quotient;
    MulIsReducedProduct(x, y);
    QuotientRange(x, y);
    forall q: Byte | q.bits <= 127 && CarryLess(Wide(x), y) == Plus(CarryLess(0x11D, q), r)
      ensures r == Mul(x, y)
    {
      ReductionUnique(q, r, Quotient(x, y), Mul(x, y));
    }
  }
}
