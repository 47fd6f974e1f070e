/** The field GF(2^8) modulo x^8 + x^4 + x^3 + x^2 + 1 (0x11D): section 7.5.2 of
    ISO/IEC 18004:2015. Addition is XOR. */
module Galois {

  /** Eight bits, as one value: codewords and field elements. */
  datatype Byte = Byte(bits: bv8)

  const ZERO := Byte(0)
  const ONE := Byte(1)
  const TWO := Byte(2)

  function Add(a: Byte, b: Byte): Byte {
    Byte(a.bits ^ b.bits)
  }

  /** Multiplication by x: shift left, and subtract 0x11D if bit 8 appears. */
  function Double(z: Byte): Byte {
    Byte((z.bits << 1) ^ ((z.bits >> 7) * 0x1D))
  }

  function Half(y: Byte): Byte {
    Byte(y.bits >> 1)
  }

  /** (y & 1) * x */
  function LowBit(y: Byte, x: Byte): Byte {
    Byte((y.bits & 1) * x.bits)
  }

  /** Horner's rule over the bits of y, most significant first. */
  function Mul(x: Byte, y: Byte): Byte
    decreases y.bits
  {
    if y == ZERO then ZERO else Add(Double(Mul(x, Half(y))), LowBit(y, x))
  }

  function Power(x: Byte, n: nat): Byte {
    if n == 0 then ONE else Mul(x, Power(x, n - 1))
  }

  // ----- the loop of the source -----

  /** The product; the accumulator stays within eight bits after every round. */
  method ReedSolomonMultiply(x: Byte, y: Byte) returns (product: Byte)
    ensures product == Mul(x, y)
  {
    hide Mul, Top, LowBit;
    var z: bv32 := 0;
    var i := 7;
    TopEnds(y);
    MulOne(x);
    while i >= 0
      invariant -1 <= i <= 7
      invariant z < 0x100
      invariant Byte(z as bv8) == Mul(x, Top(y, i + 1))
    {
      Round(z, x, y, i);
      z := (z << 1) ^ ((z >> 7) * 0x11D);
      z := z ^ LowBit(Top(y, i), x).bits as bv32;  // ((y >> i) & 1) * x
      i := i - 1;
    }
    product := Byte(z as bv8);
  }

  /** y without its i low bits. */
  function Top(y: Byte, i: nat): Byte
    requires i <= 8
  {
    Byte(y.bits >> i)
  }

  lemma TopEnds(y: Byte)
    ensures Top(y, 8) == ZERO && Top(y, 0) == y
  {
  }

  lemma TopHalf(y: Byte, i: nat)
    requires i < 8
    ensures Half(Top(y, i)) == Top(y, i + 1)
  {
  }

  lemma Round(z: bv32, x: Byte, y: Byte, i: nat)
    requires i < 8 && z < 0x100
    requires Byte(z as bv8) == Mul(x, Top(y, i + 1))
    ensures var reduced := (z << 1) ^ ((z >> 7) * 0x11D);
            var next := reduced ^ LowBit(Top(y, i), x).bits as bv32;
            next < 0x100 && Byte(next as bv8) == Mul(x, Top(y, i))
  {
    hide Mul, Top, Double, Half, LowBit, Add;
    TopHalf(y, i);
    MulStep(x, Top(y, i));
    ReduceStep(z);
    AddStep((z << 1) ^ ((z >> 7) * 0x11D), LowBit(Top(y, i), x));
  }

  lemma ReduceStep(z: bv32)
    requires z < 0x100
    ensures (z << 1) ^ ((z >> 7) * 0x11D) < 0x100
    ensures Byte(((z << 1) ^ ((z >> 7) * 0x11D)) as bv8) == Double(Byte(z as bv8))
  {
  }

  lemma AddStep(z: bv32, b: Byte)
    requires z < 0x100
    ensures z ^ b.bits as bv32 < 0x100
    ensures Byte((z ^ b.bits as bv32) as bv8) == Add(Byte(z as bv8), b)
  {
  }

  lemma MulStep(x: Byte, v: Byte)
    ensures Mul(x, v) == Add(Double(Mul(x, Half(v))), LowBit(v, x))
  {
  }

  // ----- addition -----

  lemma AddComm(a: Byte, b: Byte)
    ensures Add(a, b) == Add(b, a)
  {
  }

  lemma AddAssoc(a: Byte, b: Byte, c: Byte)
    ensures Add(Add(a, b), c) == Add(a, Add(b, c))
  {
  }

  lemma AddZero(a: Byte)
    ensures Add(a, ZERO) == a && Add(ZERO, a) == a && Add(a, a) == ZERO
  {
  }

  lemma AddCancel(a: Byte, b: Byte)
    ensures Add(a, Add(a, b)) == b
    ensures Add(a, b) == ZERO <==> a == b
  {
  }

  lemma AddSwap(a: Byte, b: Byte, c: Byte, d: Byte)
    ensures Add(Add(a, b), Add(c, d)) == Add(Add(a, c), Add(b, d))
  {
    hide Add;
    AddAssoc(a, b, Add(c, d));
    AddAssoc(b, c, d);
    AddComm(b, c);
    AddAssoc(c, b, d);
    AddAssoc(a, c, Add(b, d));
  }

  // ----- one step of the multiplication -----

  lemma DoubleAdd(a: Byte, b: Byte)
    ensures Double(Add(a, b)) == Add(Double(a), Double(b))
  {
  }

  lemma LowBitAdd(a: Byte, b: Byte, y: Byte)
    ensures LowBit(y, Add(a, b)) == Add(LowBit(y, a), LowBit(y, b))
    ensures LowBit(y, Double(a)) == Double(LowBit(y, a))
  {
    assert Double(ZERO) == ZERO;
    hide Add, Double, LowBit;
    LowBitMul(y, Add(a, b));
    LowBitMul(y, a);
    LowBitMul(y, b);
    LowBitMul(y, Double(a));
    AddZero(ZERO);
  }

  lemma LowBitMul(y: Byte, a: Byte)
    ensures LowBit(y, a) == if y.bits & 1 == 1 then a else ZERO
  {
  }

  lemma HalfLess(y: Byte)
    ensures y != ZERO ==> Half(y).bits < y.bits
    ensures Add(Double(Half(y)), LowBit(y, ONE)) == y
  {
  }

  // ----- multiplication is bilinear, commutative and associative -----

  lemma {:induction false} MulOne(x: Byte)
    ensures Mul(x, ONE) == x && Mul(ONE, x) == x
    ensures Mul(x, ZERO) == ZERO && Mul(ZERO, x) == ZERO
    decreases x.bits
  {
    MulFacts(x);
    hide Add, Double, LowBit, Half;
    if x != ZERO {
      HalfLess(x);
      MulOne(Half(x));
      LowBitMul(x, ONE);
      LowBitMul(x, ZERO);
    }
  }

  lemma MulFacts(x: Byte)
    ensures Double(ZERO) == ZERO && Half(ONE) == ZERO && LowBit(ONE, x) == x
    ensures Add(ZERO, x) == x && Add(ZERO, ZERO) == ZERO
  {
  }

  lemma {:induction false} MulAddLeft(a: Byte, b: Byte, y: Byte)
    ensures Mul(Add(a, b), y) == Add(Mul(a, y), Mul(b, y))
    decreases y.bits
  {
    hide Add, Double, LowBit, Half;
    AddZero(ZERO);
    if y != ZERO {
      HalfLess(y);
      MulAddLeft(a, b, Half(y));
      DoubleAdd(Mul(a, Half(y)), Mul(b, Half(y)));
      LowBitAdd(a, b, y);
      AddSwap(Double(Mul(a, Half(y))), Double(Mul(b, Half(y))), LowBit(y, a), LowBit(y, b));
    }
  }

  lemma {:induction false} MulDoubleLeft(x: Byte, y: Byte)
    ensures Mul(Double(x), y) == Double(Mul(x, y))
    decreases y.bits
  {
    hide Add, LowBit, Half;
    if y != ZERO {
      HalfLess(y);
      MulDoubleLeft(x, Half(y));
      LowBitAdd(x, x, y);
      DoubleAdd(Double(Mul(x, Half(y))), LowBit(y, x));
    }
  }

  lemma {:induction false} MulComm(x: Byte, y: Byte)
    ensures Mul(x, y) == Mul(y, x)
    decreases y.bits
  {
    hide Add, Double, LowBit, Half;
    MulOne(x);
    if y != ZERO {
      HalfLess(y);
      MulComm(x, Half(y));
      MulAddLeft(Double(Half(y)), LowBit(y, ONE), x);
      MulDoubleLeft(Half(y), x);
      LowBitMul(y, ONE);
      LowBitMul(y, x);
    }
  }

  lemma MulAddRight(x: Byte, a: Byte, b: Byte)
    ensures Mul(x, Add(a, b)) == Add(Mul(x, a), Mul(x, b))
  {
    hide Add, Mul;
    MulAddLeft(a, b, x);
    MulComm(x, Add(a, b));
    MulComm(x, a);
    MulComm(x, b);
  }

  lemma {:induction false} MulAssoc(x: Byte, y: Byte, z: Byte)
    ensures Mul(Mul(x, y), z) == Mul(x, Mul(y, z))
    decreases z.bits
  {
    hide Add, Double, LowBit, Half;
    MulOne(x);
    if z != ZERO {
      HalfLess(z);
      MulAssoc(x, y, Half(z));
      MulAddRight(x, Double(Mul(y, Half(z))), LowBit(z, y));
      MulComm(x, Double(Mul(y, Half(z))));
      MulDoubleLeft(Mul(y, Half(z)), x);
      MulComm(Mul(y, Half(z)), x);
      LowBitMul(z, y);
      LowBitMul(z, Mul(x, y));
    }
  }

  // ----- powers -----

  lemma {:induction false} PowerAdd(x: Byte, m: nat, n: nat)
    ensures Power(x, m + n) == Mul(Power(x, m), Power(x, n))
  {
    hide Mul;
    if m == 0 {
      MulOne(Power(x, n));
    } else {
      PowerAdd(x, m - 1, n);
      MulAssoc(x, Power(x, m - 1), Power(x, n));
    }
  }

  lemma {:induction false} PowerMul(x: Byte, y: Byte, n: nat)
    ensures Power(Mul(x, y), n) == Mul(Power(x, n), Power(y, n))
  {
    hide Mul;
    MulOne(ONE);
    if n > 0 {
      var (p, q) := (Power(x, n - 1), Power(y, n - 1));
      PowerMul(x, y, n - 1);
      MulAssoc(x, y, Mul(p, q));
      MulAssoc(y, p, q);
      MulComm(y, p);
      MulAssoc(p, y, q);
      MulAssoc(x, p, Mul(y, q));
    }
  }

  // ----- the powers of 2 are all the nonzero bytes -----

  lemma PowerNext(n: nat)
    ensures Power(TWO, 0) == ONE && Power(TWO, n + 1) == Double(Power(TWO, n))
  {
    var z := Power(TWO, n);
    assert Mul(z, TWO) == Add(Double(Mul(z, Half(TWO))), LowBit(TWO, z));
    assert Half(TWO) == ONE;
    hide Double, Add, LowBit, Half;
    MulComm(TWO, z);
    LowBitMul(TWO, z);
    MulOne(z);
    AddZero(Double(z));
  }

  function Double5(z: Byte): Byte {
    Double(Double(Double(Double(Double(z)))))
  }

  function Double17(z: Byte): Byte {
    Double(Double(Double5(Double5(Double5(z)))))
  }

  lemma Power5(n: nat)
    ensures Power(TWO, n + 5) == Double5(Power(TWO, n))
  {
    hide Double, Power;
    PowerNext(n);
    PowerNext(n + 1);
    PowerNext(n + 2);
    PowerNext(n + 3);
    PowerNext(n + 4);
  }

  lemma Power17(n: nat)
    ensures Power(TWO, n + 17) == Double17(Power(TWO, n))
  {
    hide Double, Double5, Power;
    Power5(n);
    Power5(n + 5);
    Power5(n + 10);
    PowerNext(n + 15);
    PowerNext(n + 16);
  }

  /** Every seventeenth power of 2, up to 2^255. */
  const POWERS: seq<Byte> := [
    Byte(1), Byte(152), Byte(78), Byte(10), Byte(153), Byte(214), Byte(68), Byte(147),
    Byte(79), Byte(146), Byte(215), Byte(220), Byte(221), Byte(69), Byte(11), Byte(1)
  ]

  lemma Doublings(k: nat)
    requires k < 15
    ensures POWERS[k + 1] == Double17(POWERS[k])
  {
    hide Double17;
    if k < 8 {
      FirstDoublings();
    } else {
      LastDoublings();
    }
    assert k == 0 || k == 1 || k == 2 || k == 3 || k == 4 || k == 5 || k == 6 || k == 7 || k == 8 || k == 9 || k == 10
        || k == 11 || k == 12 || k == 13 || k == 14;
  }

  lemma FirstDoublings()
    ensures Double17(Byte(1)) == Byte(152) && Double17(Byte(152)) == Byte(78)
    ensures Double17(Byte(78)) == Byte(10) && Double17(Byte(10)) == Byte(153)
    ensures Double17(Byte(153)) == Byte(214) && Double17(Byte(214)) == Byte(68)
    ensures Double17(Byte(68)) == Byte(147) && Double17(Byte(147)) == Byte(79)
  {
  }

  lemma LastDoublings()
    ensures Double17(Byte(79)) == Byte(146) && Double17(Byte(146)) == Byte(215)
    ensures Double17(Byte(215)) == Byte(220) && Double17(Byte(220)) == Byte(221)
    ensures Double17(Byte(221)) == Byte(69) && Double17(Byte(69)) == Byte(11) && Double17(Byte(11)) == Byte(1)
  {
  }

  lemma {:induction false} EverySeventeenth(k: nat)
    requires k <= 15
    ensures Power(TWO, 17 * k) == POWERS[k]
  {
    hide Double17, Power;
    PowerNext(0);
    if k > 0 {
      EverySeventeenth(k - 1);
      Doublings(k - 1);
      Power17(17 * (k - 1));
    }
  }

  lemma FifteenthPower()
    ensures Power(TWO, 15) != ONE
  {
    assert Double5(Double5(Double5(ONE))) == Byte(38);
    hide Double5, Power;
    PowerNext(0);
    Power5(0);
    Power5(5);
    Power5(10);
  }

  lemma PowersOfTwo()
    ensures Power(TWO, 255) == ONE
    ensures Power(TWO, 15) != ONE && Power(TWO, 51) != ONE && Power(TWO, 85) != ONE
  {
    assert POWERS[3] == Byte(10) && POWERS[5] == Byte(214) && POWERS[15] == ONE;
    hide Power;
    EverySeventeenth(15);
    EverySeventeenth(5);
    EverySeventeenth(3);
    FifteenthPower();
  }

  lemma {:induction false} PowerOfOne(k: nat, q: nat)
    requires Power(TWO, k) == ONE
    ensures Power(TWO, q * k) == ONE
  {
    hide Mul;
    if q > 0 {
      PowerOfOne(k, q - 1);
      PowerAdd(TWO, k, (q - 1) * k);
      MulOne(ONE);
    }
  }

  /** No smaller power of 2 is 1: the least such exponent would divide 255, and
      then 85, 51 or 15. */
  lemma {:induction false} OrderOfTwo(k: nat)
    requires 0 < k < 255
    ensures Power(TWO, k) != ONE
  {
    hide Mul, Power;
    PowersOfTwo();
    if Power(TWO, k) == ONE {
      var r := 255 % k;
      var q := 255 / k;
      assert 255 == q * k + r;
      PowerOfOne(k, q);
      PowerAdd(TWO, q * k, r);
      MulOne(Power(TWO, r));
      if r > 0 {
        OrderOfTwo(r);
      } else {
        DivisorsOf255(k, q);
        var m :| m in {15, 51, 85} && m % k == 0;
        PowerOfOne(k, m / k);
      }
    }
  }

  lemma DivisorsOf255(k: nat, q: nat)
    requires 0 < k < 255 && 255 == q * k
    ensures 15 % k == 0 || 51 % k == 0 || 85 % k == 0
  {
    if k <= 15 {
      SmallDivisor(k, q);
    } else if q <= 15 {
      SmallDivisor(q, k);
    } else {
      TooLarge(q, k);
    }
  }

  lemma SmallDivisor(k: nat, q: nat)
    requires 0 < k <= 15 && 255 == q * k
    ensures k == 1 || k == 3 || k == 5 || k == 15
    ensures k == 1 ==> q == 255
    ensures k == 3 ==> q == 85
    ensures k == 5 ==> q == 51
    ensures k == 15 ==> q == 17
  {
    assert k == 1 || k == 2 || k == 3 || k == 4 || k == 5 || k == 6 || k == 7 || k == 8 || k == 9 || k == 10 || k == 11
        || k == 12 || k == 13 || k == 14 || k == 15;
  }

  lemma TooLarge(q: nat, k: nat)
    requires q > 15 && k > 15
    ensures q * k > 255
  {
    assert (q - 16) * (k - 16) >= 0;
  }

  /** Powers of 2 below exponent 255 are pairwise different. */
  lemma PowersDistinct(i: nat, j: nat)
    requires i < j < 255
    ensures Power(TWO, i) != Power(TWO, j)
  {
    hide Mul, Power;
    OrderOfTwo(j - i);
    PowerAdd(TWO, i, j - i);
    PowerInverse(i);
    if Power(TWO, i) == Power(TWO, j) {
      MulAssoc(Power(TWO, 255 - i), Power(TWO, i), Power(TWO, j - i));
      MulOne(Power(TWO, j - i));
    }
  }

  lemma PowerInverse(i: nat)
    requires i <= 255
    ensures Mul(Power(TWO, 255 - i), Power(TWO, i)) == ONE
    ensures Power(TWO, i) != ZERO
  {
    hide Mul, Power;
    PowersOfTwo();
    PowerAdd(TWO, 255 - i, i);
    MulOne(Power(TWO, 255 - i));
  }

  ghost function PowerSet(n: nat): set<Byte> {
    set i | 0 <= i < n :: Power(TWO, i)
  }

  lemma {:induction false} PowerSetSize(n: nat)
    requires n <= 255
    ensures |PowerSet(n)| == n
  {
    hide Power;
    if n > 0 {
      PowerSetSize(n - 1);
      assert PowerSet(n) == PowerSet(n - 1) + {Power(TWO, n - 1)};
      forall i | 0 <= i < n - 1
        ensures Power(TWO, i) != Power(TWO, n - 1)
      {
        PowersDistinct(i, n - 1);
      }
    }
  }

  lemma {:induction false} BytesBelow(s: set<Byte>, n: nat)
    requires n <= 256
    requires forall v | v in s :: v.bits as nat < n
    ensures |s| <= n
  {
    if n > 0 {
      var top := Byte((n - 1) as bv8);
      forall v | v in s - {top}
        ensures v.bits as nat < n - 1
      {
        BelowTop(v, n);
      }
      BytesBelow(s - {top}, n - 1);
    } else {
      NothingBelowZero(s);
    }
  }

  lemma BelowTop(v: Byte, n: nat)
    requires n <= 256 && v.bits as nat < n && v != Byte((n - 1) as bv8)
    ensures v.bits as nat < n - 1
  {
    assert v.bits == (v.bits as nat) as bv8;
  }

  lemma NothingBelowZero(s: set<Byte>)
    requires forall v | v in s :: v.bits as nat < 0
    ensures s == {}
  {
    forall v: Byte
      ensures v !in s
    {
      assert v.bits as nat >= 0;
    }
  }

  /** Counting: 255 different powers leave no room for another nonzero byte. */
  lemma NonzeroIsPower(x: Byte) returns (i: nat)
    requires x != ZERO
    ensures i < 255 && Power(TWO, i) == x
  {
    hide Power;
    var s := PowerSet(255);
    PowerSetSize(255);
    if ZERO in s {
      var k :| 0 <= k < 255 && Power(TWO, k) == ZERO;
      PowerInverse(k);
    }
    if x !in s {
      assert |s + {ZERO} + {x}| == 257;
      BytesBelow(s + {ZERO} + {x}, 256);
    }
    i :| 0 <= i < 255 && Power(TWO, i) == x;
  }

  lemma Inverse(x: Byte) returns (y: Byte)
    requires x != ZERO
    ensures Mul(y, x) == ONE
  {
    var i := NonzeroIsPower(x);
    PowerInverse(i);
    y := Power(TWO, 255 - i);
  }

  lemma NoZeroDivisors(x: Byte, y: Byte)
    ensures Mul(x, y) == ZERO <==> x == ZERO || y == ZERO
  {
    hide Mul;
    MulOne(x);
    MulOne(y);
    if x != ZERO && Mul(x, y) == ZERO {
      var z := Inverse(x);
      MulAssoc(z, x, y);
      MulOne(z);
    }
  }
}
