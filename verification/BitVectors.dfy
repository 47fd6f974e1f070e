/** Bit strings of 32 bits as polynomials over GF(2): addition is XOR. */
module BitVectors {

  /** ((x >> i) & 1) != 0 */
  predicate GetBit(x: bv32, i: nat)
    requires i < 32
  {
    (x >> i) & 1 != 0
  }

  function Xor(a: bv32, b: bv32): bv32 {
    a ^ b
  }

  lemma XorZero(a: bv32)
    ensures Xor(a, 0) == a && Xor(0, a) == a && Xor(a, a) == 0
  {
  }

  lemma XorOnce(a: bv32, b: bv32, p: bv32)
    ensures Xor(Xor(a, b), p) == Xor(Xor(a, p), b) == Xor(a, Xor(b, p))
  {
  }

  lemma XorTwice(a: bv32, b: bv32, p: bv32)
    ensures Xor(Xor(a, p), Xor(b, p)) == Xor(a, b)
  {
    hide Xor;
    XorZero(p);
    XorZero(Xor(a, b));
    XorOnce(Xor(a, p), b, p);
    XorOnce(a, b, p);
    XorOnce(Xor(a, b), p, p);
  }

  lemma XorSwap(a: bv32, b: bv32, c: bv32, d: bv32)
    ensures Xor(Xor(a, b), Xor(c, d)) == Xor(Xor(a, c), Xor(b, d))
  {
    hide Xor;
    XorOnce(a, b, Xor(c, d));
    XorOnce(b, c, d);
    XorComm(b, c);
    XorOnce(c, b, d);
    XorOnce(a, c, Xor(b, d));
  }

  lemma XorComm(a: bv32, b: bv32)
    ensures Xor(a, b) == Xor(b, a)
  {
  }

  lemma XorEach(a: bv32, b: bv32, p: bv32)
    ensures Xor(Xor(a, b), 0) == Xor(Xor(a, p), Xor(b, p)) == Xor(Xor(a, 0), Xor(b, 0))
    ensures Xor(Xor(a, b), p) == Xor(Xor(a, p), Xor(b, 0)) == Xor(Xor(a, 0), Xor(b, p))
  {
    hide Xor;
    XorZero(a);
    XorZero(b);
    XorZero(Xor(a, b));
    XorTwice(a, b, p);
    XorOnce(a, b, p);
  }

  // ----- one step of a shift register -----

  function Shift(a: bv32): bv32 {
    a << 1
  }

  lemma ShiftAdds(a: bv32, b: bv32)
    ensures Shift(Xor(a, b)) == Xor(Shift(a), Shift(b))
  {
  }

  /** Multiplication by x, with p added if the bit says so. */
  function Shifted(a: bv32, p: bv32, bit: bool): bv32 {
    Xor(Shift(a), if bit then p else 0)
  }

  lemma ShiftedAdds(a: bv32, b: bv32, p: bv32, s: bool, t: bool)
    ensures Shifted(Xor(a, b), p, s != t) == Xor(Shifted(a, p, s), Shifted(b, p, t))
  {
    hide Xor, Shift;
    ShiftAdds(a, b);
    XorEach(Shift(a), Shift(b), p);
  }

  // ----- single bits -----

  lemma XorBitsFrom0(a: bv32, b: bv32)
    ensures GetBit(Xor(a, b), 0) == (GetBit(a, 0) != GetBit(b, 0))
    ensures GetBit(Xor(a, b), 1) == (GetBit(a, 1) != GetBit(b, 1))
    ensures GetBit(Xor(a, b), 2) == (GetBit(a, 2) != GetBit(b, 2))
    ensures GetBit(Xor(a, b), 3) == (GetBit(a, 3) != GetBit(b, 3))
    ensures GetBit(Xor(a, b), 4) == (GetBit(a, 4) != GetBit(b, 4))
    ensures GetBit(Xor(a, b), 5) == (GetBit(a, 5) != GetBit(b, 5))
  {
  }

  lemma XorBitsFrom6(a: bv32, b: bv32)
    ensures GetBit(Xor(a, b), 6) == (GetBit(a, 6) != GetBit(b, 6))
    ensures GetBit(Xor(a, b), 7) == (GetBit(a, 7) != GetBit(b, 7))
    ensures GetBit(Xor(a, b), 8) == (GetBit(a, 8) != GetBit(b, 8))
    ensures GetBit(Xor(a, b), 9) == (GetBit(a, 9) != GetBit(b, 9))
  {
  }

  lemma XorBitsFrom10(a: bv32, b: bv32)
    ensures GetBit(Xor(a, b), 10) == (GetBit(a, 10) != GetBit(b, 10))
    ensures GetBit(Xor(a, b), 11) == (GetBit(a, 11) != GetBit(b, 11))
    ensures GetBit(Xor(a, b), 12) == (GetBit(a, 12) != GetBit(b, 12))
    ensures GetBit(Xor(a, b), 13) == (GetBit(a, 13) != GetBit(b, 13))
  {
  }

  lemma XorBitsFrom14(a: bv32, b: bv32)
    ensures GetBit(Xor(a, b), 14) == (GetBit(a, 14) != GetBit(b, 14))
    ensures GetBit(Xor(a, b), 15) == (GetBit(a, 15) != GetBit(b, 15))
    ensures GetBit(Xor(a, b), 16) == (GetBit(a, 16) != GetBit(b, 16))
    ensures GetBit(Xor(a, b), 17) == (GetBit(a, 17) != GetBit(b, 17))
  {
  }

  lemma XorBit(a: bv32, b: bv32, i: nat)
    requires i < 18
    ensures GetBit(Xor(a, b), i) == (GetBit(a, i) != GetBit(b, i))
  {
    hide GetBit, Xor;
    XorBitsFrom0(a, b);
    XorBitsFrom6(a, b);
    XorBitsFrom10(a, b);
    XorBitsFrom14(a, b);
    assert i == 0 || i == 1 || i == 2 || i == 3 || i == 4 || i == 5 || i == 6 || i == 7 || i == 8 || i == 9 || i == 10
        || i == 11 || i == 12 || i == 13 || i == 14 || i == 15 || i == 16 || i == 17;
  }

  /** The number of ones among the low 18 bits. */
  function Weight(x: bv32): nat {
    One(x, 0) + One(x, 1) + One(x, 2) + One(x, 3) + One(x, 4) + One(x, 5) + One(x, 6) + One(x, 7) + One(x, 8)
    + One(x, 9) + One(x, 10) + One(x, 11) + One(x, 12) + One(x, 13) + One(x, 14) + One(x, 15) + One(x, 16) + One(x, 17)
  }

  function One(x: bv32, i: nat): nat
    requires i < 32
  {
    if GetBit(x, i) then 1 else 0
  }

  // ----- a number as the sum of its bits -----

  function Pick(d: bv32, i: nat, word: bv32): bv32
    requires i < 32
  {
    if GetBit(d, i) then word else 0
  }

  lemma SplitAt0(d: bv32)
    ensures d & 1 == Pick(d, 0, 1)
  {
  }

  lemma SplitAt1(d: bv32)
    ensures d & 3 == Xor(d & 1, Pick(d, 1, 2))
  {
  }

  lemma SplitAt2(d: bv32)
    ensures d & 7 == Xor(d & 3, Pick(d, 2, 4))
  {
  }

  lemma SplitAt3(d: bv32)
    ensures d & 15 == Xor(d & 7, Pick(d, 3, 8))
  {
  }

  lemma SplitAt4(d: bv32)
    ensures d & 31 == Xor(d & 15, Pick(d, 4, 16))
  {
  }

  lemma SplitAt5(d: bv32)
    ensures d & 63 == Xor(d & 31, Pick(d, 5, 32))
  {
  }
}
