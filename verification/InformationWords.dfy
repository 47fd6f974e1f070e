/** The redundancy of format and version information: annexes C and D of
    ISO/IEC 18004:2015. */
module InformationWords {
  import opened BitVectors
  import opened FunctionPatterns
  import opened Tables

  // ----- format -----

  lemma FormatStepSmall(a: bv32)
    requires a < 1024
    ensures NextFormatRemainder(a) < 1024
  {
  }

  lemma {:induction false} FormatRemainderSmall(data: bv32, n: nat)
    requires data < 1024
    ensures FormatRemainder(data, n) < 1024
  {
    hide NextFormatRemainder;
    if n > 0 {
      FormatRemainderSmall(data, n - 1);
      FormatStepSmall(FormatRemainder(data, n - 1));
    }
  }

  lemma FormatStepIs(a: bv32)
    requires a < 1024
    ensures NextFormatRemainder(a) == Shifted(a, 0x537, GetBit(a, 9))
  {
  }

  lemma FormatSumSmall(a: bv32, b: bv32)
    requires a < 1024 && b < 1024
    ensures Xor(a, b) < 1024
  {
  }

  lemma FormatStepAdds(a: bv32, b: bv32)
    requires a < 1024 && b < 1024
    ensures NextFormatRemainder(Xor(a, b)) == Xor(NextFormatRemainder(a), NextFormatRemainder(b))
  {
    hide NextFormatRemainder, Xor, Shifted, GetBit;
    FormatSumSmall(a, b);
    XorBitsFrom6(a, b);
    FormatStepIs(a);
    FormatStepIs(b);
    FormatStepIs(Xor(a, b));
    ShiftedAdds(a, b, 0x537, GetBit(a, 9), GetBit(b, 9));
  }

  /** The remainder is linear. */
  lemma {:induction false} FormatRemainderAdds(a: bv32, b: bv32, n: nat)
    requires a < 1024 && b < 1024
    ensures FormatRemainder(Xor(a, b), n) == Xor(FormatRemainder(a, n), FormatRemainder(b, n))
  {
    hide NextFormatRemainder, Xor;
    if n > 0 {
      FormatRemainderAdds(a, b, n - 1);
      FormatRemainderSmall(a, n - 1);
      FormatRemainderSmall(b, n - 1);
      FormatStepAdds(FormatRemainder(a, n - 1), FormatRemainder(b, n - 1));
    }
  }

  function FormatHigh(d: bv32): bv32 {
    d << 10
  }

  lemma FormatHighAdds(a: bv32, b: bv32)
    ensures FormatHigh(Xor(a, b)) == Xor(FormatHigh(a), FormatHigh(b))
  {
  }

  function FormatJoin(d: bv32, rem: bv32): bv32 {
    Xor(FormatHigh(d), rem)
  }

  /** Data bits with their redundancy. */
  function FormatCode(d: bv32): bv32 {
    FormatJoin(d, FormatRemainder(d, 10))
  }

  lemma FormatJoinAdds(a: bv32, b: bv32, ra: bv32, rb: bv32)
    ensures FormatJoin(Xor(a, b), Xor(ra, rb)) == Xor(FormatJoin(a, ra), FormatJoin(b, rb))
  {
    hide Xor, FormatHigh;
    FormatHighAdds(a, b);
    XorSwap(FormatHigh(a), FormatHigh(b), ra, rb);
  }

  lemma FormatCodeAdds(a: bv32, b: bv32)
    requires a < 32 && b < 32
    ensures FormatCode(Xor(a, b)) == Xor(FormatCode(a), FormatCode(b))
  {
    hide FormatJoin, FormatRemainder, Xor;
    FormatRemainderAdds(a, b, 10);
    FormatJoinAdds(a, b, FormatRemainder(a, 10), FormatRemainder(b, 10));
  }

  lemma FormatRemainder0(n: nat)
    ensures FormatRemainder(0, n) == 0
  {
  }

  lemma FormatBasis0()
    ensures FormatCode(0) == 0
  {
    FormatRemainder0(10);
    hide FormatRemainder;
  }

  lemma FormatRemainder1()
    ensures FormatRemainder(1, 10) == 0x137
  {
    assert FormatRemainder(1, 3) == 0x8;
    assert FormatRemainder(1, 6) == 0x40;
    assert FormatRemainder(1, 9) == 0x200;
  }

  lemma FormatBasis1()
    ensures FormatCode(1) == 0x537
  {
    hide FormatRemainder;
    FormatRemainder1();
  }

  lemma FormatRemainder2()
    ensures FormatRemainder(2, 10) == 0x26E
  {
    assert FormatRemainder(2, 3) == 0x10;
    assert FormatRemainder(2, 6) == 0x80;
    assert FormatRemainder(2, 9) == 0x137;
  }

  lemma FormatBasis2()
    ensures FormatCode(2) == 0xA6E
  {
    hide FormatRemainder;
    FormatRemainder2();
  }

  lemma FormatRemainder4()
    ensures FormatRemainder(4, 10) == 0x1EB
  {
    assert FormatRemainder(4, 3) == 0x20;
    assert FormatRemainder(4, 6) == 0x100;
    assert FormatRemainder(4, 9) == 0x26E;
  }

  lemma FormatBasis4()
    ensures FormatCode(4) == 0x11EB
  {
    hide FormatRemainder;
    FormatRemainder4();
  }

  lemma FormatRemainder8()
    ensures FormatRemainder(8, 10) == 0x3D6
  {
    assert FormatRemainder(8, 3) == 0x40;
    assert FormatRemainder(8, 6) == 0x200;
    assert FormatRemainder(8, 9) == 0x1EB;
  }

  lemma FormatBasis8()
    ensures FormatCode(8) == 0x23D6
  {
    hide FormatRemainder;
    FormatRemainder8();
  }

  lemma FormatRemainder16()
    ensures FormatRemainder(16, 10) == 0x29B
  {
    assert FormatRemainder(16, 3) == 0x80;
    assert FormatRemainder(16, 6) == 0x137;
    assert FormatRemainder(16, 9) == 0x3D6;
  }

  lemma FormatBasis16()
    ensures FormatCode(16) == 0x429B
  {
    hide FormatRemainder;
    FormatRemainder16();
  }

  /** The code word that the basis gives. */
  function FormatCombined(d: bv32): bv32 {
    var low := Xor(Xor(Pick(d, 0, 0x537), Pick(d, 1, 0xA6E)), Pick(d, 2, 0x11EB));
    Xor(Xor(low, Pick(d, 3, 0x23D6)), Pick(d, 4, 0x429B))
  }

  lemma FormatHeavyTo16(d: bv32)
    requires 0 < d < 16
    ensures Weight(FormatCombined(d)) >= 7
  {
  }

  lemma FormatHeavyFrom16(d: bv32)
    requires 16 <= d < 32
    ensures Weight(FormatCombined(d)) >= 7
  {
  }

  lemma FormatHeavy(d: bv32)
    requires 0 < d < 32
    ensures Weight(FormatCombined(d)) >= 7
  {
    hide Weight, FormatCombined;
    if d < 16 {
      FormatHeavyTo16(d);
    } else {
      FormatHeavyFrom16(d);
    }
  }

  lemma FormatPickCode(d: bv32, i: nat, bit: bv32, word: bv32)
    requires i < 32 && FormatCode(bit) == word
    ensures FormatCode(Pick(d, i, bit)) == Pick(d, i, word)
  {
    hide FormatCode, GetBit;
    FormatBasis0();
  }

  lemma FormatPartsSmall(d: bv32)
    requires d < 32
    ensures d & 31 == d
    ensures d & 1 < 32 && d & 3 < 32 && d & 7 < 32 && d & 15 < 32
    ensures Pick(d, 1, 2) < 32 && Pick(d, 2, 4) < 32 && Pick(d, 3, 8) < 32 && Pick(d, 4, 16) < 32
  {
    hide GetBit;
  }

  /** Every code word is the sum of those of its data bits. */
  lemma FormatCodeCombined(d: bv32)
    requires d < 32
    ensures FormatCode(d) == FormatCombined(d)
  {
    hide FormatCode, Xor, Pick;
    FormatPartsSmall(d);
    FormatBasis1();
    FormatPickCode(d, 0, 1, 0x537);
    SplitAt0(d);
    FormatBasis2();
    FormatPickCode(d, 1, 2, 0xA6E);
    FormatCodeAdds(d & 1, Pick(d, 1, 2));
    SplitAt1(d);
    FormatBasis4();
    FormatPickCode(d, 2, 4, 0x11EB);
    FormatCodeAdds(d & 3, Pick(d, 2, 4));
    SplitAt2(d);
    FormatBasis8();
    FormatPickCode(d, 3, 8, 0x23D6);
    FormatCodeAdds(d & 7, Pick(d, 3, 8));
    SplitAt3(d);
    FormatBasis16();
    FormatPickCode(d, 4, 16, 0x429B);
    FormatCodeAdds(d & 15, Pick(d, 4, 16));
    SplitAt4(d);
  }

  lemma FormatSumNonzero(a: bv32, b: bv32)
    requires a < 32 && b < 32 && a != b
    ensures 0 < Xor(a, b) < 32
  {
  }

  /** Code words of different data differ in at least 7 bits. */
  lemma FormatCodesFarApart(a: bv32, b: bv32)
    requires a < 32 && b < 32 && a != b
    ensures Weight(Xor(FormatCode(a), FormatCode(b))) >= 7
  {
    hide FormatCode, Xor, Weight, FormatCombined;
    FormatSumNonzero(a, b);
    FormatCodeAdds(a, b);
    FormatCodeCombined(Xor(a, b));
    FormatHeavy(Xor(a, b));
  }

  // ----- version -----

  lemma VersionStepSmall(a: bv32)
    requires a < 4096
    ensures NextVersionRemainder(a) < 4096
  {
  }

  lemma {:induction false} VersionRemainderSmall(data: bv32, n: nat)
    requires data < 4096
    ensures VersionRemainder(data, n) < 4096
  {
    hide NextVersionRemainder;
    if n > 0 {
      VersionRemainderSmall(data, n - 1);
      VersionStepSmall(VersionRemainder(data, n - 1));
    }
  }

  lemma VersionStepIs(a: bv32)
    requires a < 4096
    ensures NextVersionRemainder(a) == Shifted(a, 0x1F25, GetBit(a, 11))
  {
  }

  lemma VersionSumSmall(a: bv32, b: bv32)
    requires a < 4096 && b < 4096
    ensures Xor(a, b) < 4096
  {
  }

  lemma VersionStepAdds(a: bv32, b: bv32)
    requires a < 4096 && b < 4096
    ensures NextVersionRemainder(Xor(a, b)) == Xor(NextVersionRemainder(a), NextVersionRemainder(b))
  {
    hide NextVersionRemainder, Xor, Shifted, GetBit;
    VersionSumSmall(a, b);
    XorBitsFrom10(a, b);
    VersionStepIs(a);
    VersionStepIs(b);
    VersionStepIs(Xor(a, b));
    ShiftedAdds(a, b, 0x1F25, GetBit(a, 11), GetBit(b, 11));
  }

  /** The remainder is linear. */
  lemma {:induction false} VersionRemainderAdds(a: bv32, b: bv32, n: nat)
    requires a < 4096 && b < 4096
    ensures VersionRemainder(Xor(a, b), n) == Xor(VersionRemainder(a, n), VersionRemainder(b, n))
  {
    hide NextVersionRemainder, Xor;
    if n > 0 {
      VersionRemainderAdds(a, b, n - 1);
      VersionRemainderSmall(a, n - 1);
      VersionRemainderSmall(b, n - 1);
      VersionStepAdds(VersionRemainder(a, n - 1), VersionRemainder(b, n - 1));
    }
  }

  function VersionHigh(d: bv32): bv32 {
    d << 12
  }

  lemma VersionHighAdds(a: bv32, b: bv32)
    ensures VersionHigh(Xor(a, b)) == Xor(VersionHigh(a), VersionHigh(b))
  {
  }

  function VersionJoin(d: bv32, rem: bv32): bv32 {
    Xor(VersionHigh(d), rem)
  }

  /** Data bits with their redundancy. */
  function VersionCode(d: bv32): bv32 {
    VersionJoin(d, VersionRemainder(d, 12))
  }

  lemma VersionJoinAdds(a: bv32, b: bv32, ra: bv32, rb: bv32)
    ensures VersionJoin(Xor(a, b), Xor(ra, rb)) == Xor(VersionJoin(a, ra), VersionJoin(b, rb))
  {
    hide Xor, VersionHigh;
    VersionHighAdds(a, b);
    XorSwap(VersionHigh(a), VersionHigh(b), ra, rb);
  }

  lemma VersionCodeAdds(a: bv32, b: bv32)
    requires a < 64 && b < 64
    ensures VersionCode(Xor(a, b)) == Xor(VersionCode(a), VersionCode(b))
  {
    hide VersionJoin, VersionRemainder, Xor;
    VersionRemainderAdds(a, b, 12);
    VersionJoinAdds(a, b, VersionRemainder(a, 12), VersionRemainder(b, 12));
  }

  lemma VersionRemainder0(n: nat)
    ensures VersionRemainder(0, n) == 0
  {
  }

  lemma VersionBasis0()
    ensures VersionCode(0) == 0
  {
    VersionRemainder0(12);
    hide VersionRemainder;
  }

  lemma VersionRemainder1()
    ensures VersionRemainder(1, 12) == 0xF25
  {
    assert VersionRemainder(1, 3) == 0x8;
    assert VersionRemainder(1, 6) == 0x40;
    assert VersionRemainder(1, 9) == 0x200;
  }

  lemma VersionBasis1()
    ensures VersionCode(1) == 0x1F25
  {
    hide VersionRemainder;
    VersionRemainder1();
  }

  lemma VersionRemainder2()
    ensures VersionRemainder(2, 12) == 0x16F
  {
    assert VersionRemainder(2, 3) == 0x10;
    assert VersionRemainder(2, 6) == 0x80;
    assert VersionRemainder(2, 9) == 0x400;
  }

  lemma VersionBasis2()
    ensures VersionCode(2) == 0x216F
  {
    hide VersionRemainder;
    VersionRemainder2();
  }

  lemma VersionRemainder4()
    ensures VersionRemainder(4, 12) == 0x2DE
  {
    assert VersionRemainder(4, 3) == 0x20;
    assert VersionRemainder(4, 6) == 0x100;
    assert VersionRemainder(4, 9) == 0x800;
  }

  lemma VersionBasis4()
    ensures VersionCode(4) == 0x42DE
  {
    hide VersionRemainder;
    VersionRemainder4();
  }

  lemma VersionRemainder8()
    ensures VersionRemainder(8, 12) == 0x5BC
  {
    assert VersionRemainder(8, 3) == 0x40;
    assert VersionRemainder(8, 6) == 0x200;
    assert VersionRemainder(8, 9) == 0xF25;
  }

  lemma VersionBasis8()
    ensures VersionCode(8) == 0x85BC
  {
    hide VersionRemainder;
    VersionRemainder8();
  }

  lemma VersionRemainder16()
    ensures VersionRemainder(16, 12) == 0xB78
  {
    assert VersionRemainder(16, 3) == 0x80;
    assert VersionRemainder(16, 6) == 0x400;
    assert VersionRemainder(16, 9) == 0x16F;
  }

  lemma VersionBasis16()
    ensures VersionCode(16) == 0x10B78
  {
    hide VersionRemainder;
    VersionRemainder16();
  }

  lemma VersionRemainder32()
    ensures VersionRemainder(32, 12) == 0x9D5
  {
    assert VersionRemainder(32, 3) == 0x100;
    assert VersionRemainder(32, 6) == 0x800;
    assert VersionRemainder(32, 9) == 0x2DE;
  }

  lemma VersionBasis32()
    ensures VersionCode(32) == 0x209D5
  {
    hide VersionRemainder;
    VersionRemainder32();
  }

  /** The code word that the basis gives. */
  function VersionCombined(d: bv32): bv32 {
    var low := Xor(Xor(Pick(d, 0, 0x1F25), Pick(d, 1, 0x216F)), Pick(d, 2, 0x42DE));
    Xor(Xor(Xor(low, Pick(d, 3, 0x85BC)), Pick(d, 4, 0x10B78)), Pick(d, 5, 0x209D5))
  }

  lemma VersionHeavyTo32(d: bv32)
    requires 0 < d < 32
    ensures Weight(VersionCombined(d)) >= 8
  {
  }

  lemma VersionHeavyFrom32(d: bv32)
    requires 32 <= d < 64
    ensures Weight(VersionCombined(d)) >= 8
  {
  }

  lemma VersionHeavy(d: bv32)
    requires 0 < d < 64
    ensures Weight(VersionCombined(d)) >= 8
  {
    hide Weight, VersionCombined;
    if d < 32 {
      VersionHeavyTo32(d);
    } else {
      VersionHeavyFrom32(d);
    }
  }

  lemma VersionPickCode(d: bv32, i: nat, bit: bv32, word: bv32)
    requires i < 32 && VersionCode(bit) == word
    ensures VersionCode(Pick(d, i, bit)) == Pick(d, i, word)
  {
    hide VersionCode, GetBit;
    VersionBasis0();
  }

  lemma VersionPartsSmall(d: bv32)
    requires d < 64
    ensures d & 63 == d
    ensures d & 1 < 64 && d & 3 < 64 && d & 7 < 64 && d & 15 < 64 && d & 31 < 64
    ensures Pick(d, 1, 2) < 64 && Pick(d, 2, 4) < 64 && Pick(d, 3, 8) < 64 && Pick(d, 4, 16) < 64 && Pick(d, 5, 32) < 64
  {
    hide GetBit;
  }

  /** Every code word is the sum of those of its data bits. */
  lemma VersionCodeCombined(d: bv32)
    requires d < 64
    ensures VersionCode(d) == VersionCombined(d)
  {
    hide VersionCode, Xor, Pick;
    VersionPartsSmall(d);
    VersionBasis1();
    VersionPickCode(d, 0, 1, 0x1F25);
    SplitAt0(d);
    VersionBasis2();
    VersionPickCode(d, 1, 2, 0x216F);
    VersionCodeAdds(d & 1, Pick(d, 1, 2));
    SplitAt1(d);
    VersionBasis4();
    VersionPickCode(d, 2, 4, 0x42DE);
    VersionCodeAdds(d & 3, Pick(d, 2, 4));
    SplitAt2(d);
    VersionBasis8();
    VersionPickCode(d, 3, 8, 0x85BC);
    VersionCodeAdds(d & 7, Pick(d, 3, 8));
    SplitAt3(d);
    VersionBasis16();
    VersionPickCode(d, 4, 16, 0x10B78);
    VersionCodeAdds(d & 15, Pick(d, 4, 16));
    SplitAt4(d);
    VersionBasis32();
    VersionPickCode(d, 5, 32, 0x209D5);
    VersionCodeAdds(d & 31, Pick(d, 5, 32));
    SplitAt5(d);
  }

  lemma VersionSumNonzero(a: bv32, b: bv32)
    requires a < 64 && b < 64 && a != b
    ensures 0 < Xor(a, b) < 64
  {
  }

  /** Code words of different data differ in at least 8 bits. */
  lemma VersionCodesFarApart(a: bv32, b: bv32)
    requires a < 64 && b < 64 && a != b
    ensures Weight(Xor(VersionCode(a), VersionCode(b))) >= 8
  {
    hide VersionCode, Xor, Weight, VersionCombined;
    VersionSumNonzero(a, b);
    VersionCodeAdds(a, b);
    VersionCodeCombined(Xor(a, b));
    VersionHeavy(Xor(a, b));
  }

  // ----- the words that are drawn -----

  /** The level with the given two format bits. */
  function LevelOf(high: bool, low: bool): Ecc {
    if high then (if low then QUARTILE else HIGH) else (if low then LOW else MEDIUM)
  }

  /** The data bits of the format word tell level and mask. */
  lemma FormatDataBits(ecl: Ecc, msk: nat)
    requires msk < 8
    ensures var d := FormatData(ecl, msk);
            && d < 32
            && LevelOf(GetBit(d, 4), GetBit(d, 3)) == ecl
            && (if GetBit(d, 2) then 4 else 0) + (if GetBit(d, 1) then 2 else 0) + (if GetBit(d, 0) then 1 else 0)
               == msk
  {
    assert msk == 0 || msk == 1 || msk == 2 || msk == 3 || msk == 4 || msk == 5 || msk == 6 || msk == 7;
  }

  lemma FormatPackIs(d: bv32, rem: bv32)
    requires rem < 1024
    ensures FormatPack(d, rem) == Xor(FormatJoin(d, rem), 0x5412)
  {
  }

  /** Different format information is drawn as words that differ in at least 7 bits. */
  lemma FormatWordsFarApart(ecl: Ecc, msk: nat, ecl': Ecc, msk': nat)
    requires msk < 8 && msk' < 8 && (ecl != ecl' || msk != msk')
    ensures Weight(Xor(FormatWord(ecl, msk), FormatWord(ecl', msk'))) >= 7
  {
    FormatDataBits(ecl, msk);
    FormatDataBits(ecl', msk');
    hide FormatData, FormatRemainder, FormatPack, FormatJoin, GetBit, LevelOf, Xor, Weight;
    var (a, b) := (FormatData(ecl, msk), FormatData(ecl', msk'));
    FormatRemainderSmall(a, 10);
    FormatRemainderSmall(b, 10);
    FormatPackIs(a, FormatRemainder(a, 10));
    FormatPackIs(b, FormatRemainder(b, 10));
    XorTwice(FormatCode(a), FormatCode(b), 0x5412);
    FormatCodesFarApart(a, b);
  }

  function VersionData(ver: nat): bv32
    requires IsVersion(ver)
  {
    ver as bv32
  }

  lemma VersionDataSmall(ver: nat)
    requires IsVersion(ver)
    ensures VersionData(ver) < 64
  {
  }

  function SixBits(d: bv32): nat {
    (if GetBit(d, 5) then 32 else 0) + (if GetBit(d, 4) then 16 else 0) + (if GetBit(d, 3) then 8 else 0)
    + (if GetBit(d, 2) then 4 else 0) + (if GetBit(d, 1) then 2 else 0) + (if GetBit(d, 0) then 1 else 0)
  }

  lemma VersionBitsFrom1(ver: nat)
    requires 1 <= ver <= 4
    ensures SixBits(VersionData(ver)) == ver
  {
    assert ver == 1 || ver == 2 || ver == 3 || ver == 4;
  }

  lemma VersionBitsFrom5(ver: nat)
    requires 5 <= ver <= 8
    ensures SixBits(VersionData(ver)) == ver
  {
    assert ver == 5 || ver == 6 || ver == 7 || ver == 8;
  }

  lemma VersionBitsFrom9(ver: nat)
    requires 9 <= ver <= 12
    ensures SixBits(VersionData(ver)) == ver
  {
    assert ver == 9 || ver == 10 || ver == 11 || ver == 12;
  }

  lemma VersionBitsFrom13(ver: nat)
    requires 13 <= ver <= 16
    ensures SixBits(VersionData(ver)) == ver
  {
    assert ver == 13 || ver == 14 || ver == 15 || ver == 16;
  }

  lemma VersionBitsFrom17(ver: nat)
    requires 17 <= ver <= 20
    ensures SixBits(VersionData(ver)) == ver
  {
    assert ver == 17 || ver == 18 || ver == 19 || ver == 20;
  }

  lemma VersionBitsFrom21(ver: nat)
    requires 21 <= ver <= 24
    ensures SixBits(VersionData(ver)) == ver
  {
    assert ver == 21 || ver == 22 || ver == 23 || ver == 24;
  }

  lemma VersionBitsFrom25(ver: nat)
    requires 25 <= ver <= 28
    ensures SixBits(VersionData(ver)) == ver
  {
    assert ver == 25 || ver == 26 || ver == 27 || ver == 28;
  }

  lemma VersionBitsFrom29(ver: nat)
    requires 29 <= ver <= 32
    ensures SixBits(VersionData(ver)) == ver
  {
    assert ver == 29 || ver == 30 || ver == 31 || ver == 32;
  }

  lemma VersionBitsFrom33(ver: nat)
    requires 33 <= ver <= 36
    ensures SixBits(VersionData(ver)) == ver
  {
    assert ver == 33 || ver == 34 || ver == 35 || ver == 36;
  }

  lemma VersionBitsFrom37(ver: nat)
    requires 37 <= ver <= 40
    ensures SixBits(VersionData(ver)) == ver
  {
    assert ver == 37 || ver == 38 || ver == 39 || ver == 40;
  }

  lemma VersionBits(ver: nat)
    requires IsVersion(ver)
    ensures SixBits(VersionData(ver)) == ver
  {
    hide SixBits, VersionData;
    if ver <= 4 {
      VersionBitsFrom1(ver);
    } else if ver <= 8 {
      VersionBitsFrom5(ver);
    } else if ver <= 12 {
      VersionBitsFrom9(ver);
    } else if ver <= 16 {
      VersionBitsFrom13(ver);
    } else if ver <= 20 {
      VersionBitsFrom17(ver);
    } else if ver <= 24 {
      VersionBitsFrom21(ver);
    } else if ver <= 28 {
      VersionBitsFrom25(ver);
    } else if ver <= 32 {
      VersionBitsFrom29(ver);
    } else if ver <= 36 {
      VersionBitsFrom33(ver);
    } else {
      VersionBitsFrom37(ver);
    }
  }

  lemma VersionDataDistinct(ver: nat, ver': nat)
    requires IsVersion(ver) && IsVersion(ver') && ver != ver'
    ensures VersionData(ver) != VersionData(ver')
  {
    VersionBits(ver);
    VersionBits(ver');
    hide VersionData, SixBits;
  }

  lemma VersionWordIs(ver: nat)
    requires IsVersion(ver)
    ensures VersionWord(ver) == VersionCode(VersionData(ver))
  {
    VersionDataSmall(ver);
    VersionRemainderSmall(VersionData(ver), 12);
    VersionPackIs(VersionData(ver), VersionRemainder(VersionData(ver), 12));
    hide VersionRemainder, VersionPack, VersionJoin;
  }

  lemma VersionPackIs(d: bv32, rem: bv32)
    requires rem < 4096
    ensures VersionPack(d, rem) == VersionJoin(d, rem)
  {
  }

  /** Different versions are drawn as words that differ in at least 8 bits. */
  lemma VersionWordsFarApart(ver: nat, ver': nat)
    requires IsVersion(ver) && IsVersion(ver') && ver != ver'
    ensures Weight(Xor(VersionWord(ver), VersionWord(ver'))) >= 8
  {
    hide VersionWord, VersionCode, VersionData, Xor, Weight;
    VersionDataSmall(ver);
    VersionDataSmall(ver');
    VersionDataDistinct(ver, ver');
    VersionWordIs(ver);
    VersionWordIs(ver');
    VersionCodesFarApart(VersionData(ver), VersionData(ver'));
  }

  lemma FormatPackSmall(d: bv32, rem: bv32)
    requires d < 32 && rem < 1024
    ensures FormatPack(d, rem) >> 15 == 0
  {
  }

  /** The source's assertion about the format word. */
  lemma FormatWordSmall(ecl: Ecc, msk: nat)
    requires msk < 8
    ensures FormatWord(ecl, msk) >> 15 == 0
  {
    FormatDataBits(ecl, msk);
    hide FormatData, FormatRemainder, FormatPack, GetBit, LevelOf;
    var d := FormatData(ecl, msk);
    FormatRemainderSmall(d, 10);
    FormatPackSmall(d, FormatRemainder(d, 10));
  }

  lemma VersionJoinSmall(d: bv32, rem: bv32)
    requires d < 64 && rem < 4096
    ensures VersionJoin(d, rem) >> 18 == 0
  {
  }

  /** The source's assertion about the version word. */
  lemma VersionWordSmall(ver: nat)
    requires IsVersion(ver)
    ensures VersionWord(ver) >> 18 == 0
  {
    hide VersionWord, VersionData, VersionRemainder, VersionJoin;
    VersionDataSmall(ver);
    VersionWordIs(ver);
    VersionRemainderSmall(VersionData(ver), 12);
    VersionJoinSmall(VersionData(ver), VersionRemainder(VersionData(ver), 12));
  }

  lemma NoHighBits(x: bv32)
    requires x >> 15 == 0
    ensures !GetBit(x, 15) && !GetBit(x, 16) && !GetBit(x, 17)
  {
  }
}
