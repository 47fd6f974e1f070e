/** Error correction levels, and the numbers that depend on version and level:
    sections 7.1 and 7.5.1 of ISO/IEC 18004:2015. */
module Tables {

  datatype Ecc = LOW | MEDIUM | QUARTILE | HIGH

  /** The level as the source's enum numbers it. */
  function Ordinal(ecl: Ecc): nat {
    match ecl
    case LOW => 0
    case MEDIUM => 1
    case QUARTILE => 2
    case HIGH => 3
  }

  const MIN_VERSION := 1
  const MAX_VERSION := 40

  predicate IsVersion(ver: int) {
    MIN_VERSION <= ver <= MAX_VERSION
  }

  function Size(ver: nat): (size: nat)
    ensures size % 2 == 1
  {
    OddSum(2 * ver + 8);
    ver * 4 + 17
  }

  lemma OddSum(half: nat)
    ensures (half + half + 1) % 2 == 1
  {
  }

  function NumAlign(ver: nat): nat {
    ver / 7 + 2
  }

  function NumRawDataModules(ver: nat): int
    requires IsVersion(ver)
  {
    var all := (16 * ver + 128) * ver + 64;
    if ver >= 2 then
      var numAlign := NumAlign(ver);
      var open := all - ((25 * numAlign - 10) * numAlign - 55);
      if ver >= 7 then open - 36 else open
    else all
  }

  // ----- ECC_CODEWORDS_PER_BLOCK, one row per level -----

  function EccLenLow(ver: nat): nat
    requires IsVersion(ver)
  {
    match ver
    case 1 => 7 case 2 => 10 case 3 => 15 case 4 => 20 case 5 => 26 case 6 => 18 case 7 => 20 case 8 => 24
    case 9 => 30 case 10 => 18 case 11 => 20 case 12 => 24 case 13 => 26 case 14 => 30 case 15 => 22 case 16 => 24
    case 17 => 28 case 18 => 30 case 19 => 28 case 20 => 28 case 21 => 28 case 22 => 28 case 23 => 30 case 24 => 30
    case 25 => 26 case 26 => 28 case 27 => 30 case 28 => 30 case 29 => 30 case 30 => 30 case 31 => 30 case 32 => 30
    case 33 => 30 case 34 => 30 case 35 => 30 case 36 => 30 case 37 => 30 case 38 => 30 case 39 => 30 case _ => 30
  }

  function EccLenMedium(ver: nat): nat
    requires IsVersion(ver)
  {
    match ver
    case 1 => 10 case 2 => 16 case 3 => 26 case 4 => 18 case 5 => 24 case 6 => 16 case 7 => 18 case 8 => 22
    case 9 => 22 case 10 => 26 case 11 => 30 case 12 => 22 case 13 => 22 case 14 => 24 case 15 => 24 case 16 => 28
    case 17 => 28 case 18 => 26 case 19 => 26 case 20 => 26 case 21 => 26 case 22 => 28 case 23 => 28 case 24 => 28
    case 25 => 28 case 26 => 28 case 27 => 28 case 28 => 28 case 29 => 28 case 30 => 28 case 31 => 28 case 32 => 28
    case 33 => 28 case 34 => 28 case 35 => 28 case 36 => 28 case 37 => 28 case 38 => 28 case 39 => 28 case _ => 28
  }

  function EccLenQuartile(ver: nat): nat
    requires IsVersion(ver)
  {
    match ver
    case 1 => 13 case 2 => 22 case 3 => 18 case 4 => 26 case 5 => 18 case 6 => 24 case 7 => 18 case 8 => 22
    case 9 => 20 case 10 => 24 case 11 => 28 case 12 => 26 case 13 => 24 case 14 => 20 case 15 => 30 case 16 => 24
    case 17 => 28 case 18 => 28 case 19 => 26 case 20 => 30 case 21 => 28 case 22 => 30 case 23 => 30 case 24 => 30
    case 25 => 30 case 26 => 28 case 27 => 30 case 28 => 30 case 29 => 30 case 30 => 30 case 31 => 30 case 32 => 30
    case 33 => 30 case 34 => 30 case 35 => 30 case 36 => 30 case 37 => 30 case 38 => 30 case 39 => 30 case _ => 30
  }

  function EccLenHigh(ver: nat): nat
    requires IsVersion(ver)
  {
    match ver
    case 1 => 17 case 2 => 28 case 3 => 22 case 4 => 16 case 5 => 22 case 6 => 28 case 7 => 26 case 8 => 26
    case 9 => 24 case 10 => 28 case 11 => 24 case 12 => 28 case 13 => 22 case 14 => 24 case 15 => 24 case 16 => 30
    case 17 => 28 case 18 => 28 case 19 => 26 case 20 => 28 case 21 => 30 case 22 => 24 case 23 => 30 case 24 => 30
    case 25 => 30 case 26 => 30 case 27 => 30 case 28 => 30 case 29 => 30 case 30 => 30 case 31 => 30 case 32 => 30
    case 33 => 30 case 34 => 30 case 35 => 30 case 36 => 30 case 37 => 30 case 38 => 30 case 39 => 30 case _ => 30
  }

  // ----- NUM_ERROR_CORRECTION_BLOCKS, one row per level -----

  function NumBlocksLow(ver: nat): nat
    requires IsVersion(ver)
  {
    match ver
    case 1 => 1 case 2 => 1 case 3 => 1 case 4 => 1 case 5 => 1 case 6 => 2 case 7 => 2 case 8 => 2
    case 9 => 2 case 10 => 4 case 11 => 4 case 12 => 4 case 13 => 4 case 14 => 4 case 15 => 6 case 16 => 6
    case 17 => 6 case 18 => 6 case 19 => 7 case 20 => 8 case 21 => 8 case 22 => 9 case 23 => 9 case 24 => 10
    case 25 => 12 case 26 => 12 case 27 => 12 case 28 => 13 case 29 => 14 case 30 => 15 case 31 => 16 case 32 => 17
    case 33 => 18 case 34 => 19 case 35 => 19 case 36 => 20 case 37 => 21 case 38 => 22 case 39 => 24 case _ => 25
  }

  function NumBlocksMedium(ver: nat): nat
    requires IsVersion(ver)
  {
    match ver
    case 1 => 1 case 2 => 1 case 3 => 1 case 4 => 2 case 5 => 2 case 6 => 4 case 7 => 4 case 8 => 4
    case 9 => 5 case 10 => 5 case 11 => 5 case 12 => 8 case 13 => 9 case 14 => 9 case 15 => 10 case 16 => 10
    case 17 => 11 case 18 => 13 case 19 => 14 case 20 => 16 case 21 => 17 case 22 => 17 case 23 => 18 case 24 => 20
    case 25 => 21 case 26 => 23 case 27 => 25 case 28 => 26 case 29 => 28 case 30 => 29 case 31 => 31 case 32 => 33
    case 33 => 35 case 34 => 37 case 35 => 38 case 36 => 40 case 37 => 43 case 38 => 45 case 39 => 47 case _ => 49
  }

  function NumBlocksQuartile(ver: nat): nat
    requires IsVersion(ver)
  {
    match ver
    case 1 => 1 case 2 => 1 case 3 => 2 case 4 => 2 case 5 => 4 case 6 => 4 case 7 => 6 case 8 => 6
    case 9 => 8 case 10 => 8 case 11 => 8 case 12 => 10 case 13 => 12 case 14 => 16 case 15 => 12 case 16 => 17
    case 17 => 16 case 18 => 18 case 19 => 21 case 20 => 20 case 21 => 23 case 22 => 23 case 23 => 25 case 24 => 27
    case 25 => 29 case 26 => 34 case 27 => 34 case 28 => 35 case 29 => 38 case 30 => 40 case 31 => 43 case 32 => 45
    case 33 => 48 case 34 => 51 case 35 => 53 case 36 => 56 case 37 => 59 case 38 => 62 case 39 => 65 case _ => 68
  }

  function NumBlocksHigh(ver: nat): nat
    requires IsVersion(ver)
  {
    match ver
    case 1 => 1 case 2 => 1 case 3 => 2 case 4 => 4 case 5 => 4 case 6 => 4 case 7 => 5 case 8 => 6
    case 9 => 8 case 10 => 8 case 11 => 11 case 12 => 11 case 13 => 16 case 14 => 16 case 15 => 18 case 16 => 16
    case 17 => 19 case 18 => 21 case 19 => 25 case 20 => 25 case 21 => 25 case 22 => 34 case 23 => 30 case 24 => 32
    case 25 => 35 case 26 => 37 case 27 => 40 case 28 => 42 case 29 => 45 case 30 => 48 case 31 => 51 case 32 => 54
    case 33 => 57 case 34 => 60 case 35 => 63 case 36 => 66 case 37 => 70 case 38 => 74 case 39 => 77 case _ => 81
  }

  function EccLen(ver: nat, ecl: Ecc): nat
    requires IsVersion(ver)
  {
    match ecl
    case LOW => EccLenLow(ver)
    case MEDIUM => EccLenMedium(ver)
    case QUARTILE => EccLenQuartile(ver)
    case HIGH => EccLenHigh(ver)
  }

  function NumBlocks(ver: nat, ecl: Ecc): nat
    requires IsVersion(ver)
  {
    match ecl
    case LOW => NumBlocksLow(ver)
    case MEDIUM => NumBlocksMedium(ver)
    case QUARTILE => NumBlocksQuartile(ver)
    case HIGH => NumBlocksHigh(ver)
  }

  function NumDataCodewords(ver: nat, ecl: Ecc): int
    requires IsVersion(ver)
  {
    NumRawDataModules(ver) / 8 - EccLen(ver, ecl) * NumBlocks(ver, ecl)
  }

  // ----- facts read off the tables -----

  /** The closed form as the lookup table that it could be. */
  function RawModulesTable(ver: nat): nat
    requires IsVersion(ver)
  {
    match ver
    case 1 => 208 case 2 => 359 case 3 => 567 case 4 => 807 case 5 => 1079 case 6 => 1383
    case 7 => 1568 case 8 => 1936 case 9 => 2336 case 10 => 2768 case 11 => 3232 case 12 => 3728
    case 13 => 4256 case 14 => 4651 case 15 => 5243 case 16 => 5867 case 17 => 6523 case 18 => 7211
    case 19 => 7931 case 20 => 8683 case 21 => 9252 case 22 => 10068 case 23 => 10916 case 24 => 11796
    case 25 => 12708 case 26 => 13652 case 27 => 14628 case 28 => 15371 case 29 => 16411 case 30 => 17483
    case 31 => 18587 case 32 => 19723 case 33 => 20891 case 34 => 22091 case 35 => 23008 case 36 => 24272
    case 37 => 25568 case 38 => 26896 case 39 => 28256 case _ => 29648
  }

  lemma RawModulesFrom1(ver: nat)
    requires 1 <= ver <= 13
    ensures NumRawDataModules(ver) == RawModulesTable(ver)
  {
  }

  lemma RawModulesFrom14(ver: nat)
    requires 14 <= ver <= 27
    ensures NumRawDataModules(ver) == RawModulesTable(ver)
  {
  }

  lemma RawModulesFrom28(ver: nat)
    requires 28 <= ver <= 40
    ensures NumRawDataModules(ver) == RawModulesTable(ver)
  {
  }

  lemma RawModules(ver: nat)
    requires IsVersion(ver)
    ensures NumRawDataModules(ver) == RawModulesTable(ver)
  {
    hide NumRawDataModules, RawModulesTable;
    if ver <= 13 {
      RawModulesFrom1(ver);
    } else if ver <= 27 {
      RawModulesFrom14(ver);
    } else {
      RawModulesFrom28(ver);
    }
  }

  lemma RawModulesRange(ver: nat)
    requires IsVersion(ver)
    ensures 208 <= NumRawDataModules(ver) <= 29648
  {
    hide NumRawDataModules;
    RawModules(ver);
  }

  /** No block is empty of data, or longer than a codeword can be. */
  predicate Sound(ver: nat, n: nat, e: nat)
    requires IsVersion(ver)
  {
    1 <= n && 1 <= e <= 30 && (e + 1) * n <= NumRawDataModules(ver) / 8 < 255 * n
  }

  lemma SoundLow(ver: nat)
    requires IsVersion(ver)
    ensures Sound(ver, NumBlocksLow(ver), EccLenLow(ver))
  {
    hide NumRawDataModules;
    RawModules(ver);
  }

  lemma SoundMedium(ver: nat)
    requires IsVersion(ver)
    ensures Sound(ver, NumBlocksMedium(ver), EccLenMedium(ver))
  {
    hide NumRawDataModules;
    RawModules(ver);
  }

  lemma SoundQuartile(ver: nat)
    requires IsVersion(ver)
    ensures Sound(ver, NumBlocksQuartile(ver), EccLenQuartile(ver))
  {
    hide NumRawDataModules;
    RawModules(ver);
  }

  lemma SoundHigh(ver: nat)
    requires IsVersion(ver)
    ensures Sound(ver, NumBlocksHigh(ver), EccLenHigh(ver))
  {
    hide NumRawDataModules;
    RawModules(ver);
  }

  lemma BlocksSound(ver: nat, ecl: Ecc)
    requires IsVersion(ver)
    ensures Sound(ver, NumBlocks(ver, ecl), EccLen(ver, ecl))
  {
    hide Sound;
    match ecl
    case LOW => SoundLow(ver);
    case MEDIUM => SoundMedium(ver);
    case QUARTILE => SoundQuartile(ver);
    case HIGH => SoundHigh(ver);
  }

  lemma LowBelowMedium(ver: nat)
    requires IsVersion(ver)
    ensures EccLenLow(ver) * NumBlocksLow(ver) < EccLenMedium(ver) * NumBlocksMedium(ver)
  {
  }

  lemma MediumBelowQuartile(ver: nat)
    requires IsVersion(ver)
    ensures EccLenMedium(ver) * NumBlocksMedium(ver) < EccLenQuartile(ver) * NumBlocksQuartile(ver)
  {
  }

  lemma QuartileBelowHigh(ver: nat)
    requires IsVersion(ver)
    ensures EccLenQuartile(ver) * NumBlocksQuartile(ver) < EccLenHigh(ver) * NumBlocksHigh(ver)
  {
  }

  lemma CapacityPositive(ver: nat, ecl: Ecc)
    requires IsVersion(ver)
    ensures NumDataCodewords(ver, ecl) > 0
  {
    hide NumRawDataModules, EccLen, NumBlocks;
    BlocksSound(ver, ecl);
    var (n, e) := (NumBlocks(ver, ecl), EccLen(ver, ecl));
    assert (e + 1) * n == e * n + n;
  }

  /** A higher level leaves less room for data. */
  lemma CapacityDecreases(ver: nat, lower: Ecc, higher: Ecc)
    requires IsVersion(ver) && Ordinal(lower) < Ordinal(higher)
    ensures 0 < NumDataCodewords(ver, higher) < NumDataCodewords(ver, lower)
  {
    hide Sound, NumRawDataModules, EccLenLow, EccLenMedium, EccLenQuartile, EccLenHigh,
      NumBlocksLow, NumBlocksMedium, NumBlocksQuartile, NumBlocksHigh;
    LowBelowMedium(ver);
    MediumBelowQuartile(ver);
    QuartileBelowHigh(ver);
    CapacityPositive(ver, higher);
  }

  // ----- the documented tolerance -----

  /** The percentage of wrong codewords that a level is documented to tolerate. */
  function Percent(ecl: Ecc): nat {
    match ecl
    case LOW => 7
    case MEDIUM => 15
    case QUARTILE => 25
    case HIGH => 30
  }

  /** In a block of average length, rounded up, that percentage is at most half the
      error correction codewords. */
  predicate Tolerant(ver: nat, n: nat, e: nat, percent: nat)
    requires IsVersion(ver)
  {
    percent * (NumRawDataModules(ver) / 8 + n - 1) < 100 * (e / 2 + 1) * n
  }

  lemma TolerantLow(ver: nat)
    requires IsVersion(ver)
    ensures Tolerant(ver, NumBlocksLow(ver), EccLenLow(ver), Percent(LOW))
  {
    hide NumRawDataModules;
    RawModules(ver);
  }

  lemma TolerantMedium(ver: nat)
    requires IsVersion(ver)
    ensures Tolerant(ver, NumBlocksMedium(ver), EccLenMedium(ver), Percent(MEDIUM))
  {
    hide NumRawDataModules;
    RawModules(ver);
  }

  lemma TolerantQuartile(ver: nat)
    requires IsVersion(ver)
    ensures Tolerant(ver, NumBlocksQuartile(ver), EccLenQuartile(ver), Percent(QUARTILE))
  {
    hide NumRawDataModules;
    RawModules(ver);
  }

  lemma TolerantHigh(ver: nat)
    requires IsVersion(ver)
    ensures Tolerant(ver, NumBlocksHigh(ver), EccLenHigh(ver), Percent(HIGH))
  {
    hide NumRawDataModules;
    RawModules(ver);
  }

  lemma BlocksTolerant(ver: nat, ecl: Ecc)
    requires IsVersion(ver)
    ensures Tolerant(ver, NumBlocks(ver, ecl), EccLen(ver, ecl), Percent(ecl))
  {
    hide Tolerant, Percent;
    match ecl
    case LOW => TolerantLow(ver);
    case MEDIUM => TolerantMedium(ver);
    case QUARTILE => TolerantQuartile(ver);
    case HIGH => TolerantHigh(ver);
  }

  // ----- the data capacity of all versions -----

  function CapacityLow(ver: nat): nat
    requires IsVersion(ver)
  {
    match ver
    case 1 => 19 case 2 => 34 case 3 => 55 case 4 => 80 case 5 => 108 case 6 => 136 case 7 => 156
    case 8 => 194 case 9 => 232 case 10 => 274 case 11 => 324 case 12 => 370 case 13 => 428 case 14 => 461
    case 15 => 523 case 16 => 589 case 17 => 647 case 18 => 721 case 19 => 795 case 20 => 861 case 21 => 932
    case 22 => 1006 case 23 => 1094 case 24 => 1174 case 25 => 1276 case 26 => 1370 case 27 => 1468 case 28 => 1531
    case 29 => 1631 case 30 => 1735 case 31 => 1843 case 32 => 1955 case 33 => 2071 case 34 => 2191 case 35 => 2306
    case 36 => 2434 case 37 => 2566 case 38 => 2702 case 39 => 2812 case _ => 2956
  }

  lemma LowCapacity(ver: nat)
    requires IsVersion(ver)
    ensures NumRawDataModules(ver) / 8 - EccLenLow(ver) * NumBlocksLow(ver) == CapacityLow(ver)
  {
    hide NumRawDataModules;
    RawModules(ver);
  }

  function CapacityMedium(ver: nat): nat
    requires IsVersion(ver)
  {
    match ver
    case 1 => 16 case 2 => 28 case 3 => 44 case 4 => 64 case 5 => 86 case 6 => 108 case 7 => 124
    case 8 => 154 case 9 => 182 case 10 => 216 case 11 => 254 case 12 => 290 case 13 => 334 case 14 => 365
    case 15 => 415 case 16 => 453 case 17 => 507 case 18 => 563 case 19 => 627 case 20 => 669 case 21 => 714
    case 22 => 782 case 23 => 860 case 24 => 914 case 25 => 1000 case 26 => 1062 case 27 => 1128 case 28 => 1193
    case 29 => 1267 case 30 => 1373 case 31 => 1455 case 32 => 1541 case 33 => 1631 case 34 => 1725 case 35 => 1812
    case 36 => 1914 case 37 => 1992 case 38 => 2102 case 39 => 2216 case _ => 2334
  }

  lemma MediumCapacity(ver: nat)
    requires IsVersion(ver)
    ensures NumRawDataModules(ver) / 8 - EccLenMedium(ver) * NumBlocksMedium(ver) == CapacityMedium(ver)
  {
    hide NumRawDataModules;
    RawModules(ver);
  }

  function CapacityQuartile(ver: nat): nat
    requires IsVersion(ver)
  {
    match ver
    case 1 => 13 case 2 => 22 case 3 => 34 case 4 => 48 case 5 => 62 case 6 => 76 case 7 => 88
    case 8 => 110 case 9 => 132 case 10 => 154 case 11 => 180 case 12 => 206 case 13 => 244 case 14 => 261
    case 15 => 295 case 16 => 325 case 17 => 367 case 18 => 397 case 19 => 445 case 20 => 485 case 21 => 512
    case 22 => 568 case 23 => 614 case 24 => 664 case 25 => 718 case 26 => 754 case 27 => 808 case 28 => 871
    case 29 => 911 case 30 => 985 case 31 => 1033 case 32 => 1115 case 33 => 1171 case 34 => 1231 case 35 => 1286
    case 36 => 1354 case 37 => 1426 case 38 => 1502 case 39 => 1582 case _ => 1666
  }

  lemma QuartileCapacity(ver: nat)
    requires IsVersion(ver)
    ensures NumRawDataModules(ver) / 8 - EccLenQuartile(ver) * NumBlocksQuartile(ver) == CapacityQuartile(ver)
  {
    hide NumRawDataModules;
    RawModules(ver);
  }

  function CapacityHigh(ver: nat): nat
    requires IsVersion(ver)
  {
    match ver
    case 1 => 9 case 2 => 16 case 3 => 26 case 4 => 36 case 5 => 46 case 6 => 60 case 7 => 66
    case 8 => 86 case 9 => 100 case 10 => 122 case 11 => 140 case 12 => 158 case 13 => 180 case 14 => 197
    case 15 => 223 case 16 => 253 case 17 => 283 case 18 => 313 case 19 => 341 case 20 => 385 case 21 => 406
    case 22 => 442 case 23 => 464 case 24 => 514 case 25 => 538 case 26 => 596 case 27 => 628 case 28 => 661
    case 29 => 701 case 30 => 745 case 31 => 793 case 32 => 845 case 33 => 901 case 34 => 961 case 35 => 986
    case 36 => 1054 case 37 => 1096 case 38 => 1142 case 39 => 1222 case _ => 1276
  }

  lemma HighCapacity(ver: nat)
    requires IsVersion(ver)
    ensures NumRawDataModules(ver) / 8 - EccLenHigh(ver) * NumBlocksHigh(ver) == CapacityHigh(ver)
  {
    hide NumRawDataModules;
    RawModules(ver);
  }

  /** getNumDataCodewords as the lookup table that it could be. */
  function CapacityTable(ver: nat, ecl: Ecc): nat
    requires IsVersion(ver)
  {
    match ecl
    case LOW => CapacityLow(ver)
    case MEDIUM => CapacityMedium(ver)
    case QUARTILE => CapacityQuartile(ver)
    case HIGH => CapacityHigh(ver)
  }

  lemma Capacities(ver: nat, ecl: Ecc)
    requires IsVersion(ver)
    ensures NumDataCodewords(ver, ecl) == CapacityTable(ver, ecl)
  {
    hide NumRawDataModules, EccLenLow, EccLenMedium, EccLenQuartile, EccLenHigh,
      NumBlocksLow, NumBlocksMedium, NumBlocksQuartile, NumBlocksHigh,
      CapacityLow, CapacityMedium, CapacityQuartile, CapacityHigh;
    match ecl
    case LOW => LowCapacity(ver);
    case MEDIUM => MediumCapacity(ver);
    case QUARTILE => QuartileCapacity(ver);
    case HIGH => HighCapacity(ver);
  }

  /** A larger version holds more data. */
  lemma CapacityGrows(ver: nat, ecl: Ecc)
    requires 1 <= ver < 40
    ensures NumDataCodewords(ver, ecl) < NumDataCodewords(ver + 1, ecl)
  {
    hide NumDataCodewords;
    Capacities(ver, ecl);
    Capacities(ver + 1, ecl);
  }

  // ----- the blocks of all versions -----

  function ShortBlockLow(ver: nat): nat
    requires IsVersion(ver)
  {
    match ver
    case 1 => 19 case 2 => 34 case 3 => 55 case 4 => 80 case 5 => 108 case 6 => 68 case 7 => 78
    case 8 => 97 case 9 => 116 case 10 => 68 case 11 => 81 case 12 => 92 case 13 => 107 case 14 => 115
    case 15 => 87 case 16 => 98 case 17 => 107 case 18 => 120 case 19 => 113 case 20 => 107 case 21 => 116
    case 22 => 111 case 23 => 121 case 24 => 117 case 25 => 106 case 26 => 114 case 27 => 122 case 28 => 117
    case 29 => 116 case 30 => 115 case 31 => 115 case 32 => 115 case 33 => 115 case 34 => 115 case 35 => 121
    case 36 => 121 case 37 => 122 case 38 => 122 case 39 => 117 case _ => 118
  }

  lemma LowBlocks(ver: nat)
    requires IsVersion(ver)
    ensures CapacityLow(ver) / NumBlocksLow(ver) == ShortBlockLow(ver)
    ensures ver >= 4 ==> EccLenLow(ver) % 2 == 0
  {
  }

  function ShortBlockMedium(ver: nat): nat
    requires IsVersion(ver)
  {
    match ver
    case 1 => 16 case 2 => 28 case 3 => 44 case 4 => 32 case 5 => 43 case 6 => 27 case 7 => 31 case 8 => 38
    case 9 => 36 case 10 => 43 case 11 => 50 case 12 => 36 case 13 => 37 case 14 => 40 case 15 => 41 case 16 => 45
    case 17 => 46 case 18 => 43 case 19 => 44 case 20 => 41 case 21 => 42 case 22 => 46 case 23 => 47 case 24 => 45
    case 25 => 47 case 26 => 46 case 27 => 45 case 28 => 45 case 29 => 45 case 30 => 47 case 31 => 46 case 32 => 46
    case 33 => 46 case 34 => 46 case 35 => 47 case 36 => 47 case 37 => 46 case 38 => 46 case 39 => 47 case _ => 47
  }

  lemma MediumBlocks(ver: nat)
    requires IsVersion(ver)
    ensures CapacityMedium(ver) / NumBlocksMedium(ver) == ShortBlockMedium(ver)
    ensures ver >= 4 ==> EccLenMedium(ver) % 2 == 0
  {
  }

  function ShortBlockQuartile(ver: nat): nat
    requires IsVersion(ver)
  {
    match ver
    case 1 => 13 case 2 => 22 case 3 => 17 case 4 => 24 case 5 => 15 case 6 => 19 case 7 => 14 case 8 => 18
    case 9 => 16 case 10 => 19 case 11 => 22 case 12 => 20 case 13 => 20 case 14 => 16 case 15 => 24 case 16 => 19
    case 17 => 22 case 18 => 22 case 19 => 21 case 20 => 24 case 21 => 22 case 22 => 24 case 23 => 24 case 24 => 24
    case 25 => 24 case 26 => 22 case 27 => 23 case 28 => 24 case 29 => 23 case 30 => 24 case 31 => 24 case 32 => 24
    case 33 => 24 case 34 => 24 case 35 => 24 case 36 => 24 case 37 => 24 case 38 => 24 case 39 => 24 case _ => 24
  }

  lemma QuartileBlocks(ver: nat)
    requires IsVersion(ver)
    ensures CapacityQuartile(ver) / NumBlocksQuartile(ver) == ShortBlockQuartile(ver)
    ensures ver >= 4 ==> EccLenQuartile(ver) % 2 == 0
  {
  }

  function ShortBlockHigh(ver: nat): nat
    requires IsVersion(ver)
  {
    match ver
    case 1 => 9 case 2 => 16 case 3 => 13 case 4 => 9 case 5 => 11 case 6 => 15 case 7 => 13 case 8 => 14
    case 9 => 12 case 10 => 15 case 11 => 12 case 12 => 14 case 13 => 11 case 14 => 12 case 15 => 12 case 16 => 15
    case 17 => 14 case 18 => 14 case 19 => 13 case 20 => 15 case 21 => 16 case 22 => 13 case 23 => 15 case 24 => 16
    case 25 => 15 case 26 => 16 case 27 => 15 case 28 => 15 case 29 => 15 case 30 => 15 case 31 => 15 case 32 => 15
    case 33 => 15 case 34 => 16 case 35 => 15 case 36 => 15 case 37 => 15 case 38 => 15 case 39 => 15 case _ => 15
  }

  lemma HighBlocks(ver: nat)
    requires IsVersion(ver)
    ensures CapacityHigh(ver) / NumBlocksHigh(ver) == ShortBlockHigh(ver)
    ensures ver >= 4 ==> EccLenHigh(ver) % 2 == 0
  {
  }

  /** The data bytes of a short block: table 9 of the standard. */
  function ShortBlock(ver: nat, ecl: Ecc): nat
    requires IsVersion(ver)
  {
    match ecl
    case LOW => ShortBlockLow(ver)
    case MEDIUM => ShortBlockMedium(ver)
    case QUARTILE => ShortBlockQuartile(ver)
    case HIGH => ShortBlockHigh(ver)
  }

  /** How the data is divided, and that from version 4 on the error correction codewords of a
      block are even in number, so that half of them corrects. */
  lemma BlocksAsTabled(ver: nat, ecl: Ecc)
    requires IsVersion(ver)
    ensures NumBlocks(ver, ecl) > 0 && NumDataCodewords(ver, ecl) / NumBlocks(ver, ecl) == ShortBlock(ver, ecl)
    ensures ver >= 4 ==> EccLen(ver, ecl) % 2 == 0
  {
    hide NumDataCodewords, EccLenLow, EccLenMedium, EccLenQuartile, EccLenHigh,
      NumBlocksLow, NumBlocksMedium, NumBlocksQuartile, NumBlocksHigh,
      CapacityLow, CapacityMedium, CapacityQuartile, CapacityHigh,
      ShortBlockLow, ShortBlockMedium, ShortBlockQuartile, ShortBlockHigh;
    Capacities(ver, ecl);
    BlocksSound(ver, ecl);
    match ecl
    case LOW => LowBlocks(ver);
    case MEDIUM => MediumBlocks(ver);
    case QUARTILE => QuartileBlocks(ver);
    case HIGH => HighBlocks(ver);
  }

  // ----- the largest version -----

  /** What a version with this many data bytes lacks to a version with most of them:
      count fields are narrower up to version 26, and narrower still up to version 9. */
  predicate Lacks(ver: nat, capacity: int, most: int) {
    && (ver < 40 ==> capacity < most)
    && (ver <= 26 ==> capacity <= 1706 && 8 * capacity <= 7 * most)
    && (ver <= 9 ==> capacity <= 292 && 5 * capacity <= 3 * most)
  }

  /** The largest version holds the most data, and more by far than those with narrower
      count fields. */
  lemma LargestVersion(ver: nat, ecl: Ecc)
    requires IsVersion(ver)
    ensures NumDataCodewords(40, ecl)
         == match ecl case LOW => 2956 case MEDIUM => 2334 case QUARTILE => 1666 case HIGH => 1276
    ensures Lacks(ver, NumDataCodewords(ver, ecl), NumDataCodewords(40, ecl))
  {
    hide NumDataCodewords;
    Capacities(ver, ecl);
    Capacities(40, ecl);
  }
}
