/** The format and version words as tables: annexes C and D of ISO/IEC 18004:2015. */
module WordTables {
  import opened BitVectors
  import opened FunctionPatterns
  import opened InformationWords
  import opened Tables

  // ----- format words -----

  function FormatTable(ecl: Ecc, msk: nat): bv32
    requires msk < 8
  {
    match ecl
    case LOW => (match msk
      case 0 => 0x77C4 case 1 => 0x72F3 case 2 => 0x7DAA case 3 => 0x789D
      case 4 => 0x662F case 5 => 0x6318 case 6 => 0x6C41 case _ => 0x6976)
    case MEDIUM => (match msk
      case 0 => 0x5412 case 1 => 0x5125 case 2 => 0x5E7C case 3 => 0x5B4B
      case 4 => 0x45F9 case 5 => 0x40CE case 6 => 0x4F97 case _ => 0x4AA0)
    case QUARTILE => (match msk
      case 0 => 0x355F case 1 => 0x3068 case 2 => 0x3F31 case 3 => 0x3A06
      case 4 => 0x24B4 case 5 => 0x2183 case 6 => 0x2EDA case _ => 0x2BED)
    case HIGH => (match msk
      case 0 => 0x1689 case 1 => 0x13BE case 2 => 0x1CE7 case 3 => 0x19D0
      case 4 => 0x0762 case 5 => 0x0255 case 6 => 0x0D0C case _ => 0x083B)
  }

  lemma FormatWordParts(ecl: Ecc, msk: nat)
    requires msk < 8
    ensures FormatWord(ecl, msk) == Xor(FormatCombined(FormatData(ecl, msk)), 0x5412)
  {
    FormatDataBits(ecl, msk);
    hide FormatData, FormatRemainder, FormatPack, FormatJoin, FormatCombined, GetBit, LevelOf, Xor;
    var d := FormatData(ecl, msk);
    FormatRemainderSmall(d, 10);
    FormatPackIs(d, FormatRemainder(d, 10));
    FormatCodeCombined(d);
  }

  lemma LowWords(msk: nat)
    requires msk < 8
    ensures Xor(FormatCombined(FormatData(LOW, msk)), 0x5412) == FormatTable(LOW, msk)
  {
    assert msk == 0 || msk == 1 || msk == 2 || msk == 3 || msk == 4 || msk == 5 || msk == 6 || msk == 7;
  }

  lemma MediumWords(msk: nat)
    requires msk < 8
    ensures Xor(FormatCombined(FormatData(MEDIUM, msk)), 0x5412) == FormatTable(MEDIUM, msk)
  {
    hide FormatCombined, FormatData, FormatTable, Xor;
    if msk < 4 {
      MediumTo3(msk);
    } else {
      MediumFrom4(msk);
    }
  }

  lemma MediumTo3(msk: nat)
    requires msk < 4
    ensures Xor(FormatCombined(FormatData(MEDIUM, msk)), 0x5412) == FormatTable(MEDIUM, msk)
  {
    assert msk == 0 || msk == 1 || msk == 2 || msk == 3;
  }

  lemma MediumFrom4(msk: nat)
    requires 4 <= msk < 8
    ensures Xor(FormatCombined(FormatData(MEDIUM, msk)), 0x5412) == FormatTable(MEDIUM, msk)
  {
    assert msk == 4 || msk == 5 || msk == 6 || msk == 7;
  }

  lemma QuartileWords(msk: nat)
    requires msk < 8
    ensures Xor(FormatCombined(FormatData(QUARTILE, msk)), 0x5412) == FormatTable(QUARTILE, msk)
  {
    assert msk == 0 || msk == 1 || msk == 2 || msk == 3 || msk == 4 || msk == 5 || msk == 6 || msk == 7;
  }

  lemma HighWords(msk: nat)
    requires msk < 8
    ensures Xor(FormatCombined(FormatData(HIGH, msk)), 0x5412) == FormatTable(HIGH, msk)
  {
    assert msk == 0 || msk == 1 || msk == 2 || msk == 3 || msk == 4 || msk == 5 || msk == 6 || msk == 7;
  }

  /** Every format word is the one in the table. */
  lemma FormatWordAsTabled(ecl: Ecc, msk: nat)
    requires msk < 8
    ensures FormatWord(ecl, msk) == FormatTable(ecl, msk)
  {
    hide FormatWord, FormatCombined, FormatData, FormatTable, Xor;
    FormatWordParts(ecl, msk);
    match ecl
    case LOW => LowWords(msk);
    case MEDIUM => MediumWords(msk);
    case QUARTILE => QuartileWords(msk);
    case HIGH => HighWords(msk);
  }

  // ----- version words -----

  function VersionTable(ver: nat): bv32
    requires 7 <= ver <= 40
  {
    match ver
    case 7 => 0x07C94 case 8 => 0x085BC case 9 => 0x09A99 case 10 => 0x0A4D3 case 11 => 0x0BBF6
    case 12 => 0x0C762 case 13 => 0x0D847 case 14 => 0x0E60D case 15 => 0x0F928 case 16 => 0x10B78
    case 17 => 0x1145D case 18 => 0x12A17 case 19 => 0x13532 case 20 => 0x149A6 case 21 => 0x15683
    case 22 => 0x168C9 case 23 => 0x177EC case 24 => 0x18EC4 case 25 => 0x191E1 case 26 => 0x1AFAB
    case 27 => 0x1B08E case 28 => 0x1CC1A case 29 => 0x1D33F case 30 => 0x1ED75 case 31 => 0x1F250
    case 32 => 0x209D5 case 33 => 0x216F0 case 34 => 0x228BA case 35 => 0x2379F case 36 => 0x24B0B
    case 37 => 0x2542E case 38 => 0x26A64 case 39 => 0x27541 case _ => 0x28C69
  }

  lemma VersionWordParts(ver: nat)
    requires IsVersion(ver)
    ensures VersionWord(ver) == VersionCombined(VersionData(ver))
  {
    hide VersionWord, VersionCode, VersionData, VersionCombined;
    VersionWordIs(ver);
    VersionDataSmall(ver);
    VersionCodeCombined(VersionData(ver));
  }

  lemma VersionsFrom7(ver: nat)
    requires 7 <= ver <= 10
    ensures VersionCombined(VersionData(ver)) == VersionTable(ver)
  {
    assert ver == 7 || ver == 8 || ver == 9 || ver == 10;
  }

  lemma VersionsFrom11(ver: nat)
    requires 11 <= ver <= 14
    ensures VersionCombined(VersionData(ver)) == VersionTable(ver)
  {
    assert ver == 11 || ver == 12 || ver == 13 || ver == 14;
  }

  lemma VersionsFrom15(ver: nat)
    requires 15 <= ver <= 18
    ensures VersionCombined(VersionData(ver)) == VersionTable(ver)
  {
    assert ver == 15 || ver == 16 || ver == 17 || ver == 18;
  }

  lemma VersionsFrom19(ver: nat)
    requires 19 <= ver <= 22
    ensures VersionCombined(VersionData(ver)) == VersionTable(ver)
  {
    assert ver == 19 || ver == 20 || ver == 21 || ver == 22;
  }

  lemma VersionsFrom23(ver: nat)
    requires 23 <= ver <= 26
    ensures VersionCombined(VersionData(ver)) == VersionTable(ver)
  {
    assert ver == 23 || ver == 24 || ver == 25 || ver == 26;
  }

  lemma VersionsFrom27(ver: nat)
    requires 27 <= ver <= 30
    ensures VersionCombined(VersionData(ver)) == VersionTable(ver)
  {
    assert ver == 27 || ver == 28 || ver == 29 || ver == 30;
  }

  lemma VersionsFrom31(ver: nat)
    requires 31 <= ver <= 34
    ensures VersionCombined(VersionData(ver)) == VersionTable(ver)
  {
    assert ver == 31 || ver == 32 || ver == 33 || ver == 34;
  }

  lemma VersionsFrom35(ver: nat)
    requires 35 <= ver <= 37
    ensures VersionCombined(VersionData(ver)) == VersionTable(ver)
  {
    assert ver == 35 || ver == 36 || ver == 37;
  }

  lemma VersionsFrom38(ver: nat)
    requires 38 <= ver <= 40
    ensures VersionCombined(VersionData(ver)) == VersionTable(ver)
  {
    assert ver == 38 || ver == 39 || ver == 40;
  }

  /** Every version word is the one in the table. */
  lemma VersionWordAsTabled(ver: nat)
    requires 7 <= ver <= 40
    ensures VersionWord(ver) == VersionTable(ver)
  {
    hide VersionWord, VersionCombined, VersionData, VersionTable;
    VersionWordParts(ver);
    if ver <= 10 {
      VersionsFrom7(ver);
    } else if ver <= 14 {
      VersionsFrom11(ver);
    } else if ver <= 18 {
      VersionsFrom15(ver);
    } else if ver <= 22 {
      VersionsFrom19(ver);
    } else if ver <= 26 {
      VersionsFrom23(ver);
    } else if ver <= 30 {
      VersionsFrom27(ver);
    } else if ver <= 34 {
      VersionsFrom31(ver);
    } else if ver <= 37 {
      VersionsFrom35(ver);
    } else {
      VersionsFrom38(ver);
    }
  }
}
