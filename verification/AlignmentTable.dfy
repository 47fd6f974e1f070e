/** The positions of alignment patterns as a table: annex E of ISO/IEC 18004:2015. */
module AlignmentTable {
  import opened FunctionPatterns
  import opened Tables

  function AnnexE(ver: nat): seq<int>
    requires IsVersion(ver)
  {
    match ver
    case 1 => []
    case 2 => [6, 18]
    case 3 => [6, 22]
    case 4 => [6, 26]
    case 5 => [6, 30]
    case 6 => [6, 34]
    case 7 => [6, 22, 38]
    case 8 => [6, 24, 42]
    case 9 => [6, 26, 46]
    case 10 => [6, 28, 50]
    case 11 => [6, 30, 54]
    case 12 => [6, 32, 58]
    case 13 => [6, 34, 62]
    case 14 => [6, 26, 46, 66]
    case 15 => [6, 26, 48, 70]
    case 16 => [6, 26, 50, 74]
    case 17 => [6, 30, 54, 78]
    case 18 => [6, 30, 56, 82]
    case 19 => [6, 30, 58, 86]
    case 20 => [6, 34, 62, 90]
    case 21 => [6, 28, 50, 72, 94]
    case 22 => [6, 26, 50, 74, 98]
    case 23 => [6, 30, 54, 78, 102]
    case 24 => [6, 28, 54, 80, 106]
    case 25 => [6, 32, 58, 84, 110]
    case 26 => [6, 30, 58, 86, 114]
    case 27 => [6, 34, 62, 90, 118]
    case 28 => [6, 26, 50, 74, 98, 122]
    case 29 => [6, 30, 54, 78, 102, 126]
    case 30 => [6, 26, 52, 78, 104, 130]
    case 31 => [6, 30, 56, 82, 108, 134]
    case 32 => [6, 34, 60, 86, 112, 138]
    case 33 => [6, 30, 58, 86, 114, 142]
    case 34 => [6, 34, 62, 90, 118, 146]
    case 35 => [6, 30, 54, 78, 102, 126, 150]
    case 36 => [6, 24, 50, 76, 102, 128, 154]
    case 37 => [6, 28, 54, 80, 106, 132, 158]
    case 38 => [6, 32, 58, 84, 110, 136, 162]
    case 39 => [6, 26, 54, 82, 110, 138, 166]
    case _ => [6, 30, 58, 86, 114, 142, 170]
  }

  lemma StepFrom2(ver: nat)
    requires 2 <= ver <= 6
    ensures NumAlign(ver) == 2
    ensures AlignStep(ver)
         == match ver case 2 => 12 case 3 => 16 case 4 => 20 case 5 => 24 case _ => 28
  {
    assert AlignStep(ver) == (ver * 8 + 11) / 4 * 2;
    hide AlignStep;
    assert ver == 2 || ver == 3 || ver == 4 || ver == 5 || ver == 6;
  }

  lemma PositionsFrom2(ver: nat)
    requires 2 <= ver <= 6
    ensures AlignPositions(ver) == AnnexE(ver)
  {
    StepFrom2(ver);
    hide AlignStep, NumAlign;
    assert ver == 2 || ver == 3 || ver == 4 || ver == 5 || ver == 6;
  }

  lemma StepFrom7(ver: nat)
    requires 7 <= ver <= 13
    ensures NumAlign(ver) == 3
    ensures AlignStep(ver)
         == match ver case 7 => 16 case 8 => 18 case 9 => 20 case 10 => 22 case 11 => 24 case 12 => 26 case _ => 28
  {
    assert AlignStep(ver) == (ver * 8 + 14) / 8 * 2;
    hide AlignStep;
    assert ver == 7 || ver == 8 || ver == 9 || ver == 10 || ver == 11 || ver == 12 || ver == 13;
  }

  lemma PositionsFrom7(ver: nat)
    requires 7 <= ver <= 13
    ensures AlignPositions(ver) == AnnexE(ver)
  {
    StepFrom7(ver);
    hide AlignStep, NumAlign;
    assert ver == 7 || ver == 8 || ver == 9 || ver == 10 || ver == 11 || ver == 12 || ver == 13;
  }

  lemma StepFrom14(ver: nat)
    requires 14 <= ver <= 20
    ensures NumAlign(ver) == 4
    ensures AlignStep(ver)
         == match ver case 14 => 20 case 15 => 22 case 16 => 24 case 17 => 24 case 18 => 26 case 19 => 28 case _ => 28
  {
    assert AlignStep(ver) == (ver * 8 + 17) / 12 * 2;
    hide AlignStep;
    assert ver == 14 || ver == 15 || ver == 16 || ver == 17 || ver == 18 || ver == 19 || ver == 20;
  }

  lemma PositionsFrom14(ver: nat)
    requires 14 <= ver <= 20
    ensures AlignPositions(ver) == AnnexE(ver)
  {
    StepFrom14(ver);
    hide AlignStep, NumAlign;
    assert ver == 14 || ver == 15 || ver == 16 || ver == 17 || ver == 18 || ver == 19 || ver == 20;
  }

  lemma StepFrom21(ver: nat)
    requires 21 <= ver <= 27
    ensures NumAlign(ver) == 5
    ensures AlignStep(ver)
         == match ver case 21 => 22 case 22 => 24 case 23 => 24 case 24 => 26 case 25 => 26 case 26 => 28 case _ => 28
  {
    assert AlignStep(ver) == (ver * 8 + 20) / 16 * 2;
    hide AlignStep;
    assert ver == 21 || ver == 22 || ver == 23 || ver == 24 || ver == 25 || ver == 26 || ver == 27;
  }

  lemma PositionsFrom21(ver: nat)
    requires 21 <= ver <= 27
    ensures AlignPositions(ver) == AnnexE(ver)
  {
    StepFrom21(ver);
    hide AlignStep, NumAlign;
    assert ver == 21 || ver == 22 || ver == 23 || ver == 24 || ver == 25 || ver == 26 || ver == 27;
  }

  lemma StepFrom28(ver: nat)
    requires 28 <= ver <= 34
    ensures NumAlign(ver) == 6
    ensures AlignStep(ver)
         == match ver case 28 => 24 case 29 => 24 case 30 => 26 case 31 => 26 case 32 => 26 case 33 => 28 case _ => 28
  {
    assert AlignStep(ver) == (ver * 8 + 23) / 20 * 2;
    hide AlignStep;
    assert ver == 28 || ver == 29 || ver == 30 || ver == 31 || ver == 32 || ver == 33 || ver == 34;
  }

  lemma PositionsFrom28(ver: nat)
    requires 28 <= ver <= 34
    ensures AlignPositions(ver) == AnnexE(ver)
  {
    StepFrom28(ver);
    hide AlignStep, NumAlign;
    assert ver == 28 || ver == 29 || ver == 30 || ver == 31 || ver == 32 || ver == 33 || ver == 34;
  }

  lemma StepFrom35(ver: nat)
    requires 35 <= ver <= 40
    ensures NumAlign(ver) == 7
    ensures AlignStep(ver)
         == match ver case 35 => 24 case 36 => 26 case 37 => 26 case 38 => 26 case 39 => 28 case _ => 28
  {
    assert AlignStep(ver) == (ver * 8 + 26) / 24 * 2;
    hide AlignStep;
    assert ver == 35 || ver == 36 || ver == 37 || ver == 38 || ver == 39 || ver == 40;
  }

  lemma PositionsFrom35(ver: nat)
    requires 35 <= ver <= 40
    ensures AlignPositions(ver) == AnnexE(ver)
  {
    StepFrom35(ver);
    hide AlignStep, NumAlign;
    assert ver == 35 || ver == 36 || ver == 37 || ver == 38 || ver == 39 || ver == 40;
  }

  /** The formula gives the table. */
  lemma PositionsAsTabled(ver: nat)
    requires IsVersion(ver)
    ensures AlignPositions(ver) == AnnexE(ver)
  {
    hide AlignPositions, AnnexE;
    if ver == 1 {
      PositionsOf1();
    } else if ver <= 6 {
      PositionsFrom2(ver);
    } else if ver <= 13 {
      PositionsFrom7(ver);
    } else if ver <= 20 {
      PositionsFrom14(ver);
    } else if ver <= 27 {
      PositionsFrom21(ver);
    } else if ver <= 34 {
      PositionsFrom28(ver);
    } else {
      PositionsFrom35(ver);
    }
  }

  lemma PositionsOf1()
    ensures AlignPositions(1) == AnnexE(1)
  {
  }
}
