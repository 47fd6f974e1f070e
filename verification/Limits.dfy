/** How much a symbol can hold: section 7.1 of ISO/IEC 18004:2015. */
module Limits {
  import opened Arithmetic
  import opened Bits
  import opened BitStream
  import opened Contents
  import opened Segments
  import opened Tables
  import opened TextSegments

  lemma {:induction false} Pow2Monotone(a: nat, b: nat)
    requires a <= b
    ensures Pow2(a) <= Pow2(b)
  {
    if a < b {
      Pow2Monotone(a, b - 1);
    }
  }

  // ----- any list of segments, at any version and at the largest -----

  lemma CountWidths(mode: Mode, ver: nat)
    requires IsVersion(ver)
    ensures mode.NumCharCountBits(ver) <= mode.NumCharCountBits(40)
    ensures ver <= 9 ==> 3 * (4 + mode.NumCharCountBits(40)) <= 5 * (4 + mode.NumCharCountBits(ver))
    ensures 10 <= ver <= 26 ==> 7 * (4 + mode.NumCharCountBits(40)) <= 8 * (4 + mode.NumCharCountBits(ver))
    ensures 27 <= ver ==> mode.NumCharCountBits(40) == mode.NumCharCountBits(ver)
  {
  }

  lemma StreamFirst(segs: seq<QrSegment>, ver: nat)
    requires IsVersion(ver) && segs != []
    ensures |Stream(segs, ver)|
         == 4 + segs[0].mode.NumCharCountBits(ver) + |segs[0].data| + |Stream(segs[1..], ver)|
  {
    hide Header;
  }

  /** Wider count fields lengthen a stream by no more than the headers grow. */
  lemma {:induction false} StreamGrows(segs: seq<QrSegment>, ver: nat)
    requires IsVersion(ver)
    ensures ver <= 9 ==> 3 * |Stream(segs, 40)| <= 5 * |Stream(segs, ver)|
    ensures 10 <= ver <= 26 ==> 7 * |Stream(segs, 40)| <= 8 * |Stream(segs, ver)|
    ensures 27 <= ver ==> |Stream(segs, 40)| == |Stream(segs, ver)|
  {
    if segs == [] {
      StreamNothing(ver);
      StreamNothing(40);
    } else {
      hide Stream, Mode.NumCharCountBits;
      StreamGrows(segs[1..], ver);
      StreamFirst(segs, ver);
      StreamFirst(segs, 40);
      CountWidths(segs[0].mode, ver);
    }
  }

  lemma CountsFitLargest(segs: seq<QrSegment>, ver: nat)
    requires IsVersion(ver) && CountsFit(segs, ver)
    ensures CountsFit(segs, 40)
  {
    hide Pow2, Mode.NumCharCountBits;
    forall i | 0 <= i < |segs|
      ensures segs[i].numChars < Pow2(segs[i].mode.NumCharCountBits(40))
    {
      CountWidths(segs[i].mode, ver);
      Pow2Monotone(segs[i].mode.NumCharCountBits(ver), segs[i].mode.NumCharCountBits(40));
    }
  }

  /** If any version can hold a list of segments then the largest can: capacity grows
      faster than the headers. */
  lemma FitsLargest(segs: seq<QrSegment>, ver: nat, ecl: Ecc)
    requires IsVersion(ver) && Fits(segs, ver, ecl)
    ensures Fits(segs, 40, ecl)
  {
    hide Stream, CountsFit, NumDataCodewords;
    CountsFitLargest(segs, ver);
    StreamGrows(segs, ver);
    LargestVersion(ver, ecl);
  }

  /** So the largest version decides. */
  lemma FitsSomewhere(segs: seq<QrSegment>, ecl: Ecc)
    ensures (exists v :: IsVersion(v) && Fits(segs, v, ecl)) <==> Fits(segs, 40, ecl)
  {
    hide Fits;
    forall v | IsVersion(v) && Fits(segs, v, ecl)
      ensures Fits(segs, 40, ecl)
    {
      FitsLargest(segs, v, ecl);
    }
    assert IsVersion(40);
  }

  // ----- one version and the next -----

  /** The last version with the count fields of this one. */
  function BandEnd(ver: nat): nat {
    if ver <= 9 then 9 else if ver <= 26 then 26 else 40
  }

  lemma SameWidths(mode: Mode, ver: nat)
    requires 1 <= ver < 40 && ver != BandEnd(ver)
    ensures mode.NumCharCountBits(ver) == mode.NumCharCountBits(ver + 1)
    ensures BandEnd(ver + 1) == BandEnd(ver) > ver
  {
  }

  lemma {:induction false} StreamSame(segs: seq<QrSegment>, ver: nat)
    requires 1 <= ver < 40 && ver != BandEnd(ver)
    ensures |Stream(segs, ver)| == |Stream(segs, ver + 1)|
  {
    if segs == [] {
      StreamNothing(ver);
      StreamNothing(ver + 1);
    } else {
      hide Stream, Mode.NumCharCountBits;
      StreamSame(segs[1..], ver);
      StreamFirst(segs, ver);
      StreamFirst(segs, ver + 1);
      SameWidths(segs[0].mode, ver);
    }
  }

  /** The next version holds whatever this one does, unless its count fields are wider. */
  lemma NextHolds(segs: seq<QrSegment>, ver: nat, ecl: Ecc)
    requires 1 <= ver < 40 && ver != 9 && ver != 26 && Fits(segs, ver, ecl)
    ensures Fits(segs, ver + 1, ecl)
  {
    hide Stream, Pow2, Mode.NumCharCountBits, NumDataCodewords;
    StreamSame(segs, ver);
    CapacityGrows(ver, ecl);
    forall i | 0 <= i < |segs|
      ensures segs[i].numChars < Pow2(segs[i].mode.NumCharCountBits(ver + 1))
    {
      SameWidths(segs[i].mode, ver);
    }
  }

  function Empties(mode: Mode, n: nat): (segs: seq<QrSegment>)
    ensures |segs| == n
  {
    if n == 0 then [] else [QrSegment(mode, 0, [])] + Empties(mode, n - 1)
  }

  lemma {:induction false} EmptiesStream(mode: Mode, n: nat, ver: nat)
    requires IsVersion(ver)
    ensures |Stream(Empties(mode, n), ver)| == n * (4 + mode.NumCharCountBits(ver))
    ensures CountsFit(Empties(mode, n), ver)
  {
    hide Mode.NumCharCountBits;
    if n == 0 {
      StreamNothing(ver);
    } else {
      hide Stream;
      EmptiesStream(mode, n - 1, ver);
      StreamFirst(Empties(mode, n), ver);
      assert Empties(mode, n)[1..] == Empties(mode, n - 1);
      OneMore(n - 1, 4 + mode.NumCharCountBits(ver));
    }
  }

  /** 154 empty byte segments: the wider count fields of version 10 cost more than its
      capacity gains. */
  lemma LossAfter9()
    ensures Fits(Empties(BYTE, 154), 9, LOW) && !Fits(Empties(BYTE, 154), 10, LOW)
  {
    hide Stream, CountsFit, Empties, NumDataCodewords;
    EmptiesStream(BYTE, 154, 9);
    EmptiesStream(BYTE, 154, 10);
    Capacities(9, LOW);
    Capacities(10, LOW);
  }

  /** Likewise 685 empty numeric segments and version 27. */
  lemma LossAfter26()
    ensures Fits(Empties(NUMERIC, 685), 26, LOW) && !Fits(Empties(NUMERIC, 685), 27, LOW)
  {
    hide Stream, CountsFit, Empties, NumDataCodewords;
    EmptiesStream(NUMERIC, 685, 26);
    EmptiesStream(NUMERIC, 685, 27);
    Capacities(26, LOW);
    Capacities(27, LOW);
  }

  /** The next version holds whatever this one does. */
  ghost predicate NextHoldsAll(ver: nat)
    requires 1 <= ver < 40
  {
    forall segs: seq<QrSegment>, ecl: Ecc :: Fits(segs, ver, ecl) ==> Fits(segs, ver + 1, ecl)
  }

  /** Exactly versions 9 and 26 are followed by one that may hold less. */
  lemma NextVersionMayLose(ver: nat)
    requires 1 <= ver < 40
    ensures NextHoldsAll(ver) <==> ver != 9 && ver != 26
  {
    hide Fits;
    LossAfter9();
    LossAfter26();
    if ver != 9 && ver != 26 {
      forall segs: seq<QrSegment>, ecl: Ecc | Fits(segs, ver, ecl)
        ensures Fits(segs, ver + 1, ecl)
      {
        NextHolds(segs, ver, ecl);
      }
    } else {
      var segs := if ver == 9 then Empties(BYTE, 154) else Empties(NUMERIC, 685);
      assert Fits(segs, ver, LOW) && !Fits(segs, ver + 1, LOW);
    }
  }

  lemma {:induction false} FitsAbove(segs: seq<QrSegment>, ver: nat, higher: nat, ecl: Ecc)
    requires 1 <= ver <= higher <= BandEnd(ver) && Fits(segs, ver, ecl)
    ensures Fits(segs, higher, ecl)
    decreases higher - ver
  {
    hide Fits;
    if ver < higher {
      NextHolds(segs, ver, ecl);
      FitsAbove(segs, ver + 1, higher, ecl);
    }
  }

  /** Whether the largest version of a range holds the segments, or the last one before
      the count fields widen. */
  ghost predicate RangeHolds(segs: seq<QrSegment>, ecl: Ecc, minVersion: nat, maxVersion: nat)
    requires 1 <= minVersion <= maxVersion <= 40
  {
    || Fits(segs, maxVersion, ecl)
    || (minVersion <= 9 <= maxVersion && Fits(segs, 9, ecl))
    || (minVersion <= 26 <= maxVersion && Fits(segs, 26, ecl))
  }

  /** At most three versions decide for a whole range. */
  lemma RangeDecides(segs: seq<QrSegment>, ecl: Ecc, minVersion: nat, maxVersion: nat)
    requires 1 <= minVersion <= maxVersion <= 40
    ensures (exists v :: minVersion <= v <= maxVersion && Fits(segs, v, ecl))
       <==> RangeHolds(segs, ecl, minVersion, maxVersion)
  {
    hide Fits;
    forall v | minVersion <= v <= maxVersion && Fits(segs, v, ecl)
      ensures RangeHolds(segs, ecl, minVersion, maxVersion)
    {
      FitsAbove(segs, v, if BandEnd(v) < maxVersion then BandEnd(v) else maxVersion, ecl);
    }
  }

  // ----- texts -----

  lemma WidthsAtLargest()
    ensures NUMERIC.NumCharCountBits(40) == 14 && ALPHANUMERIC.NumCharCountBits(40) == 13
    ensures BYTE.NumCharCountBits(40) == 16
    ensures Pow2(14) == 16384 && Pow2(13) == 8192 && Pow2(16) == 65536
  {
  }

  /** Whether the largest symbol holds n characters in a mode. */
  predicate Holds(mode: Mode, n: nat, ecl: Ecc)
    requires IsText(mode)
  {
    var countBits := match mode case NUMERIC => 14 case ALPHANUMERIC => 13 case BYTE => 16;
    4 + countBits + PayloadLen(mode, n) <= 8 * NumDataCodewords(40, ecl)
  }

  lemma CountFitsToo(mode: Mode, n: nat, ecl: Ecc)
    requires IsText(mode) && Holds(mode, n, ecl)
    ensures n < Pow2(mode.NumCharCountBits(40))
  {
    WidthsAtLargest();
    LargestVersion(40, ecl);
    hide NumDataCodewords, Pow2, Mode.NumCharCountBits;
  }

  /** When a version holds a single segment. */
  lemma FitsSingle(c: Content, ver: nat, ecl: Ecc)
    requires c.Valid() && !c.EciDesignator? && IsVersion(ver)
    ensures IsText(c.Segment().mode)
    ensures Fits([c.Segment()], ver, ecl)
       <==> (var (mode, n) := (c.Segment().mode, |ContentText(c)|);
             n < Pow2(mode.NumCharCountBits(ver)) && SegmentBits(mode, n, ver) <= 8 * NumDataCodewords(ver, ecl))
  {
    ContentBits(c, ver);
    SingleSegment(c);
    hide Content.Segment, Content.Valid, Stream, SegmentBits, Pow2, NumDataCodewords, SegmentsOf, ContentText;
    hide Mode.NumCharCountBits;
    assert [c.Segment()][0] == c.Segment();
  }

  lemma SegmentHeld(c: Content, ecl: Ecc)
    requires c.Valid() && !c.EciDesignator?
    ensures IsText(c.Segment().mode)
    ensures Fits([c.Segment()], 40, ecl) <==> Holds(c.Segment().mode, |ContentText(c)|, ecl)
  {
    FitsSingle(c, 40, ecl);
    hide Content.Segment, Content.Valid, ContentText, Fits, Pow2, NumDataCodewords, PayloadLen, Mode.NumCharCountBits;
    var (mode, n) := (c.Segment().mode, |ContentText(c)|);
    WidthsAtLargest();
    if Holds(mode, n, ecl) {
      CountFitsToo(mode, n, ecl);
    }
  }

  /** The texts that some version can hold. */
  lemma TextHeld(text: CString, ecl: Ecc)
    ensures (exists v :: IsVersion(v) && Fits(SegmentsOf(Choose(text)), v, ecl))
       <==> Holds(BestMode(text), |text|, ecl)
  {
    if text == "" {
      EmptyFits(ecl);
      assert SegmentsOf([]) == [] && IsVersion(40);
    } else {
      var c := Choose(text)[0];
      SingleSegment(c);
      assert Choose(text) == [c];
      FitsSomewhere([c.Segment()], ecl);
      SegmentHeld(c, ecl);
    }
  }

  lemma EmptyFits(ecl: Ecc)
    ensures Fits([], 40, ecl) && Holds(NUMERIC, 0, ecl)
  {
    StreamNothing(40);
    LargestVersion(40, ecl);
  }

  /** The documented guarantee: 2953 characters always fit at the low level... */
  lemma LowHolds(mode: Mode, n: nat)
    requires IsText(mode)
    requires n <= 2953
    ensures Holds(mode, n, LOW)
  {
    LargestVersion(40, LOW);
    hide NumDataCodewords;
  }

  /** ...and are the most that binary mode can hold at any level. */
  lemma BinaryMaximum(n: nat, ecl: Ecc)
    ensures Holds(BYTE, n, ecl) <==> n <= NumDataCodewords(40, ecl) - 3
    ensures NumDataCodewords(40, ecl) - 3 <= 2953
    ensures ecl == LOW ==> NumDataCodewords(40, ecl) - 3 == 2953
  {
    LargestVersion(40, ecl);
    hide NumDataCodewords;
  }

  /** One segment of digits holds at most 7089 of them, any other text at most 4296. */
  lemma MostPerMode(mode: Mode, n: nat, ecl: Ecc)
    requires IsText(mode) && Holds(mode, n, ecl)
    ensures n <= if mode.NUMERIC? then 7089 else 4296
    ensures Holds(NUMERIC, 7089, LOW) && Holds(ALPHANUMERIC, 4296, LOW)
  {
    LargestVersion(40, ecl);
    LargestVersion(40, LOW);
    hide NumDataCodewords;
  }

  /** Ten bits hold at most three characters, and a header takes the rest. */
  lemma CharactersPerBit(c: Content)
    requires c.Valid()
    ensures 3 * (4 + c.Segment().mode.NumCharCountBits(40) + |c.Segment().data|)
         >= 10 * |ContentText(c)| + if ContentText(c) == "" then 0 else 51
  {
    if !c.EciDesignator? {
      SegmentLen(c);
      SingleSegment(c);
      ContentBits(c, 40);
      WidthsAtLargest();
      hide Content.Segment, Content.Valid, ContentText, Mode.NumCharCountBits, SegmentBits, Stream;
    }
  }

  lemma {:induction false} CharactersPerStream(cs: seq<Content>)
    requires AllValid(cs)
    ensures 3 * |Stream(SegmentsOf(cs), 40)| >= 10 * |TextOf(cs)| + if TextOf(cs) == "" then 0 else 51
  {
    if cs == [] {
      StreamNothing(40);
    } else {
      hide Stream, Content.Segment, Content.Valid, ContentText, Mode.NumCharCountBits;
      CharactersPerStream(cs[1..]);
      CharactersPerBit(cs[0]);
      StreamFirst(SegmentsOf(cs), 40);
      assert SegmentsOf(cs)[1..] == SegmentsOf(cs[1..]);
    }
  }

  /** No symbol holds more than 7089 characters, in whatever segments... */
  lemma MostCharacters(cs: seq<Content>, ver: nat, ecl: Ecc)
    requires AllValid(cs) && IsVersion(ver) && Fits(SegmentsOf(cs), ver, ecl)
    ensures |TextOf(cs)| <= 7089
  {
    hide Stream, SegmentsOf, TextOf, CountsFit, NumDataCodewords;
    FitsLargest(SegmentsOf(cs), ver, ecl);
    CharactersPerStream(cs);
    LargestVersion(40, ecl);
  }

  /** ...and every 7089 digits are held by one. */
  lemma MostReached(digits: CString)
    requires IsNumeric(digits) && |digits| == 7089
    ensures Fits(SegmentsOf([NumericText(digits)]), 40, LOW) && TextOf([NumericText(digits)]) == digits
  {
    var c := NumericText(digits);
    assert TextOf([c]) == ContentText(c) + TextOf([c][1..]);
    SingleSegment(c);
    SegmentHeld(c, LOW);
    LargestVersion(40, LOW);
    hide NumDataCodewords, Fits, IsNumeric, SegmentsOf;
  }

  // ----- the chosen mode against the others -----

  /** A count that fits the field of a longer segment fits that of the shorter one. */
  lemma CountStillFits(best: Mode, other: Mode, n: nat, ver: nat, ecl: Ecc)
    requires IsText(best) && IsText(other) && IsVersion(ver)
    requires other.NUMERIC? ==> best.NUMERIC?
    requires other.ALPHANUMERIC? ==> !best.BYTE?
    requires n < Pow2(other.NumCharCountBits(ver)) && SegmentBits(other, n, ver) <= 8 * NumDataCodewords(ver, ecl)
    ensures n < Pow2(best.NumCharCountBits(ver))
  {
    LargestVersion(ver, ecl);
    hide NumDataCodewords;
    FieldSizes();
    hide Pow2;
  }

  lemma FieldSizes()
    ensures Pow2(8) == 256 && Pow2(9) == 512 && Pow2(10) == 1024 && Pow2(11) == 2048
    ensures Pow2(12) == 4096 && Pow2(13) == 8192 && Pow2(14) == 16384 && Pow2(16) == 65536
  {
  }

  /** Whatever single segment spells the text: if a version holds it, then it holds the
      chosen one. */
  lemma ChoiceFits(text: CString, c: Content, ver: nat, ecl: Ecc)
    requires Spells(c, text) && IsVersion(ver) && Fits([c.Segment()], ver, ecl)
    ensures Fits(SegmentsOf(Choose(text)), ver, ecl)
  {
    if text == "" {
      NotLonger(text, c, ver);
      StreamNothing(ver);
    } else {
      ChosenMode(text);
      ModesThatSpell(c, text);
      var best := Choose(text)[0];
      assert Choose(text) == [best];
      hide Choose, BestMode, Content.Segment, Content.Valid, Fits, SegmentBits, Pow2, NumDataCodewords;
      hide Mode.NumCharCountBits, SegmentsOf;
      SingleSegment(best);
      FitsSingle(best, ver, ecl);
      FitsSingle(c, ver, ecl);
      Compact(|text|, ver);
      CountStillFits(best.Segment().mode, c.Segment().mode, |text|, ver, ecl);
    }
  }
}
