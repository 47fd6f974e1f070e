/** Choosing version and level, and the two high-level factories: section 7.1 of
    ISO/IEC 18004:2015. */
module Encoder {
  import opened BitStream
  import opened Contents
  import opened Limits
  import opened Masking
  import opened QrCodes
  import opened Reader
  import opened Results
  import opened Segments
  import opened Symbols
  import opened Tables
  import opened TextSegments

  // ----- what the choices are -----

  ghost predicate ValidArguments(minVersion: int, maxVersion: int, mask: int) {
    MIN_VERSION <= minVersion <= maxVersion <= MAX_VERSION && -1 <= mask <= 7
  }

  /** The smallest version in the range that can hold the segments. */
  ghost predicate SmallestVersion(segs: seq<QrSegment>, ecl: Ecc, minVersion: int, maxVersion: int, version: int) {
    && MIN_VERSION <= minVersion <= version <= maxVersion <= MAX_VERSION
    && Fits(segs, version, ecl)
    && forall v :: minVersion <= v < version ==> !Fits(segs, v, ecl)
  }

  /** The highest level at which the segments fit the version. */
  ghost predicate HighestLevel(segs: seq<QrSegment>, version: int, level: Ecc) {
    && IsVersion(version)
    && Fits(segs, version, level)
    && forall e :: Ordinal(e) > Ordinal(level) ==> !Fits(segs, version, e)
  }

  /** A finished symbol for the segments. */
  ghost predicate Encodes(code: QrCode, segs: seq<QrSegment>)
    reads code
  {
    && IsVersion(code.version)
    && 0 <= code.mask < 8
    && Fits(segs, code.version, code.errorCorrectionLevel)
    && code.modules == Symbol(code.version, code.errorCorrectionLevel,
                              DataCodewords(segs, code.version, code.errorCorrectionLevel), code.mask)
  }

  /** A finished symbol for the segments at version, level and mask of the best kind. */
  ghost predicate EncodesBest(code: QrCode, segs: seq<QrSegment>, ecl: Ecc)
    reads code
  {
    var (version, level) := (code.version, code.errorCorrectionLevel);
    && Encodes(code, segs)
    && SmallestVersion(segs, ecl, MIN_VERSION, MAX_VERSION, version)
    && HighestLevel(segs, version, level)
    && BestMask(version, level, DataCodewords(segs, version, level), code.mask)
  }

  // ----- the choices of encodeSegments -----

  lemma CapacityInt(ver: nat, ecl: Ecc)
    requires IsVersion(ver)
    ensures 0 < 8 * NumDataCodewords(ver, ecl) <= INT_MAX
  {
    CapacityPositive(ver, ecl);
    RawModulesRange(ver);
    hide NumRawDataModules, EccLen, NumBlocks;
    ProductNonNegative(EccLen(ver, ecl), NumBlocks(ver, ecl));
  }

  lemma ProductNonNegative(a: nat, b: nat)
    ensures a * b >= 0
  {
  }

  /** The first version of the range that fits, together with the length of its stream. */
  method FindVersion(segs: seq<QrSegment>, ecl: Ecc, minVersion: nat, maxVersion: nat)
    returns (r: Result<(nat, nat)>)
    requires MIN_VERSION <= minVersion <= maxVersion <= MAX_VERSION
    ensures r.Ok? ==> var (version, dataUsedBits) := r.value;
      SmallestVersion(segs, ecl, minVersion, maxVersion, version) && dataUsedBits == |Stream(segs, version)|
    ensures r.Err? ==> r.error == DataTooLong && forall v :: minVersion <= v <= maxVersion ==> !Fits(segs, v, ecl)
  {
    hide CountsFit, Stream, NumDataCodewords;
    var version := minVersion;
    while true
      invariant minVersion <= version <= maxVersion
      invariant forall v :: minVersion <= v < version ==> !Fits(segs, v, ecl)
      decreases maxVersion - version
    {
      CapacityInt(version, ecl);
      var dataCapacityBits := NumDataCodewords(version, ecl) * 8;
      var dataUsedBits := GetTotalBits(segs, version);
      if dataUsedBits != -1 && dataUsedBits <= dataCapacityBits {
        return Ok((version, dataUsedBits));
      }
      assert !Fits(segs, version, ecl);
      if version >= maxVersion {
        return Err(DataTooLong);
      }
      version := version + 1;
    }
  }

  /** A lower level has room for what a higher one holds. */
  lemma FitsBelow(segs: seq<QrSegment>, ver: nat, lower: Ecc, higher: Ecc)
    requires IsVersion(ver) && Ordinal(lower) <= Ordinal(higher) && Fits(segs, ver, higher)
    ensures Fits(segs, ver, lower)
  {
    hide CountsFit, Stream, NumDataCodewords;
    if lower != higher {
      CapacityDecreases(ver, lower, higher);
    }
  }

  /** The last level of the list that fits, or the given one; FitsBelow makes that the
      highest of all. */
  method BoostLevel(segs: seq<QrSegment>, version: nat, ecl: Ecc, dataUsedBits: nat, boostEcl: bool)
    returns (level: Ecc)
    requires IsVersion(version) && Fits(segs, version, ecl) && dataUsedBits == |Stream(segs, version)|
    ensures if boostEcl then HighestLevel(segs, version, level) else level == ecl
    ensures Ordinal(level) >= Ordinal(ecl)
  {
    hide CountsFit, Stream, NumDataCodewords;
    level := ecl;
    var levels := [MEDIUM, QUARTILE, HIGH];  // ascending in Ordinal
    for k := 0 to 3
      invariant Fits(segs, version, level)
      invariant !boostEcl ==> level == ecl
      invariant boostEcl ==>
        forall i :: 0 <= i < k && Ordinal(levels[i]) > Ordinal(level) ==> !Fits(segs, version, levels[i])
      invariant Ordinal(level) <= k || level == ecl
      invariant Ordinal(level) >= k || Ordinal(level) >= Ordinal(ecl)
    {
      var newEcl := levels[k];
      assert Ordinal(newEcl) == k + 1;
      if Ordinal(newEcl) <= Ordinal(ecl) {
        FitsBelow(segs, version, newEcl, ecl);
      }
      if boostEcl && dataUsedBits <= NumDataCodewords(version, newEcl) * 8 {
        level := newEcl;
      }
    }
    forall e | boostEcl && Ordinal(e) > Ordinal(level)
      ensures !Fits(segs, version, e)
    {
      assert levels[Ordinal(e) - 1] == e;
    }
  }

  /** Succeeds exactly if some version in the range holds the segments; the largest one and
      the last ones before the count fields widen decide, over the full range the largest
      alone. */
  method EncodeSegments(segs: seq<QrSegment>, ecl: Ecc, minVersion: int := 1, maxVersion: int := 40, mask: int := -1,
                        boostEcl: bool := true)
    returns (r: Result<QrCode>)
    ensures !ValidArguments(minVersion, maxVersion, mask) ==> r == Err(InvalidArgument)
    ensures ValidArguments(minVersion, maxVersion, mask) ==>
      if exists v :: minVersion <= v <= maxVersion && Fits(segs, v, ecl) then r.Ok? else r == Err(DataTooLong)
    ensures ValidArguments(minVersion, maxVersion, mask) ==>
      (r.Ok? <==> RangeHolds(segs, ecl, minVersion, maxVersion))
    ensures minVersion == MIN_VERSION && maxVersion == MAX_VERSION && -1 <= mask <= 7 ==>
      (r.Ok? <==> Fits(segs, MAX_VERSION, ecl))
    ensures r.Ok? ==>
      && fresh(r.value)
      && Encodes(r.value, segs)
      && SmallestVersion(segs, ecl, minVersion, maxVersion, r.value.version)
    ensures r.Ok? ==> var level := r.value.errorCorrectionLevel;
      Ordinal(level) >= Ordinal(ecl) && if boostEcl then HighestLevel(segs, r.value.version, level) else level == ecl
    ensures r.Ok? ==> var (version, level) := (r.value.version, r.value.errorCorrectionLevel);
      if mask == -1 then BestMask(version, level, DataCodewords(segs, version, level), r.value.mask)
      else r.value.mask == mask
  {
    hide CountsFit, Stream, NumDataCodewords, Symbol, BestMask;
    if !(MIN_VERSION <= minVersion && minVersion <= maxVersion && maxVersion <= MAX_VERSION) || mask < -1 || mask > 7 {
      return Err(InvalidArgument);
    }
    FitsSomewhere(segs, ecl);
    RangeDecides(segs, ecl, minVersion, maxVersion);
    var choice := FindVersion(segs, ecl, minVersion, maxVersion);
    if choice.Err? {
      return Err(choice.error);
    }
    var (version, dataUsedBits) := choice.value;
    var level := BoostLevel(segs, version, ecl, dataUsedBits, boostEcl);
    CapacityInt(version, level);
    var dataCodewords := MakeDataCodewords(segs, version, level);
    var code := new QrCode(version, level, dataCodewords, mask);
    r := Ok(code);
  }

  /** Succeeds exactly for the texts that the largest version holds in their shortest
      mode, and then makes a symbol that reads as the text, at a version no larger than
      any that could hold the text in one segment. */
  method EncodeText(text: CString, ecl: Ecc) returns (r: Result<QrCode>)
    ensures if Holds(BestMode(text), |text|, ecl) then r.Ok?
            else r == Err(if BestMode(text).BYTE? && |text| > INT_MAX then LengthError else DataTooLong)
    ensures ecl == LOW && |text| <= 2953 ==> r.Ok?
    ensures r.Ok? ==> fresh(r.value) && ReadText(r.value.modules) == Some(text)
    ensures r.Ok? ==> EncodesBest(r.value, SegmentsOf(Choose(text)), ecl)
    ensures forall c: Content, v: nat | Spells(c, text) && IsVersion(v) && Fits([c.Segment()], v, ecl) ::
      r.Ok? && r.value.version <= v
  {
    hide Fits, Symbol, Choose, SegmentsOf, ReadText, Holds, IsNumeric, IsAlphanumeric, BestMask, DataCodewords;
    hide Content.Segment, Content.Valid;
    var segs := MakeSegments(text);
    TextHeld(text, ecl);
    if |text| <= 2953 {
      LowHolds(BestMode(text), |text|);
    }
    forall c: Content, v: nat | Spells(c, text) && IsVersion(v) && Fits([c.Segment()], v, ecl)
      ensures Fits(SegmentsOf(Choose(text)), v, ecl)
    {
      ChoiceFits(text, c, v, ecl);
    }
    if segs.Err? {
      LongNotHeld(|text|, ecl);
      return Err(segs.error);
    }
    r := EncodeSegments(segs.value, ecl);
    if r.Ok? {
      TextRead(text, r.value.version, r.value.errorCorrectionLevel, r.value.mask);
    }
  }

  lemma LongNotHeld(n: nat, ecl: Ecc)
    ensures n > INT_MAX ==> !Holds(BYTE, n, ecl)
  {
    BinaryMaximum(n, ecl);
  }

  method EncodeBinary(data: seq<uint8>, ecl: Ecc) returns (r: Result<QrCode>)
    ensures if Holds(BYTE, |data|, ecl) then r.Ok?
            else r == Err(if |data| > INT_MAX then LengthError else DataTooLong)
    ensures if ecl == LOW then r.Ok? <==> |data| <= 2953 else r.Ok? ==> |data| <= 2953
    ensures r.Ok? ==> fresh(r.value) && ReadContents(r.value.modules) == Some(Binary(data))
    ensures r.Ok? ==> EncodesBest(r.value, SegmentsOf(Binary(data)), ecl)
  {
    hide Fits, Symbol, SegmentsOf, ReadContents, Holds, BestMask, DataCodewords, NumDataCodewords, ByteBits;
    ghost var c := ByteData(data);
    BinaryMaximum(|data|, ecl);
    var seg := MakeBytes(data);
    if seg.Err? {
      LongNotHeld(|data|, ecl);
      return Err(seg.error);
    }
    SingleSegment(c);
    FitsSomewhere([c.Segment()], ecl);
    SegmentHeld(c, ecl);
    r := EncodeSegments([seg.value], ecl);
    if r.Ok? {
      ContentsRead(Binary(data), r.value.version, r.value.errorCorrectionLevel, r.value.mask);
    }
  }
}
