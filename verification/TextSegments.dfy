/** One segment for a text, in the mode that takes the fewest bits: section 7.4.1 and
    annex J of ISO/IEC 18004:2015. */
module TextSegments {
  import opened BitStream
  import opened Contents
  import opened RadixGroups
  import opened Results
  import opened Segments
  import opened Tables

  // ----- exact lengths -----

  predicate IsText(mode: Mode) {
    mode.NUMERIC? || mode.ALPHANUMERIC? || mode.BYTE?
  }

  /** The bits of n characters in a mode. */
  function PayloadLen(mode: Mode, n: nat): nat
    requires IsText(mode)
  {
    match mode
    case NUMERIC => n / 3 * 10 + (if n % 3 == 0 then 0 else n % 3 * 3 + 1)
    case ALPHANUMERIC => n / 2 * 11 + n % 2 * 6
    case BYTE => 8 * n
  }

  lemma SegmentLen(c: Content)
    requires c.Valid() && !c.EciDesignator?
    ensures var seg := c.Segment();
            && IsText(seg.mode)
            && |seg.data| == PayloadLen(seg.mode, seg.numChars)
  {
    hide Encode;
    match c {
      case NumericText(digits) => EncodeLength(DigitValues(digits), DECIMAL);
      case AlphanumericText(text) => EncodeLength(CharsetValues(text), BASE_45);
      case ByteData(_) =>
    }
  }

  lemma SingleStream(seg: QrSegment, ver: nat)
    requires IsVersion(ver)
    ensures |Stream([seg], ver)| == 4 + seg.mode.NumCharCountBits(ver) + |seg.data|
  {
    assert [seg][1..] == [];
    StreamNothing(ver);
    hide Header;
  }

  lemma SingleSegment(c: Content)
    requires c.Valid()
    ensures SegmentsOf([c]) == [c.Segment()]
  {
    assert [c][1..] == [];
  }

  /** The bits of a segment of n characters, header and all. */
  function SegmentBits(mode: Mode, n: nat, ver: nat): nat
    requires IsText(mode) && IsVersion(ver)
  {
    4 + mode.NumCharCountBits(ver) + PayloadLen(mode, n)
  }

  lemma ContentBits(c: Content, ver: nat)
    requires c.Valid() && !c.EciDesignator? && IsVersion(ver)
    ensures var seg := c.Segment();
            && IsText(seg.mode)
            && seg.numChars == |ContentText(c)|
            && |Stream(SegmentsOf([c]), ver)| == SegmentBits(seg.mode, seg.numChars, ver)
  {
    SegmentLen(c);
    SingleSegment(c);
    SingleStream(c.Segment(), ver);
    hide Stream, PayloadLen, Mode.NumCharCountBits;
  }

  /** Fewer characters to choose from make shorter segments. */
  lemma Compact(n: nat, ver: nat)
    requires n > 0 && IsVersion(ver)
    ensures SegmentBits(NUMERIC, n, ver) <= SegmentBits(ALPHANUMERIC, n, ver) <= SegmentBits(BYTE, n, ver)
  {
    assert PayloadLen(NUMERIC, n) + 1 <= PayloadLen(ALPHANUMERIC, n);
    assert PayloadLen(ALPHANUMERIC, n) + 1 <= PayloadLen(BYTE, n);
    assert NUMERIC.NumCharCountBits(ver) <= ALPHANUMERIC.NumCharCountBits(ver) + 1;
    assert ALPHANUMERIC.NumCharCountBits(ver) <= BYTE.NumCharCountBits(ver) + 1;
    hide PayloadLen, Mode.NumCharCountBits;
  }

  // ----- the choice -----

  function BestMode(text: CString): (m: Mode)
    ensures IsText(m)
  {
    if IsNumeric(text) then NUMERIC else if IsAlphanumeric(text) then ALPHANUMERIC else BYTE
  }

  /** One segment in the first mode that can spell the text, none for the empty text. */
  function Choose(text: CString): (cs: seq<Content>)
    ensures |cs| <= 1 && AllValid(cs)
  {
    if text == "" then []
    else if IsNumeric(text) then [NumericText(text)]
    else if IsAlphanumeric(text) then [AlphanumericText(text)]
    else [ByteData(BytesOf(text))]
  }

  /** A single segment that a factory makes and that spells the text. */
  ghost predicate Spells(c: Content, text: CString) {
    c.Valid() && !c.EciDesignator? && ContentText(c) == text
  }

  /** No single segment that spells the text is shorter, at any version. */
  ghost predicate Shortest(segs: seq<QrSegment>, text: CString) {
    forall c: Content, ver: nat | Spells(c, text) && IsVersion(ver) ::
      |Stream(segs, ver)| <= |Stream([c.Segment()], ver)|
  }

  lemma ChosenMode(text: CString)
    requires text != ""
    ensures |Choose(text)| == 1 && Spells(Choose(text)[0], text)
    ensures Choose(text)[0].Segment().mode == BestMode(text)
  {
    CharsOfInverse(text);
  }

  lemma ModesThatSpell(c: Content, text: CString)
    requires Spells(c, text)
    ensures c.Segment().mode == NUMERIC ==> BestMode(text) == NUMERIC
    ensures c.Segment().mode == ALPHANUMERIC ==> BestMode(text) != BYTE
    ensures IsText(c.Segment().mode)
  {
  }

  lemma NotLonger(text: CString, c: Content, ver: nat)
    requires Spells(c, text) && IsVersion(ver)
    ensures |Stream(SegmentsOf(Choose(text)), ver)| <= |Stream([c.Segment()], ver)|
  {
    if text == "" {
      StreamNothing(ver);
    } else {
      ChosenMode(text);
      ModesThatSpell(c, text);
      var best := Choose(text)[0];
      assert Choose(text) == [best];
      hide Choose, BestMode, Content.Segment, Content.Valid, Stream, SegmentBits;
      ContentBits(best, ver);
      ContentBits(c, ver);
      Compact(|text|, ver);
      SingleSegment(c);
    }
  }

  lemma ChoiceShortest(text: CString)
    ensures Shortest(SegmentsOf(Choose(text)), text)
  {
    hide Choose, SegmentsOf, Stream, Content.Segment, Content.Valid;
    forall c: Content, ver: nat | Spells(c, text) && IsVersion(ver)
      ensures |Stream(SegmentsOf(Choose(text)), ver)| <= |Stream([c.Segment()], ver)|
    {
      NotLonger(text, c, ver);
    }
  }

  lemma ChoiceKeepsText(text: CString)
    ensures TextOf(Choose(text)) == text
  {
    CharsOfInverse(text);
    if text != "" {
      assert TextOf(Choose(text)[1..]) == "";
    }
  }

  method TextBytes(text: CString) returns (bytes: seq<uint8>)
    ensures bytes == BytesOf(text)
  {
    bytes := [];
    for i := 0 to |text|
      invariant bytes == BytesOf(text)[..i]
    {
      bytes := bytes + [text[i] as uint8];
    }
  }

  /** Selects the shortest segment that spells the text. */
  method MakeSegments(text: CString) returns (r: Result<seq<QrSegment>>)
    ensures r.Ok? <==> IsNumeric(text) || IsAlphanumeric(text) || |text| <= INT_MAX
    ensures if r.Ok? then r.value == SegmentsOf(Choose(text)) else r.error == LengthError
    ensures r.Ok? ==> Shortest(r.value, text)
  {
    ChoiceShortest(text);
    hide Shortest, Stream;
    hide NumericBits, AlphanumericBits, ByteBits, BytesOf, IsAlphanumeric, IsDigit;
    if text == "" {
      return Ok([]);
    }
    var numeric := CheckNumeric(text);
    var alphanumeric := CheckAlphanumeric(text);
    var seg: Result<QrSegment>;
    if numeric {
      seg := MakeNumeric(text);
    } else if alphanumeric {
      seg := MakeAlphanumeric(text);
    } else {
      var bytes := TextBytes(text);
      seg := MakeBytes(bytes);
    }
    r := if seg.Err? then Err(seg.error) else Ok([seg.value]);
  }
}
