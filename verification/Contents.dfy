/** What segments mean: the reader's side of the segment encodings of section 7.4
    of ISO/IEC 18004:2015. */
module Contents {
  import opened Bits
  import opened RadixGroups
  import opened Results
  import opened Segments
  import opened Seqs

  datatype Content =
    | NumericText(digits: string)
    | AlphanumericText(text: string)
    | ByteData(data: seq<uint8>)
    | EciDesignator(value: nat)
  {
    predicate Valid() {
      match this
      case NumericText(digits) => IsNumeric(digits)
      case AlphanumericText(text) => IsAlphanumeric(text)
      case ByteData(_) => true
      case EciDesignator(value) => value < 1000000
    }

    /** The segment that the factory for this content makes. */
    function Segment(): QrSegment
      requires Valid()
    {
      match this
      case NumericText(digits) => QrSegment(NUMERIC, |digits|, NumericBits(digits))
      case AlphanumericText(text) => QrSegment(ALPHANUMERIC, |text|, AlphanumericBits(text))
      case ByteData(data) => QrSegment(BYTE, |data|, ByteBits(data))
      case EciDesignator(value) => QrSegment(ECI, 0, EciBits(value))
    }
  }

  // ----- digits back to characters -----

  function DigitChars(d: seq<nat>): (s: string)
    requires Digits(d, DECIMAL)
    ensures |s| == |d|
  {
    seq(|d|, i requires 0 <= i < |d| => ('0' as int + d[i]) as char)
  }

  function CharsetChars(d: seq<nat>): (s: string)
    requires Digits(d, BASE_45)
    ensures |s| == |d|
  {
    assert |ALPHANUMERIC_CHARSET| == 45;
    seq(|d|, i requires 0 <= i < |d| => ALPHANUMERIC_CHARSET[d[i]])
  }

  lemma DigitCharsInverse(s: string)
    requires IsNumeric(s)
    ensures Digits(DigitValues(s), DECIMAL) && DigitChars(DigitValues(s)) == s
  {
    DigitValuesAt(s);
  }

  lemma CharsetCharsInverse(s: string)
    requires IsAlphanumeric(s)
    ensures Digits(CharsetValues(s), BASE_45) && CharsetChars(CharsetValues(s)) == s
  {
    hide CharsetIndex;
    CharsetValuesAt(s);
    forall i | 0 <= i < |s|
      ensures ALPHANUMERIC_CHARSET[CharsetValues(s)[i]] == s[i]
    {
      CharsetIndexFinds(s[i]);
    }
  }

  // ----- bytes -----

  function ReadByte(bits: seq<bool>): uint8
    requires |bits| == 8
  {
    ToBitsValue(bits);
    assert Pow2(8) == 256;
    Value(bits)
  }

  function ReadBytes(bits: seq<bool>): seq<uint8>
    requires |bits| % 8 == 0
  {
    if bits == [] then []
    else ReadBytes(bits[..|bits| - 8]) + [ReadByte(bits[|bits| - 8..])]
  }

  lemma ReadByteInverse(b: uint8)
    ensures ReadByte(ToBits(b, 8)) == b
  {
    assert Pow2(8) == 256;
    ValueToBits(b, 8);
  }

  lemma {:induction false} ReadBytesInverse(data: seq<uint8>)
    ensures ReadBytes(ByteBits(data)) == data
  {
    hide ReadByte, ToBits;
    if data != [] {
      var n := |data| - 1;
      ReadBytesInverse(data[..n]);
      ReadByteInverse(data[n]);
      Halves(ByteBits(data[..n]), ToBits(data[n], 8));
      assert data == data[..n] + [data[n]];
    }
  }

  // ----- designators -----

  /** The designator is a prefix code: its first bits tell its length. */
  function DecodeEci(bits: seq<bool>): (r: Option<(nat, seq<bool>)>)
    ensures r.Some? ==> |r.value.1| <= |bits|
  {
    if |bits| >= 8 && !bits[0] then Some((Value(bits[1..8]), bits[8..]))
    else if |bits| >= 16 && !bits[1] then Some((Value(bits[2..16]), bits[16..]))
    else if |bits| >= 24 && !bits[2] then Some((Value(bits[3..24]), bits[24..]))
    else None
  }

  lemma EciPrefixes()
    ensures ToBits(2, 2) == [true, false] && ToBits(6, 3) == [true, true, false]
    ensures Pow2(7) == 128
  {
  }

  /** The leading bit of a value that does not need it. */
  lemma {:induction false} LeadingZero(v: nat, len: nat)
    requires v < Pow2(len)
    ensures ToBits(v, len + 1) == [false] + ToBits(v, len)
  {
    if len > 0 {
      LeadingZero(v / 2, len - 1);
      Assoc([false], ToBits(v / 2, len - 1), [v % 2 == 1]);
    }
  }

  lemma EciRoundTrip(value: nat, rest: seq<bool>)
    requires value < 1000000
    ensures DecodeEci(EciBits(value) + rest) == Some((value, rest))
  {
    EciPrefixes();
    EciWidths();
    hide ToBits, Value, Pow2;
    var bits := EciBits(value) + rest;
    if value < 128 {
      LeadingZero(value, 7);
      ValueToBits(value, 7);
      assert bits[1..8] == ToBits(value, 7) && bits[8..] == rest;
    } else if value < 16384 {
      ValueToBits(value, 14);
      assert bits[2..16] == ToBits(value, 14) && bits[16..] == rest;
    } else {
      ValueToBits(value, 21);
      assert bits[3..24] == ToBits(value, 21) && bits[24..] == rest;
    }
  }

  /** No other designator of the value is shorter. */
  lemma EciShortest(value: nat, bits: seq<bool>)
    requires value < 1000000 && DecodeEci(bits) == Some((value, []))
    ensures |EciBits(value)| <= |bits|
  {
    EciWidths();
    EciPrefixes();
    hide ToBits, Value, Pow2;
    if |bits| == 8 {
      ToBitsValue(bits[1..8]);
    } else if |bits| == 16 {
      ToBitsValue(bits[2..16]);
    }
  }

  // ----- payloads -----

  /** Reads the payload of a segment with the given mode and count; also returns
      the bits left over. */
  function DecodePayload(mode: Mode, count: nat, bits: seq<bool>): (r: Option<(Content, seq<bool>)>)
    ensures r.Some? ==> |r.value.1| <= |bits|
  {
    match mode
    case NUMERIC =>
      (match Decode(count, bits, DECIMAL)
       case None => None
       case Some((d, rest)) => DecodeBelow(count, bits, DECIMAL); Some((NumericText(DigitChars(d)), rest)))
    case ALPHANUMERIC =>
      (match Decode(count, bits, BASE_45)
       case None => None
       case Some((d, rest)) => DecodeBelow(count, bits, BASE_45); Some((AlphanumericText(CharsetChars(d)), rest)))
    case BYTE =>
      if |bits| < 8 * count then None
      else Some((ByteData(ReadBytes(bits[..8 * count])), bits[8 * count..]))
    case ECI =>
      (match DecodeEci(bits)
       case None => None
       case Some((value, rest)) => Some((EciDesignator(value), rest)))
    case KANJI => None
  }

  lemma PayloadRoundTrip(c: Content, rest: seq<bool>)
    requires c.Valid()
    ensures DecodePayload(c.Segment().mode, c.Segment().numChars, c.Segment().data + rest) == Some((c, rest))
  {
    hide Encode, Decode, DigitValues, CharsetValues, DigitChars, CharsetChars, ReadBytes, DecodeEci, EciBits;
    match c {
      case NumericText(digits) =>
        DigitCharsInverse(digits);
        DecodeEncode(DigitValues(digits), rest, DECIMAL);
      case AlphanumericText(text) =>
        CharsetCharsInverse(text);
        DecodeEncode(CharsetValues(text), rest, BASE_45);
      case ByteData(data) =>
        Halves(ByteBits(data), rest);
        ReadBytesInverse(data);
      case EciDesignator(value) =>
        EciRoundTrip(value, rest);
    }
  }

  // ----- text -----

  function BytesOf(s: CString): (data: seq<uint8>)
    ensures |data| == |s|
  {
    seq(|s|, i requires 0 <= i < |s| => s[i] as uint8)
  }

  function CharsOf(data: seq<uint8>): (s: string)
    ensures |s| == |data|
  {
    seq(|data|, i requires 0 <= i < |data| => data[i] as char)
  }

  lemma CharsOfInverse(s: CString)
    ensures CharsOf(BytesOf(s)) == s
  {
  }

  function ContentText(c: Content): string {
    match c
    case NumericText(digits) => digits
    case AlphanumericText(text) => text
    case ByteData(data) => CharsOf(data)
    case EciDesignator(_) => ""
  }

  ghost predicate AllValid(cs: seq<Content>) {
    forall i :: 0 <= i < |cs| ==> cs[i].Valid()
  }

  /** The segments that the factories make of a list of contents. */
  function SegmentsOf(cs: seq<Content>): (segs: seq<QrSegment>)
    requires AllValid(cs)
    ensures |segs| == |cs|
  {
    if cs == [] then [] else [cs[0].Segment()] + SegmentsOf(cs[1..])
  }

  function TextOf(cs: seq<Content>): string {
    if cs == [] then "" else ContentText(cs[0]) + TextOf(cs[1..])
  }

  /** What encodeBinary encodes. */
  function Binary(data: seq<uint8>): (cs: seq<Content>)
    ensures |cs| == 1 && AllValid(cs)
  {
    [ByteData(data)]
  }
}
