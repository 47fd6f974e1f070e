/** The data bit stream of a symbol, its padding, and a reader for it: sections
    7.4.1 and 7.4.9 to 7.4.10 of ISO/IEC 18004:2015. */
module BitStream {
  import opened Bits
  import opened BitBuffers
  import opened Codewords
  import opened Contents
  import opened Galois
  import opened Results
  import opened Segments
  import opened Seqs
  import opened Tables

  function Header(seg: QrSegment, ver: nat): (bits: seq<bool>)
    requires IsVersion(ver)
    ensures |bits| == 4 + seg.mode.NumCharCountBits(ver)
  {
    ToBits(seg.mode.ModeBits(), 4) + ToBits(seg.numChars, seg.mode.NumCharCountBits(ver))
  }

  /** The segments one after the other. */
  function Stream(segs: seq<QrSegment>, ver: nat): seq<bool>
    requires IsVersion(ver)
  {
    if segs == [] then [] else Header(segs[0], ver) + segs[0].data + Stream(segs[1..], ver)
  }

  /** Whether every character count fits its field. */
  ghost predicate CountsFit(segs: seq<QrSegment>, ver: nat)
    requires IsVersion(ver)
  {
    forall i :: 0 <= i < |segs| ==> segs[i].numChars < Pow2(segs[i].mode.NumCharCountBits(ver))
  }

  /** Whether the segments can be written into the data bytes of a symbol. */
  ghost predicate Fits(segs: seq<QrSegment>, ver: nat, ecl: Ecc)
    requires IsVersion(ver)
  {
    CountsFit(segs, ver) && |Stream(segs, ver)| <= 8 * NumDataCodewords(ver, ecl)
  }

  lemma {:induction false} StreamAppend(segs: seq<QrSegment>, seg: QrSegment, ver: nat)
    requires IsVersion(ver)
    ensures Stream(segs + [seg], ver) == Stream(segs, ver) + Header(seg, ver) + seg.data
  {
    hide Header;
    if segs == [] {
      assert [seg][1..] == [];
      assert Stream([], ver) == [];
      Empty(Header(seg, ver) + seg.data);
      Empty(Header(seg, ver));
    } else {
      var h := Header(segs[0], ver) + segs[0].data;
      var rest := Stream(segs[1..], ver);
      assert (segs + [seg])[1..] == segs[1..] + [seg];
      StreamAppend(segs[1..], seg, ver);
      Assoc(h, rest + Header(seg, ver), seg.data);
      Assoc(h, rest, Header(seg, ver));
    }
  }

  // ----- headers in numbers -----

  /** The bits of a header: four for the mode, the rest for the count. */
  function HeaderLen(mode: Mode, ver: nat): nat
    requires IsVersion(ver)
  {
    match mode
    case NUMERIC => if ver < 10 then 14 else if ver < 27 then 16 else 18
    case ALPHANUMERIC => if ver < 10 then 13 else if ver < 27 then 15 else 17
    case BYTE => if ver < 10 then 12 else 20
    case KANJI => if ver < 10 then 12 else if ver < 27 then 14 else 16
    case ECI => 4
  }

  /** The least character count that its field cannot hold. */
  function CountLimit(mode: Mode, ver: nat): nat
    requires IsVersion(ver)
  {
    match mode
    case NUMERIC => if ver < 10 then 1024 else if ver < 27 then 4096 else 16384
    case ALPHANUMERIC => if ver < 10 then 512 else if ver < 27 then 2048 else 8192
    case BYTE => if ver < 10 then 256 else 65536
    case KANJI => if ver < 10 then 256 else if ver < 27 then 1024 else 4096
    case ECI => 1
  }

  /** The four bits that announce a mode. */
  function ModeIndicator(mode: Mode): seq<bool> {
    match mode
    case NUMERIC => [false, false, false, true]
    case ALPHANUMERIC => [false, false, true, false]
    case BYTE => [false, true, false, false]
    case KANJI => [true, false, false, false]
    case ECI => [false, true, true, true]
  }

  ghost predicate CountsBelow(segs: seq<QrSegment>, ver: nat)
    requires IsVersion(ver)
  {
    forall i :: 0 <= i < |segs| ==> segs[i].numChars < CountLimit(segs[i].mode, ver)
  }

  function TotalLen(segs: seq<QrSegment>, ver: nat): nat
    requires IsVersion(ver)
  {
    if segs == [] then 0 else HeaderLen(segs[0].mode, ver) + |segs[0].data| + TotalLen(segs[1..], ver)
  }

  lemma PowersInCounts()
    ensures Pow2(0) == 1 && Pow2(8) == 256 && Pow2(9) == 512 && Pow2(10) == 1024 && Pow2(11) == 2048
    ensures Pow2(12) == 4096 && Pow2(13) == 8192 && Pow2(14) == 16384 && Pow2(16) == 65536
  {
  }

  lemma FieldWidths(mode: Mode, ver: nat)
    requires IsVersion(ver)
    ensures 4 + mode.NumCharCountBits(ver) == HeaderLen(mode, ver)
    ensures Pow2(mode.NumCharCountBits(ver)) == CountLimit(mode, ver)
  {
    PowersInCounts();
    hide Pow2;
  }

  /** The header of a segment, read bit by bit. */
  lemma HeaderIs(seg: QrSegment, ver: nat)
    requires IsVersion(ver) && seg.numChars < CountLimit(seg.mode, ver)
    ensures |Header(seg, ver)| == HeaderLen(seg.mode, ver)
    ensures Header(seg, ver)[..4] == ModeIndicator(seg.mode)
    ensures Value(Header(seg, ver)[4..]) == seg.numChars
  {
    ModeBitsAre(seg.mode);
    FieldWidths(seg.mode, ver);
    hide ToBits, Value, Pow2, CountLimit, HeaderLen, ModeIndicator, Mode.NumCharCountBits;
    ValueToBits(seg.numChars, seg.mode.NumCharCountBits(ver));
    Halves(ToBits(seg.mode.ModeBits(), 4), ToBits(seg.numChars, seg.mode.NumCharCountBits(ver)));
  }

  lemma ModeBitsAre(mode: Mode)
    ensures ToBits(mode.ModeBits(), 4) == ModeIndicator(mode)
  {
    hide ToBits;
    FourBits(mode.ModeBits(), 0);
  }

  /** When a list of segments can be written, and how long it is. */
  lemma {:induction false} StreamInNumbers(segs: seq<QrSegment>, ver: nat)
    requires IsVersion(ver)
    ensures CountsFit(segs, ver) <==> CountsBelow(segs, ver)
    ensures |Stream(segs, ver)| == TotalLen(segs, ver)
  {
    hide Pow2, CountLimit, HeaderLen, Mode.NumCharCountBits;
    forall i | 0 <= i < |segs|
      ensures Pow2(segs[i].mode.NumCharCountBits(ver)) == CountLimit(segs[i].mode, ver)
    {
      FieldWidths(segs[i].mode, ver);
    }
    if segs != [] {
      hide Header;
      StreamInNumbers(segs[1..], ver);
      FieldWidths(segs[0].mode, ver);
    }
  }

  // ----- getTotalBits -----

  /** The exact length of the stream, or -1 if it cannot be written: a count does
      not fit, or the length is beyond an int. */
  method GetTotalBits(segs: seq<QrSegment>, version: nat) returns (result: int)
    requires IsVersion(version)
    ensures result == if CountsFit(segs, version) && |Stream(segs, version)| <= INT_MAX
                      then |Stream(segs, version)| else -1
    ensures result == if CountsBelow(segs, version) && TotalLen(segs, version) <= 0x7FFF_FFFF
                      then TotalLen(segs, version) else -1
  {
    hide CountsBelow, TotalLen, Header, Stream, Pow2;
    StreamInNumbers(segs, version);
    StreamNothing(version);
    result := 0;
    for i := 0 to |segs|
      invariant 0 <= result <= INT_MAX
      invariant CountsFit(segs[..i], version)
      invariant result == |Stream(segs[..i], version)|
    {
      var seg := segs[i];
      assert segs[..i + 1] == segs[..i] + [seg];
      StreamAppend(segs[..i], seg, version);
      StreamPrefix(segs, i + 1, version);
      var ccbits := seg.mode.NumCharCountBits(version);
      if seg.numChars >= Pow2(ccbits) {
        return -1;  // CountsFit fails at i
      }
      if 4 + ccbits > INT_MAX - result {
        return -1;  // the stream so far is already too long
      }
      result := result + 4 + ccbits;
      if |seg.data| > INT_MAX - result {
        return -1;  // the stream so far is already too long
      }
      result := result + |seg.data|;
    }
    assert segs[..|segs|] == segs;
  }

  lemma StreamNothing(ver: nat)
    requires IsVersion(ver)
    ensures Stream([], ver) == []
  {
  }

  lemma {:induction false} StreamPrefix(segs: seq<QrSegment>, n: nat, ver: nat)
    requires IsVersion(ver) && n <= |segs|
    ensures |Stream(segs[..n], ver)| <= |Stream(segs, ver)|
    decreases |segs| - n
  {
    hide Header, Stream;
    if n < |segs| {
      assert segs[..n + 1] == segs[..n] + [segs[n]];
      StreamAppend(segs[..n], segs[n], ver);
      StreamPrefix(segs, n + 1, ver);
    } else {
      assert segs[..n] == segs;
    }
  }

  // ----- a reader -----

  function ModeOf(bits: nat): Option<Mode> {
    if bits == 1 then Some(NUMERIC)
    else if bits == 2 then Some(ALPHANUMERIC)
    else if bits == 4 then Some(BYTE)
    else if bits == 8 then Some(KANJI)
    else if bits == 7 then Some(ECI)
    else None
  }

  /** Reads segments until the terminator, or until too little is left for a mode. */
  function Parse(bits: seq<bool>, ver: nat): Option<seq<Content>>
    requires IsVersion(ver)
    decreases |bits|
  {
    if |bits| < 4 || Value(bits[..4]) == 0 then Some([])
    else
      match ModeOf(Value(bits[..4]))
      case None => None
      case Some(mode) =>
        var h := 4 + mode.NumCharCountBits(ver);
        if |bits| < h then None
        else
          match DecodePayload(mode, Value(bits[4..h]), bits[h..])
          case None => None
          case Some((content, rest)) =>
            match Parse(rest, ver)
            case None => None
            case Some(contents) => Some([content] + contents)
  }

  /** What may follow the last segment: the terminator, or what was left of it. */
  predicate Terminates(tail: seq<bool>) {
    |tail| < 4 || tail[..4] == [false, false, false, false]
  }

  lemma ModeRoundTrip(m: Mode)
    ensures ModeOf(m.ModeBits()) == Some(m) && 0 < m.ModeBits() < Pow2(4)
  {
    assert Pow2(4) == 16;
  }

  lemma ParseTerminator(tail: seq<bool>, ver: nat)
    requires IsVersion(ver) && Terminates(tail)
    ensures Parse(tail, ver) == Some([])
  {
    if |tail| >= 4 {
      assert ToBits(0, 4) == [false, false, false, false];
      ValueToBits(0, 4);
    }
  }

  /** Parsing reads back one segment. */
  lemma ParseFirst(c: Content, tail: seq<bool>, ver: nat)
    requires IsVersion(ver) && c.Valid()
    requires c.Segment().numChars < Pow2(c.Segment().mode.NumCharCountBits(ver))
    ensures var (seg, rest) := (c.Segment(), Parse(tail, ver));
            Parse(Header(seg, ver) + seg.data + tail, ver)
            == if rest.None? then None else Some([c] + rest.value)
  {
    hide ToBits, Value, Pow2, Content.Segment, DecodePayload, Content.Valid;
    var seg := c.Segment();
    var cc := seg.mode.NumCharCountBits(ver);
    var bits := Header(seg, ver) + seg.data + tail;
    ModeRoundTrip(seg.mode);
    ValueToBits(seg.mode.ModeBits(), 4);
    ValueToBits(seg.numChars, cc);
    assert bits[..4] == ToBits(seg.mode.ModeBits(), 4);
    assert bits[4..4 + cc] == ToBits(seg.numChars, cc);
    assert bits[4 + cc..] == seg.data + tail;
    PayloadRoundTrip(c, tail);
  }

  /** Parsing a stream, however it is terminated and padded, gives its segments back. */
  lemma {:induction false} ParseStream(cs: seq<Content>, tail: seq<bool>, ver: nat)
    requires IsVersion(ver) && AllValid(cs)
    requires CountsFit(SegmentsOf(cs), ver) && Terminates(tail)
    ensures Parse(Stream(SegmentsOf(cs), ver) + tail, ver) == Some(cs)
  {
    hide Header, Parse, Content.Segment, Content.Valid, Pow2, Terminates;
    var segs := SegmentsOf(cs);
    if cs == [] {
      Empty(tail);
      ParseTerminator(tail, ver);
    } else {
      var rest := Stream(segs[1..], ver);
      assert segs[1..] == SegmentsOf(cs[1..]);
      ParseStream(cs[1..], tail, ver);
      Assoc(Header(segs[0], ver) + segs[0].data, rest, tail);
      ParseFirst(cs[0], rest + tail, ver);
      assert cs == [cs[0]] + cs[1..];
    }
  }

  // ----- terminator and padding -----

  function Zeros(n: nat): (bits: seq<bool>)
    ensures |bits| == n
  {
    seq(n, i => false)
  }

  /** Pad byte i: they alternate. */
  function PadByte(i: nat): nat {
    if i % 2 == 0 then 0xEC else 0x11
  }

  function PadBits(n: nat): (bits: seq<bool>)
    ensures |bits| == 8 * n
  {
    if n == 0 then [] else PadBits(n - 1) + ToBits(PadByte(n - 1), 8)
  }

  function TerminatorLen(used: nat, capacity: nat): nat
    requires used <= capacity
  {
    if capacity - used < 4 then capacity - used else 4
  }

  /** How many zero bits reach the next whole byte. */
  function AlignLen(used: nat): nat {
    (8 - used % 8) % 8
  }

  lemma PaddingLengths(used: nat, capacity: nat)
    requires used <= capacity && capacity % 8 == 0
    ensures var n := used + TerminatorLen(used, capacity);
            n <= capacity && n + AlignLen(n) == 8 * ((n + 7) / 8) == capacity - 8 * ((capacity - n) / 8)
  {
    var n := used + TerminatorLen(used, capacity);
    WholeBytes(n, capacity / 8);
  }

  lemma WholeBytes(n: nat, bytes: nat)
    requires n <= 8 * bytes
    ensures n + AlignLen(n) == 8 * ((n + 7) / 8) == 8 * bytes - 8 * ((8 * bytes - n) / 8)
  {
    var (q, r) := (n / 8, n % 8);
    assert n == 8 * q + r;
    assert (n + 7) / 8 == if r == 0 then q else q + 1;
    assert (8 * bytes - n) / 8 == if r == 0 then bytes - q else bytes - q - 1;
  }

  /** A stream with its terminator, filled up to a whole byte. */
  function Aligned(stream: seq<bool>, capacity: nat): (bits: seq<bool>)
    requires |stream| <= capacity && capacity % 8 == 0
    ensures |bits| == 8 * ((|stream| + TerminatorLen(|stream|, capacity) + 7) / 8) <= capacity
    ensures (capacity - |bits|) % 8 == 0
  {
    PaddingLengths(|stream|, capacity);
    var t := TerminatorLen(|stream|, capacity);
    stream + Zeros(t) + Zeros(AlignLen(|stream| + t))
  }

  /** A stream filled up to the capacity. */
  function Padded(stream: seq<bool>, capacity: nat): (bits: seq<bool>)
    requires |stream| <= capacity && capacity % 8 == 0
    ensures |bits| == capacity
  {
    Aligned(stream, capacity) + PadBits((capacity - |Aligned(stream, capacity)|) / 8)
  }

  /** The data bytes of a symbol. */
  function DataCodewords(segs: seq<QrSegment>, ver: nat, ecl: Ecc): (data: seq<Byte>)
    requires IsVersion(ver) && Fits(segs, ver, ecl)
    ensures |data| == NumDataCodewords(ver, ecl)
  {
    Pack(Padded(Stream(segs, ver), 8 * NumDataCodewords(ver, ecl)))
  }

  lemma PaddedTail(stream: seq<bool>, capacity: nat)
    requires |stream| <= capacity && capacity % 8 == 0
    ensures Padded(stream, capacity)[..|stream|] == stream
    ensures Terminates(Padded(stream, capacity)[|stream|..])
  {
    hide PadBits;
  }

  /** The bytes after the terminator alternate between 0xEC and 0x11. */
  lemma PaddingAlternates(stream: seq<bool>, capacity: nat, i: nat)
    requires |stream| <= capacity && capacity % 8 == 0
    requires var first := (|stream| + TerminatorLen(|stream|, capacity) + 7) / 8;
             i < capacity / 8 - first
    ensures var first := (|stream| + TerminatorLen(|stream|, capacity) + 7) / 8;
            Padded(stream, capacity)[8 * (first + i)..8 * (first + i) + 8] == ToBits(PadByte(i), 8)
  {
    hide ToBits, PadBits, Aligned;
    var aligned := Aligned(stream, capacity);
    var m := (capacity - |aligned|) / 8;
    PadBitsAt(m, i);
    TailSlice(aligned, PadBits(m), 8 * i, 8 * i + 8);
  }

  lemma {:induction false} PadBitsAt(n: nat, i: nat)
    requires i < n
    ensures PadBits(n)[8 * i..8 * i + 8] == ToBits(PadByte(i), 8)
  {
    hide ToBits;
    if i < n - 1 {
      PadBitsAt(n - 1, i);
    }
  }

  /** Every bit of the padded stream: zeros up to the first whole byte that leaves room for a
      terminator of four, and from there on two bytes in turn. */
  predicate PaddedBit(stream: seq<bool>, t: nat)
    requires |stream| <= t
  {
    var first := (|stream| + 11) / 8;
    t / 8 >= first && if (t / 8 - first) % 2 == 0 then t % 8 != 3 && t % 8 < 6 else t % 8 == 3 || t % 8 == 7
  }

  lemma PadBytesInBits()
    ensures ToBits(0xEC, 8) == [true, true, true, false, true, true, false, false]
    ensures ToBits(0x11, 8) == [false, false, false, true, false, false, false, true]
  {
    hide ToBits;
    FourBits(0xEC, 4);
    FourBits(0xE, 0);
    FourBits(0x11, 4);
    FourBits(0x1, 0);
  }

  lemma PadByteBits(i: nat, j: nat)
    requires j < 8
    ensures ToBits(PadByte(i), 8)[j] == if i % 2 == 0 then j != 3 && j < 6 else j == 3 || j == 7
  {
    PadBytesInBits();
    hide ToBits;
    assert j == 0 || j == 1 || j == 2 || j == 3 || j == 4 || j == 5 || j == 6 || j == 7;
  }

  lemma PaddedInBits(stream: seq<bool>, capacity: nat, t: nat)
    requires |stream| <= t < capacity && capacity % 8 == 0
    ensures Padded(stream, capacity)[t] == PaddedBit(stream, t)
  {
    hide ToBits, PadBits, PadByte;
    var aligned := Aligned(stream, capacity);
    var first := (|stream| + 11) / 8;
    if t >= |aligned| {
      assert first == |aligned| / 8;
      var i := t / 8 - first;
      PaddingAlternates(stream, capacity, i);
      assert Padded(stream, capacity)[8 * (first + i)..8 * (first + i) + 8][t % 8] == Padded(stream, capacity)[t];
      PadByteBits(i, t % 8);
    }
  }

  lemma PaddedByte(stream: seq<bool>, bits: seq<bool>, k: nat)
    requires |bits| == 8 && (|stream| + 11) / 8 <= k
    requires forall j :: 0 <= j < 8 ==> bits[j] == PaddedBit(stream, 8 * k + j)
    ensures PackByte(bits) == Byte(if (k - (|stream| + 11) / 8) % 2 == 0 then 0xEC else 0x11)
  {
    hide PackByte;
    PackedByte(bits);
    var even := (k - (|stream| + 11) / 8) % 2 == 0;
    forall j | 0 <= j < 8
      ensures bits[j] == if even then j != 3 && j < 6 else j == 3 || j == 7
    {
      assert (8 * k + j) / 8 == k && (8 * k + j) % 8 == j;
    }
    hide PaddedBit;
    assert bits[0] == bits[1] == bits[2] == bits[4] == bits[5] == even;
    assert bits[3] == bits[7] == !even && !bits[6];
  }

  /** The bytes that fill up a symbol are 0xEC and 0x11 in turn. */
  lemma PadCodewords(segs: seq<QrSegment>, ver: nat, ecl: Ecc, k: nat)
    requires IsVersion(ver) && Fits(segs, ver, ecl)
    requires (|Stream(segs, ver)| + 11) / 8 <= k < NumDataCodewords(ver, ecl)
    ensures var first := (|Stream(segs, ver)| + 11) / 8;
            DataCodewords(segs, ver, ecl)[k] == Byte(if (k - first) % 2 == 0 then 0xEC else 0x11)
  {
    hide Stream, CountsFit, Padded, PackByte, NumDataCodewords, PaddedBit;
    var (stream, capacity) := (Stream(segs, ver), 8 * NumDataCodewords(ver, ecl));
    var bits := Padded(stream, capacity)[8 * k..8 * k + 8];
    forall j | 0 <= j < 8
      ensures bits[j] == PaddedBit(stream, 8 * k + j)
    {
      PaddedInBits(stream, capacity, 8 * k + j);
    }
    PaddedByte(stream, bits, k);
  }

  /** The data bytes that encodeSegments makes of the segments, once the version
      and level are chosen. */
  method MakeDataCodewords(segs: seq<QrSegment>, version: nat, ecl: Ecc) returns (dataCodewords: seq<Byte>)
    requires IsVersion(version) && Fits(segs, version, ecl)
    ensures dataCodewords == DataCodewords(segs, version, ecl)
    ensures Unpack(dataCodewords) == Padded(Stream(segs, version), 8 * NumDataCodewords(version, ecl))
  {
    hide Stream, CountsFit, Aligned, PadBits, Pack, Unpack, NumDataCodewords;
    var dataCapacityBits := NumDataCodewords(version, ecl) * 8;
    var bb := AppendSegments(segs, version);
    AppendTerminator(bb, dataCapacityBits);
    AppendPadBytes(bb, dataCapacityBits);
    dataCodewords := PackBits(bb.bits);
  }

  /** Builds Stream(segs, version), one segment a round. */
  method AppendSegments(segs: seq<QrSegment>, version: nat) returns (bb: BitBuffer)
    requires IsVersion(version) && CountsFit(segs, version)
    ensures fresh(bb) && bb.bits == Stream(segs, version)
  {
    hide Stream, Pow2, ToBits;
    bb := new BitBuffer();
    StreamNothing(version);
    for i := 0 to |segs|
      invariant fresh(bb) && bb.bits == Stream(segs[..i], version)
    {
      var seg := segs[i];
      assert segs[..i + 1] == segs[..i] + [seg];
      StreamAppend(segs[..i], seg, version);
      ModeRoundTrip(seg.mode);
      Assoc(bb.bits, ToBits(seg.mode.ModeBits(), 4), ToBits(seg.numChars, seg.mode.NumCharCountBits(version)));
      bb.AppendBits(seg.mode.ModeBits(), 4);
      bb.AppendBits(seg.numChars, seg.mode.NumCharCountBits(version));
      bb.bits := bb.bits + seg.data;
    }
    assert segs[..|segs|] == segs;
  }

  lemma {:induction false} ZeroBits(n: nat)
    ensures ToBits(0, n) == Zeros(n) && 0 < Pow2(n)
  {
    if n > 0 {
      ZeroBits(n - 1);
    }
  }

  /** Turns a stream into Aligned(stream, capacity). */
  method AppendTerminator(bb: BitBuffer, capacity: nat)
    requires |bb.bits| <= capacity && capacity % 8 == 0
    modifies bb
    ensures bb.bits == Aligned(old(bb.bits), capacity)
  {
    hide ToBits, Zeros;
    var t := if capacity - |bb.bits| < 4 then capacity - |bb.bits| else 4;
    ZeroBits(t);
    bb.AppendBits(0, t);
    ZeroBits(AlignLen(|bb.bits|));
    bb.AppendBits(0, (8 - |bb.bits| % 8) % 8);
  }

  /** Appends PadBits up to the capacity; padByte is PadByte(n) in round n. */
  method AppendPadBytes(bb: BitBuffer, capacity: nat)
    requires |bb.bits| <= capacity && (capacity - |bb.bits|) % 8 == 0
    modifies bb
    ensures bb.bits == old(bb.bits) + PadBits((capacity - |old(bb.bits)|) / 8)
  {
    hide ToBits, PadBits, PadByte;
    ghost var aligned := bb.bits;
    ghost var n := 0;
    PadBitsNext(0);
    var padByte: bv8 := 0xEC;
    while |bb.bits| < capacity
      invariant |bb.bits| == |aligned| + 8 * n <= capacity
      invariant bb.bits == aligned + PadBits(n)
      invariant padByte == (if n % 2 == 0 then 0xEC else 0x11)
      decreases capacity - |bb.bits|
    {
      PadBitsNext(n);
      Assoc(aligned, PadBits(n), ToBits(PadByte(n), 8));
      assert padByte as nat == PadByte(n) by { PadByteValue(n, padByte); }
      bb.AppendBits(padByte as nat, 8);
      padByte := padByte ^ (0xEC ^ 0x11);
      n := n + 1;
    }
  }

  lemma PadByteValue(n: nat, b: bv8)
    requires b == (if n % 2 == 0 then 0xEC else 0x11)
    ensures b as nat == PadByte(n)
  {
  }

  lemma PadBitsNext(n: nat)
    ensures PadBits(0) == [] && PadBits(n + 1) == PadBits(n) + ToBits(PadByte(n), 8)
    ensures PadByte(n) < Pow2(8) == 256
  {
    assert Pow2(8) == 256;
  }

  /** The reader finds the segments in the data bytes. */
  lemma DataRoundTrip(cs: seq<Content>, ver: nat, capacity: nat)
    requires IsVersion(ver) && AllValid(cs) && CountsFit(SegmentsOf(cs), ver)
    requires |Stream(SegmentsOf(cs), ver)| <= capacity && capacity % 8 == 0
    ensures Parse(Padded(Stream(SegmentsOf(cs), ver), capacity), ver) == Some(cs)
  {
    hide Padded, Stream, Parse;
    var stream := Stream(SegmentsOf(cs), ver);
    var bits := Padded(stream, capacity);
    PaddedTail(stream, capacity);
    ParseStream(cs, bits[|stream|..], ver);
    assert bits == stream + bits[|stream|..];
  }
}
