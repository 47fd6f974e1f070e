/** Segments and the factories that make them: section 7.4 of ISO/IEC 18004:2015. */
module Segments {
  import opened Bits
  import opened BitBuffers
  import opened RadixGroups
  import opened Results
  import opened Seqs

  datatype Mode = NUMERIC | ALPHANUMERIC | BYTE | KANJI | ECI
  {
    function ModeBits(): nat {
      match this
      case NUMERIC => 0x1
      case ALPHANUMERIC => 0x2
      case BYTE => 0x4
      case KANJI => 0x8
      case ECI => 0x7
    }

    function NumCharCountBits(ver: nat): nat
      requires 1 <= ver <= 40
    {
      var range := (ver + 7) / 17;
      match this
      case NUMERIC => [10, 12, 14][range]
      case ALPHANUMERIC => [9, 11, 13][range]
      case BYTE => [8, 16, 16][range]
      case KANJI => [8, 10, 12][range]
      case ECI => 0
    }
  }

  datatype QrSegment = QrSegment(mode: Mode, numChars: nat, data: seq<bool>)

  /** A zero-terminated string of 8-bit characters, without its terminator. */
  type CString = s: string | forall i :: 0 <= i < |s| ==> 0 < s[i] as int < 256

  type uint8 = b: nat | b < 256

  const INT_MAX := 0x7FFF_FFFF

  // ----- characters as digits -----

  predicate IsDigit(c: char) {
    '0' <= c <= '9'
  }

  predicate IsNumeric(s: string) {
    forall i :: 0 <= i < |s| ==> IsDigit(s[i])
  }

  function DigitValue(c: char): (d: nat)
    ensures d < 10
  {
    if IsDigit(c) then c as int - '0' as int else 0
  }

  function DigitValues(s: string): (d: seq<nat>)
    ensures |d| == |s|
  {
    seq(|s|, i requires 0 <= i < |s| => DigitValue(s[i]))
  }

  const ALPHANUMERIC_CHARSET := "0123456789ABCDEFGHIJKLMNOPQRSTUVWXYZ $%*+-./:"

  /** The first place of c from k on, or |s| if there is none. */
  function IndexOf(c: char, s: string, k: nat): (r: nat)
    requires k <= |s|
    ensures k <= r <= |s|
    ensures r < |s| ==> s[r] == c
    ensures forall i :: k <= i < r ==> s[i] != c
    decreases |s| - k
  {
    if k == |s| || s[k] == c then k else IndexOf(c, s, k + 1)
  }

  /** strchr on the character set; 45 means not found. */
  function CharsetIndex(c: char): (r: nat)
    ensures r <= 45
  {
    IndexOf(c, ALPHANUMERIC_CHARSET, 0)
  }

  lemma CharsetIndexFinds(c: char)
    ensures |ALPHANUMERIC_CHARSET| == 45
    ensures CharsetIndex(c) < 45 ==> ALPHANUMERIC_CHARSET[CharsetIndex(c)] == c
    ensures CharsetIndex(c) == 45 <==> c !in ALPHANUMERIC_CHARSET
  {
  }

  predicate InCharset(c: char) {
    CharsetIndex(c) < 45
  }

  predicate IsAlphanumeric(s: string) {
    forall i :: 0 <= i < |s| ==> InCharset(s[i])
  }

  function CharsetValue(c: char): (d: nat)
    ensures d < 45
  {
    if InCharset(c) then CharsetIndex(c) else 0
  }

  function CharsetValues(s: string): (d: seq<nat>)
    ensures |d| == |s|
  {
    seq(|s|, i requires 0 <= i < |s| => CharsetValue(s[i]))
  }

  // ----- the payload of each mode -----

  function NumericBits(s: string): seq<bool> {
    Encode(DigitValues(s), DECIMAL)
  }

  function AlphanumericBits(s: string): seq<bool> {
    Encode(CharsetValues(s), BASE_45)
  }

  function ByteBits(data: seq<uint8>): (bits: seq<bool>)
    ensures |bits| == 8 * |data|
  {
    if data == [] then []
    else ByteBits(data[..|data| - 1]) + ToBits(data[|data| - 1], 8)
  }

  function EciBits(value: nat): seq<bool>
    requires value < 1000000
  {
    if value < 128 then ToBits(value, 8)
    else if value < 16384 then ToBits(2, 2) + ToBits(value, 14)
    else ToBits(6, 3) + ToBits(value, 21)
  }

  // ----- the payloads in numbers -----

  /** The place of a character in the alphanumeric set; 45 for all others. */
  function CharNumber(c: char): (n: nat)
    ensures n <= 45
  {
    if '0' <= c <= '9' then c as int - '0' as int
    else if 'A' <= c <= 'Z' then c as int - 'A' as int + 10
    else
      match c
      case ' ' => 36 case '$' => 37 case '%' => 38 case '*' => 39 case '+' => 40
      case '-' => 41 case '.' => 42 case '/' => 43 case ':' => 44 case _ => 45
  }

  lemma CharsetDigits(i: nat)
    requires i < 10
    ensures |ALPHANUMERIC_CHARSET| == 45 && ALPHANUMERIC_CHARSET[i] as int == '0' as int + i
  {
    assert ALPHANUMERIC_CHARSET[i] == "0123456789"[i];
  }

  lemma CharsetLetters(i: nat)
    requires 10 <= i < 36
    ensures |ALPHANUMERIC_CHARSET| == 45 && ALPHANUMERIC_CHARSET[i] as int == 'A' as int + i - 10
  {
    if i < 23 {
      CharsetToM(i);
    } else {
      CharsetFromN(i);
    }
  }

  lemma CharsetToM(i: nat)
    requires 10 <= i < 23
    ensures |ALPHANUMERIC_CHARSET| == 45 && ALPHANUMERIC_CHARSET[i] as int == 'A' as int + i - 10
  {
    assert ALPHANUMERIC_CHARSET[i] == "ABCDEFGHIJKLM"[i - 10];
  }

  lemma CharsetFromN(i: nat)
    requires 23 <= i < 36
    ensures |ALPHANUMERIC_CHARSET| == 45 && ALPHANUMERIC_CHARSET[i] as int == 'A' as int + i - 10
  {
    assert ALPHANUMERIC_CHARSET[i] == "NOPQRSTUVWXYZ"[i - 23];
  }

  lemma CharsetSymbols(i: nat)
    requires 36 <= i < 45
    ensures |ALPHANUMERIC_CHARSET| == 45 && ALPHANUMERIC_CHARSET[i] == " $%*+-./:"[i - 36]
  {
  }

  /** Every place of the set holds the character with that number. */
  lemma CharsetAt(i: nat)
    requires i < 45
    ensures |ALPHANUMERIC_CHARSET| == 45 && CharNumber(ALPHANUMERIC_CHARSET[i]) == i
  {
    if i < 10 {
      CharsetDigits(i);
    } else if i < 36 {
      CharsetLetters(i);
    } else {
      CharsetSymbols(i);
    }
  }

  lemma CharsetHolds(c: char)
    requires CharNumber(c) < 45
    ensures |ALPHANUMERIC_CHARSET| == 45 && ALPHANUMERIC_CHARSET[CharNumber(c)] == c
  {
    var i := CharNumber(c);
    if i < 10 {
      CharsetDigits(i);
    } else if i < 36 {
      CharsetLetters(i);
    } else {
      CharsetSymbols(i);
    }
  }

  /** Searching the set gives the number of any character. */
  lemma CharsetIndexIs(c: char)
    ensures CharsetIndex(c) == CharNumber(c)
  {
    CharsetIndexFinds(c);
    var i := CharsetIndex(c);
    hide CharNumber, CharsetIndex;
    if i < 45 {
      CharsetAt(i);
    } else if CharNumber(c) < 45 {
      CharsetHolds(c);
    }
  }

  /** Three digits to ten bits; the last one or two take four or seven. */
  ghost predicate NumericPacked(s: string, bits: seq<bool>)
    requires IsNumeric(s)
  {
    var n := |s|;
    && |bits| == n / 3 * 10 + (if n % 3 == 0 then 0 else if n % 3 == 1 then 4 else 7)
    && (forall i :: 0 <= i < n / 3 ==>
          bits[10 * i..10 * i + 10]
          == ToBits(100 * Decimal(s[3 * i]) + 10 * Decimal(s[3 * i + 1]) + Decimal(s[3 * i + 2]), 10))
    && (n % 3 == 1 ==> bits[n / 3 * 10..] == ToBits(Decimal(s[n - 1]), 4))
    && (n % 3 == 2 ==> bits[n / 3 * 10..] == ToBits(10 * Decimal(s[n - 2]) + Decimal(s[n - 1]), 7))
  }

  function Decimal(c: char): (d: nat)
    requires IsDigit(c)
    ensures d < 10
  {
    c as int - '0' as int
  }

  /** Two characters to eleven bits; a last single one takes six. */
  ghost predicate AlphanumericPacked(s: string, bits: seq<bool>) {
    var n := |s|;
    && |bits| == n / 2 * 11 + n % 2 * 6
    && (forall i :: 0 <= i < n / 2 ==>
          bits[11 * i..11 * i + 11] == ToBits(45 * CharNumber(s[2 * i]) + CharNumber(s[2 * i + 1]), 11))
    && (n % 2 == 1 ==> bits[n / 2 * 11..] == ToBits(CharNumber(s[n - 1]), 6))
  }

  lemma TripleAt(s: string, i: nat)
    requires IsNumeric(s) && i < |s| / 3
    ensures 10 * i + 10 <= |NumericBits(s)|
    ensures NumericBits(s)[10 * i..10 * i + 10]
         == ToBits(100 * Decimal(s[3 * i]) + 10 * Decimal(s[3 * i + 1]) + Decimal(s[3 * i + 2]), 10)
  {
    hide ToBits, Encode, Number;
    var d := DigitValues(s);
    DigitValuesAt(s);
    DigitsAt(d, i);
    NumberOfFew(d[3 * i..3 * i + 3], DECIMAL);
  }

  lemma LastDigitAt(s: string)
    requires IsNumeric(s) && |s| % 3 == 1
    ensures |s| / 3 * 10 + 4 == |NumericBits(s)|
    ensures NumericBits(s)[|s| / 3 * 10..] == ToBits(Decimal(s[|s| - 1]), 4)
  {
    hide ToBits, Encode, Number;
    var (q, d) := (|s| / 3, DigitValues(s));
    DigitValuesAt(s);
    EncodeLength(d, DECIMAL);
    DigitsAt(d, q);
    assert |d| - 3 * q == 1 && |NumericBits(s)| == 10 * q + 4;
    assert NumericBits(s)[10 * q..] == NumericBits(s)[10 * q..10 * q + 4];
    NumberOfFew(d[3 * q..3 * q + 1], DECIMAL);
  }

  lemma LastTwoDigitsAt(s: string)
    requires IsNumeric(s) && |s| % 3 == 2
    ensures |s| / 3 * 10 + 7 == |NumericBits(s)|
    ensures NumericBits(s)[|s| / 3 * 10..] == ToBits(10 * Decimal(s[|s| - 2]) + Decimal(s[|s| - 1]), 7)
  {
    hide ToBits, Encode, Number;
    var (q, d) := (|s| / 3, DigitValues(s));
    DigitValuesAt(s);
    EncodeLength(d, DECIMAL);
    DigitsAt(d, q);
    assert |d| - 3 * q == 2 && |NumericBits(s)| == 10 * q + 7;
    assert NumericBits(s)[10 * q..] == NumericBits(s)[10 * q..10 * q + 7];
    NumberOfFew(d[3 * q..3 * q + 2], DECIMAL);
  }

  lemma NumericInNumbers(s: string)
    requires IsNumeric(s)
    ensures NumericPacked(s, NumericBits(s))
  {
    hide ToBits, NumericBits, IsNumeric, Decimal;
    NumericLength(s);
    forall i | 0 <= i < |s| / 3
      ensures NumericBits(s)[10 * i..10 * i + 10]
           == ToBits(100 * Decimal(s[3 * i]) + 10 * Decimal(s[3 * i + 1]) + Decimal(s[3 * i + 2]), 10)
    {
      TripleAt(s, i);
    }
    if |s| % 3 == 1 {
      LastDigitAt(s);
    } else if |s| % 3 == 2 {
      LastTwoDigitsAt(s);
    }
  }

  lemma NumericLength(s: string)
    ensures |NumericBits(s)| == |s| / 3 * 10 + (if |s| % 3 == 0 then 0 else if |s| % 3 == 1 then 4 else 7)
    ensures IsNumeric(s) ==> forall i :: 0 <= i < |s| ==> IsDigit(s[i])
  {
    EncodeLength(DigitValues(s), DECIMAL);
  }

  lemma CharPairAt(s: string, i: nat)
    requires IsAlphanumeric(s) && i < |s| / 2
    ensures 11 * i + 11 <= |AlphanumericBits(s)|
    ensures AlphanumericBits(s)[11 * i..11 * i + 11]
         == ToBits(45 * CharNumber(s[2 * i]) + CharNumber(s[2 * i + 1]), 11)
  {
    hide ToBits, Encode, Number, CharNumber, CharsetIndex;
    var d := CharsetValues(s);
    CharsetValuesAt(s);
    CharsetIndexIs(s[2 * i]);
    CharsetIndexIs(s[2 * i + 1]);
    PairAt(d, i);
    NumberOfFew(d[2 * i..2 * i + 2], BASE_45);
  }

  lemma LastCharAt(s: string)
    requires IsAlphanumeric(s) && |s| % 2 == 1
    ensures |s| / 2 * 11 + 6 == |AlphanumericBits(s)|
    ensures AlphanumericBits(s)[|s| / 2 * 11..] == ToBits(CharNumber(s[|s| - 1]), 6)
  {
    hide ToBits, Encode, Number, CharNumber, CharsetIndex;
    var (n, d) := (|s|, CharsetValues(s));
    CharsetValuesAt(s);
    CharsetIndexIs(s[n - 1]);
    EncodeLength(d, BASE_45);
    PairAt(d, n / 2);
    NumberOfFew(d[n - 1..n], BASE_45);
  }

  lemma AlphanumericInNumbers(s: string)
    requires IsAlphanumeric(s)
    ensures AlphanumericPacked(s, AlphanumericBits(s))
  {
    hide ToBits, AlphanumericBits, IsAlphanumeric, CharNumber;
    AlphanumericLength(s);
    forall i | 0 <= i < |s| / 2
      ensures AlphanumericBits(s)[11 * i..11 * i + 11]
           == ToBits(45 * CharNumber(s[2 * i]) + CharNumber(s[2 * i + 1]), 11)
    {
      CharPairAt(s, i);
    }
    if |s| % 2 == 1 {
      LastCharAt(s);
    }
  }

  lemma AlphanumericLength(s: string)
    ensures |AlphanumericBits(s)| == |s| / 2 * 11 + |s| % 2 * 6
  {
    EncodeLength(CharsetValues(s), BASE_45);
  }

  /** Eight bits a byte. */
  ghost predicate BytesPacked(data: seq<uint8>, bits: seq<bool>) {
    && |bits| == 8 * |data|
    && forall i :: 0 <= i < |data| ==> bits[8 * i..8 * i + 8] == ToBits(data[i], 8)
  }

  lemma {:induction false} ByteAt(data: seq<uint8>, i: nat)
    requires i < |data|
    ensures ByteBits(data)[8 * i..8 * i + 8] == ToBits(data[i], 8)
  {
    hide ToBits;
    var n := |data| - 1;
    var (before, last) := (ByteBits(data[..n]), ToBits(data[n], 8));
    assert ByteBits(data) == before + last;
    if i < n {
      ByteAt(data[..n], i);
      assert (before + last)[8 * i..8 * i + 8] == before[8 * i..8 * i + 8];
    } else {
      Halves(before, last);
    }
  }

  lemma BytesInNumbers(data: seq<uint8>)
    ensures BytesPacked(data, ByteBits(data))
  {
    hide ToBits, ByteBits;
    forall i | 0 <= i < |data|
      ensures ByteBits(data)[8 * i..8 * i + 8] == ToBits(data[i], 8)
    {
      ByteAt(data, i);
    }
  }

  /** The ten characters with the least numbers. */
  ghost predicate AllDigits(s: string) {
    forall i :: 0 <= i < |s| ==> CharNumber(s[i]) < 10
  }

  lemma DigitsAre(s: string)
    ensures IsNumeric(s) <==> AllDigits(s)
  {
  }

  ghost predicate AllNumbered(s: string) {
    forall i :: 0 <= i < |s| ==> CharNumber(s[i]) < 45
  }

  lemma AlphanumericIs(s: string)
    ensures IsAlphanumeric(s) <==> AllNumbered(s)
  {
    hide CharNumber, CharsetIndex;
    forall i | 0 <= i < |s|
      ensures CharsetIndex(s[i]) == CharNumber(s[i])
    {
      CharsetIndexIs(s[i]);
    }
  }

  // ----- the factories -----

  method MakeBytes(data: seq<uint8>) returns (r: Result<QrSegment>)
    ensures r == if |data| > INT_MAX then Err(LengthError)
                 else Ok(QrSegment(BYTE, |data|, ByteBits(data)))
    ensures r.Ok? <==> |data| < 0x8000_0000
    ensures r.Ok? ==> BytesPacked(data, r.value.data)
  {
    BytesInNumbers(data);
    hide BytesPacked;
    if |data| > INT_MAX {
      return Err(LengthError);
    }
    var bb := new BitBuffer();
    assert Pow2(8) == 256;
    for i := 0 to |data|
      invariant bb.bits == ByteBits(data[..i])
    {
      assert data[..i + 1][..i] == data[..i];
      bb.AppendBits(data[i], 8);
    }
    assert data[..|data|] == data;
    r := Ok(QrSegment(BYTE, |data|, bb.bits));
  }

  method MakeNumeric(digits: CString) returns (r: Result<QrSegment>)
    ensures r == if IsNumeric(digits) then Ok(QrSegment(NUMERIC, |digits|, NumericBits(digits)))
                 else Err(DomainError)
    ensures r.Ok? <==> AllDigits(digits)
    ensures r.Ok? ==> IsNumeric(digits) && NumericPacked(digits, r.value.data)
  {
    DigitsAre(digits);
    hide AllDigits;
    hide NumericPacked, NumericBits;
    NumericUpTo(digits);
    hide NumberOf, EncodeUpTo, Encode, DigitValues, Pow2, DigitValue, Digits, ToBits;
    hide Scheme.Group, Scheme.FieldWidth;
    ghost var d := DigitValues(digits);
    DigitValuesAt(digits);
    LoopStart(d, DECIMAL);
    var bb := new BitBuffer();
    var accumData := 0;
    var accumCount := 0;
    var charCount := 0;
    ghost var start := 0;  // of the current group
    while charCount < |digits|
      invariant charCount <= |digits|
      invariant forall i :: 0 <= i < charCount ==> IsDigit(digits[i])
      invariant start % 3 == 0 && start + accumCount == charCount && accumCount < 3
      invariant accumData == NumberOf(d, start, charCount, DECIMAL)
      invariant bb.bits == EncodeUpTo(d, start, DECIMAL)
    {
      var c := digits[charCount];
      if c < '0' || c > '9' {
        return Err(DomainError);
      }
      NumberNext(d, start, charCount, DECIMAL);
      accumData := accumData * 10 + (c as int - '0' as int);
      accumCount := accumCount + 1;
      if accumCount == 3 {
        AppendDigits(d, start, charCount + 1);
        bb.AppendBits(accumData, 10);
        accumData := 0;
        accumCount := 0;
        start := charCount + 1;
      }
      charCount := charCount + 1;
    }
    if accumCount > 0 {  // the short group
      AppendDigits(d, start, charCount);
      bb.AppendBits(accumData, accumCount * 3 + 1);
    }
    r := Ok(QrSegment(NUMERIC, charCount, bb.bits));
  }

  lemma NumericUpTo(s: string)
    ensures EncodeUpTo(DigitValues(s), |s|, DECIMAL) == NumericBits(s)
    ensures IsNumeric(s) ==> NumericPacked(s, NumericBits(s))
  {
    LoopStart(DigitValues(s), DECIMAL);
    hide NumericPacked;
    if IsNumeric(s) {
      NumericInNumbers(s);
    }
  }

  lemma DigitValuesAt(s: string)
    ensures Digits(DigitValues(s), DECIMAL)
    ensures forall i :: 0 <= i < |s| && IsDigit(s[i]) ==> DigitValues(s)[i] == s[i] as int - '0' as int
  {
  }

  method MakeAlphanumeric(text: CString) returns (r: Result<QrSegment>)
    ensures r == if IsAlphanumeric(text) then Ok(QrSegment(ALPHANUMERIC, |text|, AlphanumericBits(text)))
                 else Err(DomainError)
    ensures r.Ok? <==> AllNumbered(text)
    ensures r.Ok? ==> AlphanumericPacked(text, r.value.data)
  {
    hide AlphanumericPacked, AllNumbered, AlphanumericBits;
    AlphanumericUpTo(text);
    AlphanumericIs(text);
    hide NumberOf, EncodeUpTo, Encode, CharsetValues, Pow2, CharsetValue, CharsetIndex, Digits, ToBits;
    hide Scheme.Group, Scheme.FieldWidth;
    ghost var d := CharsetValues(text);
    CharsetValuesAt(text);
    LoopStart(d, BASE_45);
    var bb := new BitBuffer();
    var accumData := 0;
    var accumCount := 0;
    var charCount := 0;
    ghost var start := 0;  // of the current group
    while charCount < |text|
      invariant charCount <= |text|
      invariant forall i :: 0 <= i < charCount ==> InCharset(text[i])
      invariant start % 2 == 0 && start + accumCount == charCount && accumCount < 2
      invariant accumData == NumberOf(d, start, charCount, BASE_45)
      invariant bb.bits == EncodeUpTo(d, start, BASE_45)
    {
      var temp := CharsetIndex(text[charCount]);
      if temp == 45 {
        return Err(DomainError);
      }
      NumberNext(d, start, charCount, BASE_45);
      accumData := accumData * 45 + temp;
      accumCount := accumCount + 1;
      if accumCount == 2 {
        AppendPair(d, start, charCount + 1);
        bb.AppendBits(accumData, 11);
        accumData := 0;
        accumCount := 0;
        start := charCount + 1;
      }
      charCount := charCount + 1;
    }
    if accumCount > 0 {  // the short group
      AppendPair(d, start, charCount);
      bb.AppendBits(accumData, 6);
    }
    r := Ok(QrSegment(ALPHANUMERIC, charCount, bb.bits));
  }

  lemma AlphanumericUpTo(s: string)
    ensures EncodeUpTo(CharsetValues(s), |s|, BASE_45) == AlphanumericBits(s)
    ensures IsAlphanumeric(s) ==> AlphanumericPacked(s, AlphanumericBits(s))
  {
    LoopStart(CharsetValues(s), BASE_45);
    hide AlphanumericPacked;
    if IsAlphanumeric(s) {
      AlphanumericInNumbers(s);
    }
  }

  lemma CharsetValuesAt(s: string)
    ensures Digits(CharsetValues(s), BASE_45)
    ensures forall i :: 0 <= i < |s| && InCharset(s[i]) ==>
      CharsetValues(s)[i] == CharsetIndex(s[i])
  {
  }

  method MakeEci(assignVal: int) returns (r: Result<QrSegment>)
    ensures r == if 0 <= assignVal < 1000000 then Ok(QrSegment(ECI, 0, EciBits(assignVal)))
                 else Err(DomainError)
  {
    var bb := new BitBuffer();
    EciWidths();
    Empty(ToBits(if 0 <= assignVal then assignVal else 0, 8));
    Empty(ToBits(2, 2));
    Empty(ToBits(6, 3));
    hide ToBits, Pow2;
    if assignVal < 0 {
      return Err(DomainError);
    } else if assignVal < 128 {
      bb.AppendBits(assignVal, 8);
    } else if assignVal < 16384 {
      bb.AppendBits(2, 2);
      bb.AppendBits(assignVal, 14);
    } else if assignVal < 1000000 {
      bb.AppendBits(6, 3);
      bb.AppendBits(assignVal, 21);
    } else {
      return Err(DomainError);
    }
    r := Ok(QrSegment(ECI, 0, bb.bits));
  }

  lemma EciWidths()
    ensures Pow2(2) == 4 && Pow2(3) == 8 && Pow2(8) == 256
    ensures Pow2(14) == 16384 && Pow2(21) == 2097152
  {
  }

  method CheckNumeric(text: CString) returns (b: bool)
    ensures b == IsNumeric(text) == AllDigits(text)
  {
    DigitsAre(text);
    hide AllDigits;
    for i := 0 to |text|
      invariant forall k :: 0 <= k < i ==> IsDigit(text[k])
    {
      if text[i] < '0' || text[i] > '9' {
        return false;
      }
    }
    b := true;
  }

  method CheckAlphanumeric(text: CString) returns (b: bool)
    ensures b == IsAlphanumeric(text) == AllNumbered(text)
  {
    AlphanumericIs(text);
    hide AllNumbered;
    for i := 0 to |text|
      invariant forall k :: 0 <= k < i ==> InCharset(text[k])
    {
      if CharsetIndex(text[i]) == 45 {
        return false;
      }
    }
    b := true;
  }
}
