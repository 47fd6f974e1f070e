/** Digits packed in groups: three decimal digits to ten bits, two base-45 digits
    to eleven. The last group may be short: k digits take width * k + 1 bits. */
module RadixGroups {
  import opened Bits
  import opened Results
  import opened Seqs

  datatype Scheme = DECIMAL | BASE_45
  {
    function Base(): nat {
      if DECIMAL? then 10 else 45
    }

    function Group(): nat {
      if DECIMAL? then 3 else 2
    }

    /** The width of a field for k digits. */
    function FieldWidth(k: nat): nat {
      (if DECIMAL? then 3 else 5) * k + 1
    }
  }

  function Power(base: nat, k: nat): nat {
    if k == 0 then 1 else base * Power(base, k - 1)
  }

  /** A group always fits its field. */
  lemma FieldFits(s: Scheme, k: nat)
    requires k <= s.Group()
    ensures Power(s.Base(), k) <= Pow2(s.FieldWidth(k))
  {
    assert Pow2(1) == 2 && Pow2(4) == 16 && Pow2(7) == 128 && Pow2(10) == 1024;
    assert Pow2(6) == 64 && Pow2(11) == 2048;
    assert Power(10, 0) == 1 && Power(10, 1) == 10 && Power(10, 2) == 100 && Power(10, 3) == 1000;
    assert Power(45, 0) == 1 && Power(45, 1) == 45 && Power(45, 2) == 2025;
  }

  ghost predicate Digits(d: seq<nat>, s: Scheme) {
    forall i :: 0 <= i < |d| ==> d[i] < s.Base()
  }

  /** The number that the digits write, most significant first. */
  function Number(d: seq<nat>, s: Scheme): nat {
    if d == [] then 0 else Number(d[..|d| - 1], s) * s.Base() + d[|d| - 1]
  }

  function DigitsOf(v: nat, k: nat, s: Scheme): (d: seq<nat>)
    ensures |d| == k
  {
    if k == 0 then [] else DigitsOf(v / s.Base(), k - 1, s) + [v % s.Base()]
  }

  lemma LastDigit(m: nat, d: nat, s: Scheme)
    requires d < s.Base()
    ensures (m * s.Base() + d) / s.Base() == m && (m * s.Base() + d) % s.Base() == d
  {
  }

  lemma {:induction false} DigitsOfNumber(d: seq<nat>, s: Scheme)
    requires Digits(d, s)
    ensures Number(d, s) < Power(s.Base(), |d|)
    ensures DigitsOf(Number(d, s), |d|, s) == d
  {
    if d != [] {
      var n := |d| - 1;
      DigitsOfNumber(d[..n], s);
      LastDigit(Number(d[..n], s), d[n], s);
      assert d == d[..n] + [d[n]];
    }
  }

  function GroupLen(n: nat, s: Scheme): nat {
    if n < s.Group() then n else s.Group()
  }

  function Encode(d: seq<nat>, s: Scheme): seq<bool>
  {
    if d == [] then []
    else
      var k := GroupLen(|d|, s);
      ToBits(Number(d[..k], s), s.FieldWidth(k)) + Encode(d[k..], s)
  }

  /** Reads n digits; also returns the bits left over. */
  function Decode(n: nat, bits: seq<bool>, s: Scheme): (r: Option<(seq<nat>, seq<bool>)>)
    ensures r.Some? ==> |r.value.1| <= |bits|
  {
    if n == 0 then Some(([], bits))
    else
      var k := GroupLen(n, s);
      var w := s.FieldWidth(k);
      if |bits| < w then None
      else
        var v := Value(bits[..w]);
        if v >= Power(s.Base(), k) then None
        else
          match Decode(n - k, bits[w..], s)
          case None => None
          case Some((d, rest)) => Some((DigitsOf(v, k, s) + d, rest))
  }

  lemma DigitsOfBelow(v: nat, k: nat, s: Scheme)
    ensures Digits(DigitsOf(v, k, s), s)
  {
  }

  lemma DecodeBelow(n: nat, bits: seq<bool>, s: Scheme)
    ensures Decode(n, bits, s).Some? ==> Digits(Decode(n, bits, s).value.0, s)
  {
    if n > 0 {
      var k := GroupLen(n, s);
      var w := s.FieldWidth(k);
      if |bits| >= w {
        DecodeBelow(n - k, bits[w..], s);
        DigitsOfBelow(Value(bits[..w]), k, s);
      }
    }
  }

  /** Decoding reads back one field. */
  lemma DecodeField(n: nat, v: nat, tail: seq<bool>, s: Scheme)
    requires n > 0 && v < Power(s.Base(), GroupLen(n, s))
    ensures var k := GroupLen(n, s);
            var r := Decode(n - k, tail, s);
            Decode(n, ToBits(v, s.FieldWidth(k)) + tail, s)
            == if r.None? then None else Some((DigitsOf(v, k, s) + r.value.0, r.value.1))
  {
    var k := GroupLen(n, s);
    var field := ToBits(v, s.FieldWidth(k));
    hide ToBits, Value, Power, Pow2, DigitsOf;
    FieldFits(s, k);
    ValueToBits(v, s.FieldWidth(k));
    Halves(field, tail);
  }

  lemma {:induction false} DecodeEncode(d: seq<nat>, rest: seq<bool>, s: Scheme)
    requires Digits(d, s)
    ensures Decode(|d|, Encode(d, s) + rest, s) == Some((d, rest))
  {
    if d == [] {
      Empty(rest);
    } else {
      var k := GroupLen(|d|, s);
      DecodeEncode(d[k..], rest, s);
      DecodeFirst(d, rest, s);
    }
  }

  lemma DecodeFirst(d: seq<nat>, rest: seq<bool>, s: Scheme)
    requires Digits(d, s) && d != []
    requires var k := GroupLen(|d|, s);
             Decode(|d| - k, Encode(d[k..], s) + rest, s) == Some((d[k..], rest))
    ensures Decode(|d|, Encode(d, s) + rest, s) == Some((d, rest))
  {
    hide ToBits, Encode, Decode, Number, DigitsOf, Power;
    var k := GroupLen(|d|, s);
    var v := Number(d[..k], s);
    DigitsOfNumber(d[..k], s);
    EncodeFirst(d, s);
    DecodeField(|d|, v, Encode(d[k..], s) + rest, s);
    Assoc(ToBits(v, s.FieldWidth(k)), Encode(d[k..], s), rest);
    assert d[..k] + d[k..] == d;
  }

  lemma EncodeFirst(d: seq<nat>, s: Scheme)
    requires d != []
    ensures var k := GroupLen(|d|, s);
            Encode(d, s) == ToBits(Number(d[..k], s), s.FieldWidth(k)) + Encode(d[k..], s)
  {
  }

  lemma EncodeNothing(s: Scheme)
    ensures Encode([], s) == [] && Number([], s) == 0
  {
  }

  lemma {:induction false} EncodeAppend(a: seq<nat>, b: seq<nat>, s: Scheme)
    requires |a| % s.Group() == 0
    ensures Encode(a + b, s) == Encode(a, s) + Encode(b, s)
  {
    hide ToBits, Number, Encode;
    if a == [] {
      EncodeNothing(s);
      Empty(b);
      Empty(Encode(b, s));
    } else {
      var g := s.Group();
      assert (a + b)[..g] == a[..g] && (a + b)[g..] == a[g..] + b;
      EncodeFirst(a, s);
      EncodeFirst(a + b, s);
      EncodeAppend(a[g..], b, s);
      Assoc(ToBits(Number(a[..g], s), s.FieldWidth(g)), Encode(a[g..], s), Encode(b, s));
    }
  }

  /** The number of bits, in closed form. */
  lemma {:induction false} EncodeLength(d: seq<nat>, s: Scheme)
    ensures s == DECIMAL ==>
      |Encode(d, s)| == |d| / 3 * 10 + (if |d| % 3 == 0 then 0 else |d| % 3 * 3 + 1)
    ensures s == BASE_45 ==> |Encode(d, s)| == |d| / 2 * 11 + |d| % 2 * 6
  {
    if d != [] {
      EncodeLength(d[GroupLen(|d|, s)..], s);
    }
  }

  // ----- what an encoding loop has seen so far -----

  /** The number written by digits i to j. */
  function NumberOf(d: seq<nat>, i: nat, j: nat, s: Scheme): nat
    requires i <= j <= |d|
  {
    Number(d[i..j], s)
  }

  function EncodeUpTo(d: seq<nat>, j: nat, s: Scheme): seq<bool>
    requires j <= |d|
  {
    Encode(d[..j], s)
  }

  lemma LoopStart(d: seq<nat>, s: Scheme)
    ensures EncodeUpTo(d, 0, s) == [] && EncodeUpTo(d, |d|, s) == Encode(d, s)
    ensures forall i :: 0 <= i <= |d| ==> NumberOf(d, i, i, s) == 0
  {
    assert d[..|d|] == d;
  }

  lemma NumberNext(d: seq<nat>, i: nat, j: nat, s: Scheme)
    requires i <= j < |d|
    ensures NumberOf(d, i, j + 1, s) == NumberOf(d, i, j, s) * s.Base() + d[j]
  {
    assert d[i..j + 1][..j - i] == d[i..j];
  }

  /** Appending one group to a whole number of groups; it fits its field. */
  lemma AppendGroup(d: seq<nat>, i: nat, j: nat, s: Scheme)
    requires Digits(d, s)
    requires i < j <= |d| && j <= i + s.Group() && i % s.Group() == 0
    ensures NumberOf(d, i, j, s) < Pow2(s.FieldWidth(j - i))
    ensures EncodeUpTo(d, j, s)
         == EncodeUpTo(d, i, s) + ToBits(NumberOf(d, i, j, s), s.FieldWidth(j - i))
  {
    hide ToBits, Number, Power, Pow2, DigitsOf, Encode;
    var (a, b) := (d[..i], d[i..j]);
    assert d[..j] == a + b;
    EncodeAppend(a, b, s);
    DigitsOfNumber(b, s);
    FieldFits(s, j - i);
    EncodeFirst(b, s);
    assert b[..j - i] == b && b[j - i..] == [];
    EncodeNothing(s);
    Empty(ToBits(Number(b, s), s.FieldWidth(j - i)));
  }

  /** The same in the terms of each loop. */
  lemma AppendDigits(d: seq<nat>, i: nat, j: nat)
    requires Digits(d, DECIMAL) && i < j <= |d| && j <= i + 3 && i % 3 == 0
    ensures NumberOf(d, i, j, DECIMAL) < Pow2((j - i) * 3 + 1)
    ensures EncodeUpTo(d, j, DECIMAL)
         == EncodeUpTo(d, i, DECIMAL) + ToBits(NumberOf(d, i, j, DECIMAL), (j - i) * 3 + 1)
  {
    hide NumberOf, EncodeUpTo, ToBits, Pow2, Digits;
    AppendGroup(d, i, j, DECIMAL);
  }

  lemma AppendPair(d: seq<nat>, i: nat, j: nat)
    requires Digits(d, BASE_45) && i < j <= |d| && j <= i + 2 && i % 2 == 0
    ensures NumberOf(d, i, j, BASE_45) < Pow2((j - i) * 5 + 1)
    ensures EncodeUpTo(d, j, BASE_45)
         == EncodeUpTo(d, i, BASE_45) + ToBits(NumberOf(d, i, j, BASE_45), (j - i) * 5 + 1)
  {
    hide NumberOf, EncodeUpTo, ToBits, Pow2, Digits;
    AppendGroup(d, i, j, BASE_45);
  }

  // ----- the bits of one group -----

  /** The number of a group, digit by digit. */
  lemma NumberOfFew(d: seq<nat>, s: Scheme)
    ensures |d| == 1 ==> Number(d, s) == d[0]
    ensures |d| == 2 ==> Number(d, s) == s.Base() * d[0] + d[1]
    ensures |d| == 3 ==> Number(d, s) == s.Base() * (s.Base() * d[0] + d[1]) + d[2]
  {
    if |d| == 2 {
      assert d[..1] == [d[0]] && [d[0]][..0] == [];
    } else if |d| == 3 {
      assert d[..2] == [d[0], d[1]] && [d[0], d[1]][..1] == [d[0]] && [d[0]][..0] == [];
    }
  }

  lemma EncodeParts(d: seq<nat>, i: nat, j: nat, s: Scheme)
    requires Digits(d, s) && i < j <= |d| && i % s.Group() == 0
    requires j == |d| || j == i + s.Group()
    requires j <= i + s.Group()
    ensures Encode(d, s)
         == EncodeUpTo(d, i, s) + ToBits(NumberOf(d, i, j, s), s.FieldWidth(j - i)) + Encode(d[j..], s)
  {
    hide ToBits, NumberOf, EncodeUpTo, Digits, Pow2, Encode;
    AppendGroup(d, i, j, s);
    assert d == d[..j] + d[j..];
    if j == |d| {
      EncodeNothing(s);
      LoopStart(d, s);
      Empty(EncodeUpTo(d, j, s));
    } else {
      EncodeWhole(d, j, s);
    }
  }

  lemma EncodeWhole(d: seq<nat>, j: nat, s: Scheme)
    requires j <= |d| && j % s.Group() == 0
    ensures Encode(d, s) == EncodeUpTo(d, j, s) + Encode(d[j..], s)
  {
    hide Encode;
    assert d == d[..j] + d[j..];
    EncodeAppend(d[..j], d[j..], s);
  }

  /** Digits 3i on take the bits from 10i on. */
  lemma DigitsAt(d: seq<nat>, i: nat)
    requires Digits(d, DECIMAL) && 3 * i < |d|
    ensures var k := if |d| - 3 * i < 3 then |d| - 3 * i else 3;
            && 10 * i + 3 * k + 1 <= |Encode(d, DECIMAL)|
            && Encode(d, DECIMAL)[10 * i..10 * i + 3 * k + 1] == ToBits(Number(d[3 * i..3 * i + k], DECIMAL), 3 * k + 1)
  {
    var k := if |d| - 3 * i < 3 then |d| - 3 * i else 3;
    hide ToBits, Number, Encode, Digits;
    EncodeParts(d, 3 * i, 3 * i + k, DECIMAL);
    EncodeLength(d[..3 * i], DECIMAL);
    MiddleSlice(EncodeUpTo(d, 3 * i, DECIMAL), ToBits(Number(d[3 * i..3 * i + k], DECIMAL), 3 * k + 1),
                Encode(d[3 * i + k..], DECIMAL));
  }

  /** Characters 2i on take the bits from 11i on. */
  lemma PairAt(d: seq<nat>, i: nat)
    requires Digits(d, BASE_45) && 2 * i < |d|
    ensures var k := if |d| - 2 * i < 2 then 1 else 2;
            && 11 * i + 5 * k + 1 <= |Encode(d, BASE_45)|
            && Encode(d, BASE_45)[11 * i..11 * i + 5 * k + 1] == ToBits(Number(d[2 * i..2 * i + k], BASE_45), 5 * k + 1)
  {
    var k := if |d| - 2 * i < 2 then 1 else 2;
    hide ToBits, Number, Encode, Digits;
    EncodeParts(d, 2 * i, 2 * i + k, BASE_45);
    EncodeLength(d[..2 * i], BASE_45);
    MiddleSlice(EncodeUpTo(d, 2 * i, BASE_45), ToBits(Number(d[2 * i..2 * i + k], BASE_45), 5 * k + 1),
                Encode(d[2 * i + k..], BASE_45));
  }
}
