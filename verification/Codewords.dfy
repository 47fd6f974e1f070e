/** Bit strings packed into bytes, most significant bit first. */
module Codewords {
  import opened Galois

  /** ((b >> i) & 1) != 0 */
  predicate ByteBit(b: Byte, i: nat)
    requires i < 8
  {
    (b.bits >> i) & 1 != 0
  }

  /** Bit t of a byte string, as drawCodewords reads it. */
  predicate BitAt(data: seq<Byte>, t: nat)
    requires t < 8 * |data|
  {
    ByteBit(data[t / 8], 7 - t % 8)
  }

  function Unpack(data: seq<Byte>): (bits: seq<bool>)
    ensures |bits| == 8 * |data|
  {
    seq(8 * |data|, t requires 0 <= t < 8 * |data| => BitAt(data, t))
  }

  lemma UnpackAt(data: seq<Byte>, t: nat)
    requires t < 8 * |data|
    ensures Unpack(data)[t] == BitAt(data, t) == ByteBit(data[t / 8], 7 - t % 8)
  {
  }

  /** b |= (v ? 1 : 0) << s */
  function OrBit(b: Byte, v: bool, s: nat): Byte
    requires s < 8
  {
    Byte(b.bits | ((if v then 1 else 0) << s))
  }

  lemma OrBitAt(b: Byte, v: bool, s: nat, i: nat)
    requires s < 8 && i < 8
    ensures ByteBit(OrBit(b, v, s), i) == if i == s then ByteBit(b, i) || v else ByteBit(b, i)
  {
    var bit: bv8 := if v then 1 else 0;
    if i == s {
      OrShifted(b.bits, bit, s);
    } else {
      OrElsewhere(b.bits, bit, s, i);
    }
  }

  lemma OrShifted(b: bv8, v: bv8, s: nat)
    requires s < 8 && v <= 1
    ensures ((b | (v << s)) >> s) & 1 == ((b >> s) & 1) | v
  {
  }

  lemma OrElsewhere(b: bv8, v: bv8, s: nat, i: nat)
    requires s < 8 && i < 8 && s != i && v <= 1
    ensures ((b | (v << s)) >> i) & 1 == (b >> i) & 1
  {
  }

  lemma ZeroBits(i: nat)
    requires i < 8
    ensures !ByteBit(ZERO, i)
  {
  }

  lemma SameBits(a: Byte, b: Byte)
    requires forall i :: 0 <= i < 8 ==> ByteBit(a, i) == ByteBit(b, i)
    ensures a == b
  {
    assert ByteBit(a, 0) == ByteBit(b, 0) && ByteBit(a, 1) == ByteBit(b, 1);
    assert ByteBit(a, 2) == ByteBit(b, 2) && ByteBit(a, 3) == ByteBit(b, 3);
    assert ByteBit(a, 4) == ByteBit(b, 4) && ByteBit(a, 5) == ByteBit(b, 5);
    assert ByteBit(a, 6) == ByteBit(b, 6) && ByteBit(a, 7) == ByteBit(b, 7);
  }

  /** The bit string determines the bytes. */
  lemma UnpackInjective(a: seq<Byte>, b: seq<Byte>)
    requires Unpack(a) == Unpack(b)
    ensures a == b
  {
    hide ByteBit;
    assert |Unpack(a)| == |Unpack(b)|;
    forall k | 0 <= k < |a|
      ensures a[k] == b[k]
    {
      forall i | 0 <= i < 8
        ensures ByteBit(a[k], i) == ByteBit(b[k], i)
      {
        var t := 8 * k + (7 - i);
        assert Unpack(a)[t] == Unpack(b)[t];
      }
      SameBits(a[k], b[k]);
    }
  }

  /** Up to eight bits as the top bits of a byte. */
  function PackByte(bits: seq<bool>): Byte
    requires |bits| <= 8
  {
    if bits == [] then ZERO
    else OrBit(PackByte(bits[..|bits| - 1]), bits[|bits| - 1], 8 - |bits|)
  }

  /** The first bit is worth 128, the last one 1. */
  lemma PackedByte(bits: seq<bool>)
    requires |bits| == 8
    ensures var high: bv8 := (if bits[0] then 128 else 0) + (if bits[1] then 64 else 0)
                             + (if bits[2] then 32 else 0) + (if bits[3] then 16 else 0);
            var low: bv8 := (if bits[4] then 8 else 0) + (if bits[5] then 4 else 0)
                            + (if bits[6] then 2 else 0) + (if bits[7] then 1 else 0);
            PackByte(bits) == Byte(high + low)
  {
    hide OrBit;
    PackedNext(bits, 1);
    PackedNext(bits, 2);
    PackedNext(bits, 3);
    PackedNext(bits, 4);
    PackedNext(bits, 5);
    PackedNext(bits, 6);
    PackedNext(bits, 7);
    PackedNext(bits, 8);
    assert bits[..0] == [] && bits[..8] == bits;
    hide PackByte;
    EightBits(bits[0], bits[1], bits[2], bits[3], bits[4], bits[5], bits[6], bits[7]);
  }

  lemma PackedNext(bits: seq<bool>, n: nat)
    requires |bits| == 8 && 0 < n <= 8
    ensures PackByte(bits[..n]) == OrBit(PackByte(bits[..n - 1]), bits[n - 1], 8 - n)
    ensures PackByte([]) == ZERO
  {
    hide OrBit;
    assert bits[..n][..n - 1] == bits[..n - 1];
  }

  lemma EightBits(b0: bool, b1: bool, b2: bool, b3: bool, b4: bool, b5: bool, b6: bool, b7: bool)
    ensures var high: bv8 := (if b0 then 128 else 0) + (if b1 then 64 else 0)
                             + (if b2 then 32 else 0) + (if b3 then 16 else 0);
            var low: bv8 := (if b4 then 8 else 0) + (if b5 then 4 else 0)
                            + (if b6 then 2 else 0) + (if b7 then 1 else 0);
            var half := OrBit(OrBit(OrBit(OrBit(ZERO, b0, 7), b1, 6), b2, 5), b3, 4);
            OrBit(OrBit(OrBit(OrBit(half, b4, 3), b5, 2), b6, 1), b7, 0) == Byte(high + low)
  {
  }

  function Pack(bits: seq<bool>): (data: seq<Byte>)
    ensures |data| == |bits| / 8
  {
    seq(|bits| / 8, k requires 0 <= k < |bits| / 8 => PackByte(bits[8 * k..8 * k + 8]))
  }

  lemma {:induction false} PackByteAt(bits: seq<bool>, i: nat)
    requires |bits| <= 8 && i < 8
    ensures ByteBit(PackByte(bits), 7 - i) == (i < |bits| && bits[i])
  {
    hide ByteBit, OrBit;
    if bits == [] {
      ZeroBits(7 - i);
    } else {
      PackByteAt(bits[..|bits| - 1], i);
      OrBitAt(PackByte(bits[..|bits| - 1]), bits[|bits| - 1], 8 - |bits|, 7 - i);
    }
  }

  /** Packing loses nothing of a whole number of bytes... */
  lemma UnpackPack(bits: seq<bool>)
    requires |bits| % 8 == 0
    ensures Unpack(Pack(bits)) == bits
  {
    hide ByteBit, PackByte;
    forall t | 0 <= t < |bits|
      ensures BitAt(Pack(bits), t) == bits[t]
    {
      var k := t / 8;
      PackByteAt(bits[8 * k..8 * k + 8], t % 8);
    }
  }

  /** ...and is undone by unpacking. */
  lemma PackUnpack(data: seq<Byte>)
    ensures Pack(Unpack(data)) == data
  {
    hide BitAt, PackByte;
    UnpackPack(Unpack(data));
    UnpackInjective(Pack(Unpack(data)), data);
  }

  /** Packs bits into bytes in big endian, as the end of encodeSegments does. */
  method PackBits(bits: seq<bool>) returns (data: seq<Byte>)
    requires |bits| % 8 == 0
    ensures data == Pack(bits) && Unpack(data) == bits
  {
    hide ByteBit, OrBit, PackByte;
    var buffer := new Byte[|bits| / 8](i => ZERO);
    forall t | 0 <= t < |bits|
      ensures !ByteBit(buffer[t / 8], 7 - t % 8)
    {
      ZeroBits(7 - t % 8);
    }
    for i := 0 to |bits|
      invariant forall t :: 0 <= t < i ==> ByteBit(buffer[t / 8], 7 - t % 8) == bits[t]
      invariant forall t :: i <= t < |bits| ==> !ByteBit(buffer[t / 8], 7 - t % 8)
    {
      ghost var before := buffer[..];
      buffer[i / 8] := OrBit(buffer[i / 8], bits[i], 7 - i % 8);
      forall t | 0 <= t < |bits|
        ensures ByteBit(buffer[t / 8], 7 - t % 8)
             == if t == i then bits[i] else ByteBit(before[t / 8], 7 - t % 8)
      {
        if t / 8 == i / 8 {
          OrBitAt(before[i / 8], bits[i], 7 - i % 8, 7 - t % 8);
        }
      }
    }
    data := buffer[..];
    assert Unpack(data) == bits;
    PackUnpack(data);
  }
}
