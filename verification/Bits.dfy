/** Unsigned integers as bit strings, most significant bit first. */
module Bits {

  function Pow2(n: nat): (p: nat)
    ensures p >= 1
  {
    if n == 0 then 1 else 2 * Pow2(n - 1)
  }

  /** v >> n */
  function Shr(v: nat, n: nat): (r: nat)
    ensures r <= v
  {
    if n == 0 then v else Shr(v, n - 1) / 2
  }

  /** ((v >> i) & 1) != 0 */
  predicate BitOf(v: nat, i: nat) {
    Shr(v, i) % 2 == 1
  }

  /** The low len bits of v, most significant first. */
  function ToBits(v: nat, len: nat): (bits: seq<bool>)
    ensures |bits| == len
  {
    if len == 0 then [] else ToBits(v / 2, len - 1) + [v % 2 == 1]
  }

  /** The last four bits, one by one. */
  lemma FourBits(v: nat, len: nat)
    ensures ToBits(v, len + 4)
         == ToBits(v / 16, len) + [v / 8 % 2 == 1, v / 4 % 2 == 1, v / 2 % 2 == 1, v % 2 == 1]
    ensures ToBits(v, 0) == []
  {
    assert ToBits(v, len + 4) == ToBits(v / 2, len + 3) + [v % 2 == 1];
    assert ToBits(v / 2, len + 3) == ToBits(v / 4, len + 2) + [v / 2 % 2 == 1];
    assert ToBits(v / 4, len + 2) == ToBits(v / 8, len + 1) + [v / 4 % 2 == 1];
    assert ToBits(v / 8, len + 1) == ToBits(v / 16, len) + [v / 8 % 2 == 1];
  }

  /** The number a bit string denotes. */
  function Value(bits: seq<bool>): nat {
    if bits == [] then 0
    else 2 * Value(bits[..|bits| - 1]) + (if bits[|bits| - 1] then 1 else 0)
  }

  lemma {:induction false} ValueToBits(v: nat, len: nat)
    requires v < Pow2(len)
    ensures Value(ToBits(v, len)) == v
  {
    if len > 0 {
      ValueToBits(v / 2, len - 1);
      assert ToBits(v, len)[..len - 1] == ToBits(v / 2, len - 1);
    }
  }

  lemma {:induction false} ToBitsValue(bits: seq<bool>)
    ensures Value(bits) < Pow2(|bits|)
    ensures ToBits(Value(bits), |bits|) == bits
  {
    if bits != [] {
      ToBitsValue(bits[..|bits| - 1]);
      assert bits == bits[..|bits| - 1] + [bits[|bits| - 1]];
    }
  }

  lemma {:induction false} ShrHalf(v: nat, n: nat)
    ensures Shr(v / 2, n) == Shr(v, n) / 2
  {
    if n > 0 {
      ShrHalf(v, n - 1);
    }
  }

  /** Position by position, ToBits is what the shift-and-mask loops read. */
  lemma {:induction false} ToBitsAt(v: nat, len: nat, i: nat)
    requires i < len
    ensures ToBits(v, len)[len - 1 - i] == BitOf(v, i)
  {
    if i > 0 {
      ToBitsAt(v / 2, len - 1, i - 1);
      ShrHalf(v, i - 1);
    }
  }

  lemma {:induction false} ShrZero(v: nat, n: nat)
    ensures Shr(v, n) == 0 <==> v < Pow2(n)
  {
    if n > 0 {
      ShrZero(v / 2, n - 1);
      ShrHalf(v, n - 1);
    }
  }
}
