/** The appendable bit buffer. */
module BitBuffers {
  import opened Bits

  class BitBuffer {
    var bits: seq<bool>

    constructor ()
      ensures bits == []
    {
      bits := [];
    }

    /** Appends the low len bits of val, most significant first. The value passes the
        source's range check, val >> len == 0. */
    method AppendBits(val: nat, len: nat)
      requires len <= 31 && val < Pow2(len)
      modifies this
      ensures bits == old(bits) + ToBits(val, len) && Shr(val, len) == 0
    {
      hide BitOf, ToBits, Shr, Pow2;
      ShrZero(val, len);
      var i := len - 1;
      while i >= 0
        invariant -1 <= i < len
        invariant bits == old(bits) + ToBits(val, len)[..len - 1 - i]
      {
        ToBitsAt(val, len, i);
        bits := bits + [BitOf(val, i)];
        i := i - 1;
      }
    }
  }
}
