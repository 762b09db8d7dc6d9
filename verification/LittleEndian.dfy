/** Four-byte little-endian lengths, as they frame records in files. */
module LittleEndian {

  type byte = x: int | 0 <= x < 256 witness 0

  const U32_LIMIT := 0x1_0000_0000

  /** Four bytes of `n`, lowest first; a number that does not fit is cut to 32
      bits, as a conversion to a 32-bit integer does. */
  function U32Bytes(n: nat): (bytes: seq<byte>)
    ensures |bytes| == 4
  {
    [n % 256, n / 256 % 256, n / 65536 % 256, n / 16777216 % 256]
  }

  function U32At(bytes: seq<byte>, at: nat): (n: nat)
    requires at + 4 <= |bytes|
    ensures n < U32_LIMIT
  {
    bytes[at] as int + 256 * (bytes[at + 1] as int) + 65536 * (bytes[at + 2] as int) + 16777216 * (bytes[at + 3] as int)
  }

  /** Writing and reading a length agree exactly when it fits 32 bits. */
  lemma U32RoundTripIff(n: nat)
    ensures U32At(U32Bytes(n), 0) == n % U32_LIMIT
    ensures U32At(U32Bytes(n), 0) == n <==> n < U32_LIMIT
  {
    var a, b, c, d := n % 256, n / 256 % 256, n / 65536 % 256, n / 16777216 % 256;
    assert n / 65536 == n / 256 / 256;
    assert n / 16777216 == n / 65536 / 256;
    assert n == 256 * (n / 256) + a;
    assert n / 256 == 256 * (n / 65536) + b;
    assert n / 65536 == 256 * (n / 16777216) + c;
    assert n / 16777216 == 256 * (n / U32_LIMIT) + d by {
      assert n / U32_LIMIT == n / 16777216 / 256;
    }
    assert n == U32_LIMIT * (n / U32_LIMIT) + (a + 256 * b + 65536 * c + 16777216 * d);
  }

  /** A length read where it was written, whatever stands around it. */
  lemma U32Framed(before: seq<byte>, n: nat, after: seq<byte>)
    requires n < U32_LIMIT
    ensures U32At(before + U32Bytes(n) + after, |before|) == n
  {
    U32RoundTripIff(n);
    var all := before + U32Bytes(n) + after;
    var at := |before|;
    assert all[at] == U32Bytes(n)[0] && all[at + 1] == U32Bytes(n)[1];
    assert all[at + 2] == U32Bytes(n)[2] && all[at + 3] == U32Bytes(n)[3];
  }

  /** The first byte counts ones, the next ones 256s, 65536s and 16777216s. */
  lemma LowestByteFirst(n: nat, bytes: seq<byte>, at: nat)
    requires at + 4 <= |bytes|
    ensures n < 0x1_0000_0000 ==>
      var b := U32Bytes(n); n == b[0] as int + 256 * (b[1] as int) + 65536 * (b[2] as int) + 16777216 * (b[3] as int)
    ensures U32At(bytes, at) == bytes[at] as int + 256 * (bytes[at + 1] as int) + 65536 * (bytes[at + 2] as int)
                                + 16777216 * (bytes[at + 3] as int)
  {
    U32RoundTripIff(n);
  }
}
