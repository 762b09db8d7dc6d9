/** Hexadecimal text of bytes, as content keys are stored. */
module Hex {
  import opened Wrappers
  import opened LittleEndian

  function Digit(n: nat): char
    requires n < 16
  {
    if n < 10 then ('0' as int + n) as char else ('a' as int + (n - 10)) as char
  }

  /** Either case is read. */
  function DigitValue(c: char): (v: Option<nat>)
    ensures v.Some? ==> v.value < 16
  {
    if '0' <= c <= '9' then Some(c as int - '0' as int)
    else if 'a' <= c <= 'f' then Some(c as int - 'a' as int + 10)
    else if 'A' <= c <= 'F' then Some(c as int - 'A' as int + 10)
    else None
  }

  function Encode(bytes: seq<byte>): string {
    if bytes == [] then "" else [Digit(bytes[0] / 16), Digit(bytes[0] % 16)] + Encode(bytes[1..])
  }

  function Decode(text: string): (bytes: Option<seq<byte>>)
    ensures bytes.Some? ==> |text| == 2 * |bytes.value|
  {
    if text == "" then Some([])
    else if |text| == 1 then None
    else
      var high, low, rest := DigitValue(text[0]), DigitValue(text[1]), Decode(text[2..]);
      if high.None? || low.None? || rest.None? then None
      else Some([(16 * high.value + low.value) as byte] + rest.value)
  }

  lemma {:induction false} DecodeEncode(bytes: seq<byte>)
    ensures Decode(Encode(bytes)) == Some(bytes)
  {
    if bytes != [] {
      var text := Encode(bytes);
      assert text[2..] == Encode(bytes[1..]);
      DecodeEncode(bytes[1..]);
      assert bytes == [bytes[0]] + bytes[1..];
    }
  }

  /** Each byte is two digits, the higher first, in lower case; either case is read. */
  lemma {:induction false} DigitsOfBytes(bytes: seq<byte>, k: nat)
    requires k < |bytes|
    ensures |Encode(bytes)| == 2 * |bytes|
    ensures Encode(bytes)[2 * k] == "0123456789abcdef"[bytes[k] / 16]
    ensures Encode(bytes)[2 * k + 1] == "0123456789abcdef"[bytes[k] % 16]
  {
    EncodedLength(bytes);
    if k > 0 {
      DigitsOfBytes(bytes[1..], k - 1);
      assert Encode(bytes)[2..] == Encode(bytes[1..]);
    } else {
      DigitIs(bytes[0] / 16);
      DigitIs(bytes[0] % 16);
    }
  }

  lemma {:induction false} EncodedLength(bytes: seq<byte>)
    ensures |Encode(bytes)| == 2 * |bytes|
  {
    if bytes != [] { EncodedLength(bytes[1..]); }
  }

  lemma DigitIs(n: nat)
    requires n < 16
    ensures Digit(n) == "0123456789abcdef"[n]
  {
  }
}
