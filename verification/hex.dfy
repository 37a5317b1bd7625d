/** Node's `Buffer.toString("hex")`: every byte becomes two lower-case
    hexadecimal digits, most significant nibble first. */
module Hex {

  newtype uint8 = x: int | 0 <= x < 256

  /** The lower-case hexadecimal digit of a nibble. */
  function HexDigit(v: nat): (c: char)
    requires v < 16
    ensures IsLowerHex(c)
  {
    if v < 10 then ('0' as int + v) as char else ('a' as int + v - 10) as char
  }

  predicate IsLowerHex(c: char)
  {
    '0' <= c <= '9' || 'a' <= c <= 'f'
  }

  function NibbleValue(c: char): (v: nat)
    requires IsLowerHex(c)
    ensures v < 16 && HexDigit(v) == c
  {
    if '0' <= c <= '9' then c as int - '0' as int else c as int - 'a' as int + 10
  }

  function Encode(bytes: seq<uint8>): (s: string)
    ensures |s| == 2 * |bytes|
    ensures forall i :: 0 <= i < |s| ==> IsLowerHex(s[i])
  {
    if |bytes| == 0 then []
    else [HexDigit(bytes[0] as int / 16), HexDigit(bytes[0] as int % 16)] + Encode(bytes[1..])
  }

  function Decode(s: string): (bytes: seq<uint8>)
    requires |s| % 2 == 0
    requires forall i :: 0 <= i < |s| ==> IsLowerHex(s[i])
    ensures 2 * |bytes| == |s|
  {
    if |s| == 0 then []
    else [(NibbleValue(s[0]) * 16 + NibbleValue(s[1])) as uint8] + Decode(s[2..])
  }

  lemma NibbleOfDigit(v: nat)
    requires v < 16
    ensures NibbleValue(HexDigit(v)) == v
  {
  }

  /** The hex text determines the bytes: decoding undoes encoding. */
  lemma {:induction false} DecodeEncode(bytes: seq<uint8>)
    ensures Decode(Encode(bytes)) == bytes
  {
    if |bytes| > 0 {
      var s := Encode(bytes);
      assert s[2..] == Encode(bytes[1..]);
      DecodeEncode(bytes[1..]);
      var b := bytes[0] as int;
      NibbleOfDigit(b / 16);
      NibbleOfDigit(b % 16);
    }
  }
}
