/**
 * HexFormat.of().formatHex: every byte becomes two lower-case hexadecimal
 * digits, high nibble first.
 */
module Hex {

  newtype byte = x: int | 0 <= x < 256

  predicate IsLowerHexDigit(c: char)
  {
    '0' <= c <= '9' || 'a' <= c <= 'f'
  }

  /** The lower-case digit for a nibble. */
  function HexDigit(n: int): (c: char)
    requires 0 <= n < 16
    ensures IsLowerHexDigit(c) && HexValue(c) == n
  {
    if n < 10 then ('0' as int + n) as char else ('a' as int + n - 10) as char
  }

  /** The nibble a lower-case digit stands for. */
  function HexValue(c: char): (n: int)
    requires IsLowerHexDigit(c)
    ensures 0 <= n < 16
  {
    if c <= '9' then c as int - '0' as int else c as int - 'a' as int + 10
  }

  /** formatHex: two digits per byte, in byte order. */
  function FormatHex(bytes: seq<byte>): (s: string)
    ensures |s| == 2 * |bytes|
    ensures forall i :: 0 <= i < |s| ==> IsLowerHexDigit(s[i])
  {
    if bytes == [] then ""
    else [HexDigit(bytes[0] as int / 16), HexDigit(bytes[0] as int % 16)] + FormatHex(bytes[1..])
  }

  /** The inverse of FormatHex on lower-case digit strings of even length. */
  function ParseHex(s: string): (bytes: seq<byte>)
    requires |s| % 2 == 0
    requires forall i :: 0 <= i < |s| ==> IsLowerHexDigit(s[i])
    ensures 2 * |bytes| == |s|
  {
    if s == [] then []
    else [(16 * HexValue(s[0]) + HexValue(s[1])) as byte] + ParseHex(s[2..])
  }

  /** Byte i is written at positions 2i (high nibble) and 2i + 1 (low nibble). */
  lemma {:induction false} FormatHexAt(bytes: seq<byte>, i: nat)
    requires i < |bytes|
    ensures FormatHex(bytes)[2 * i] == HexDigit(bytes[i] as int / 16)
    ensures FormatHex(bytes)[2 * i + 1] == HexDigit(bytes[i] as int % 16)
  {
    if i > 0 {
      FormatHexAt(bytes[1..], i - 1);
    }
  }

  /** The digest can be read back from its hex string. */
  lemma {:induction false} ParseFormatHex(bytes: seq<byte>)
    ensures ParseHex(FormatHex(bytes)) == bytes
  {
    if bytes != [] {
      var s := FormatHex(bytes);
      ParseFormatHex(bytes[1..]);
      assert s[2..] == FormatHex(bytes[1..]);
      assert [bytes[0]] + bytes[1..] == bytes;
    }
  }

  /** Distinct byte strings format to distinct hex strings. */
  lemma FormatHexInjective(a: seq<byte>, b: seq<byte>)
    requires FormatHex(a) == FormatHex(b)
    ensures a == b
  {
    ParseFormatHex(a);
    ParseFormatHex(b);
  }
}
