/**
 * Fixed-width integers, byte strings and the two small text conversions the
 * certificate code relies on: the bytes of a string (vchFromString) and the
 * decimal text of an unsigned number (std::to_string).
 */
module Primitives {

  type byte = x: int | 0 <= x < 0x100
  type uint32 = x: int | 0 <= x < 0x1_0000_0000
  type uint64 = x: int | 0 <= x < 0x1_0000_0000_0000_0000
  type int32 = x: int | -0x8000_0000 <= x < 0x8000_0000

  /** The source's CharString: a vector of unsigned chars. */
  type CharString = seq<byte>

  /** A uint256 as its 32 stored bytes, least significant byte first. */
  type Uint256 = s: seq<byte> | |s| == 32 witness seq(32, _ => 0)

  datatype Option<T> = None | Some(value: T)

  /** The bytes of a string, one unsigned char per character. */
  function StringBytes(s: string): (r: CharString)
    ensures |r| == |s|
    ensures forall i :: 0 <= i < |s| && s[i] as int < 0x100 ==> r[i] == s[i] as int
  {
    seq(|s|, i requires 0 <= i < |s| => (s[i] as int) % 0x100)
  }

  function DecimalDigit(d: nat): (ch: char)
    requires d < 10
    ensures '0' <= ch <= '9'
  {
    ('0' as int + d) as char
  }

  /** Decimal text of a natural number, most significant digit first. */
  function NatToString(n: nat): (s: string)
    ensures |s| > 0
    ensures forall i :: 0 <= i < |s| ==> '0' <= s[i] <= '9'
  {
    if n < 10 then [DecimalDigit(n)] else NatToString(n / 10) + [DecimalDigit(n % 10)]
  }
}
