/**
 * The hexadecimal text of a uint256 (GetHex / ToString): 64 lower-case hex
 * characters, most significant byte first. Signatures are made over the bytes
 * of this text and the ledger stores a record's hash as this text, so the
 * conversion must lose nothing: two values with the same text are equal.
 */
module Hex {
  import opened Primitives

  function HexDigit(d: nat): (ch: char)
    requires d < 16
    ensures IsHexChar(ch)
  {
    if d < 10 then ('0' as int + d) as char else ('a' as int + d - 10) as char
  }

  predicate IsHexChar(ch: char) {
    '0' <= ch <= '9' || 'a' <= ch <= 'f'
  }

  /** Two hex characters ("%02x") per byte, in the order of the bytes. */
  function HexOfBytes(bs: seq<byte>): (s: string)
    ensures |s| == 2 * |bs|
    ensures forall i :: 0 <= i < |s| ==> IsHexChar(s[i])
  {
    if bs == [] then [] else [HexDigit(bs[0] / 16), HexDigit(bs[0] % 16)] + HexOfBytes(bs[1..])
  }

  function Reverse(bs: seq<byte>): (r: seq<byte>)
    ensures |r| == |bs|
  {
    if bs == [] then [] else Reverse(bs[1..]) + [bs[0]]
  }

  /** uint256::GetHex, which ToString also returns. */
  function GetHex(v: Uint256): (s: string)
    ensures |s| == 64
    ensures forall i :: 0 <= i < |s| ==> IsHexChar(s[i])
  {
    HexOfBytes(Reverse(v))
  }

  lemma HexDigitInjective(x: nat, y: nat)
    requires x < 16 && y < 16 && HexDigit(x) == HexDigit(y)
    ensures x == y
  {
  }

  lemma {:induction false} HexOfBytesInjective(a: seq<byte>, b: seq<byte>)
    requires HexOfBytes(a) == HexOfBytes(b)
    ensures a == b
  {
    if a != [] {
      var ha, hb := HexOfBytes(a), HexOfBytes(b);
      assert ha[0] == hb[0] && ha[1] == hb[1];
      HexDigitInjective(a[0] / 16, b[0] / 16);
      HexDigitInjective(a[0] % 16, b[0] % 16);
      assert a[0] == b[0];
      assert HexOfBytes(a[1..]) == ha[2..] == hb[2..] == HexOfBytes(b[1..]);
      HexOfBytesInjective(a[1..], b[1..]);
    }
  }

  lemma {:induction false} ReverseInjective(a: seq<byte>, b: seq<byte>)
    requires Reverse(a) == Reverse(b)
    ensures a == b
  {
    if a != [] {
      var ra, rb := Reverse(a), Reverse(b);
      assert a[0] == ra[|ra| - 1] == rb[|rb| - 1] == b[0];
      assert Reverse(a[1..]) == ra[..|ra| - 1] == rb[..|rb| - 1] == Reverse(b[1..]);
      ReverseInjective(a[1..], b[1..]);
    }
  }

  /** Equal hex text means equal values: GetHex loses no information. */
  lemma GetHexInjective(u: Uint256, v: Uint256)
    ensures GetHex(u) == GetHex(v) <==> u == v
  {
    if GetHex(u) == GetHex(v) {
      HexOfBytesInjective(Reverse(u), Reverse(v));
      ReverseInjective(u, v);
    }
  }

  /**
   * The bytes of a digest's hex text (vchFromString(d.ToString()), or
   * vchFromValue(d.GetHex())): what is signed, and what the ledger stores as
   * a record's hash.
   */
  function HashText(d: Uint256): (t: CharString)
    ensures |t| == 64
    ensures forall i :: 0 <= i < 64 ==> IsHexChar(t[i] as char)
  {
    StringBytes(GetHex(d))
  }

  /** The hex-text bytes still determine the digest. */
  lemma HashTextInjective(u: Uint256, v: Uint256)
    ensures HashText(u) == HashText(v) <==> u == v
  {
    var su, sv := GetHex(u), GetHex(v);
    if HashText(u) == HashText(v) {
      forall i | 0 <= i < 64 ensures su[i] == sv[i] {
        assert HashText(u)[i] == HashText(v)[i];
      }
      assert su == sv;
      GetHexInjective(u, v);
    }
  }
}
