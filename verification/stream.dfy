/**
 * The byte stream the certificate is written to and read from (CDataStream
 * with SER_NETWORK), as a sequence of typed fields. Each field is encoded the
 * way the Bitcoin-family serializer encodes it: fixed-width integers little
 * endian, a uint256 as its 32 raw bytes, a byte vector as a CompactSize length
 * followed by the bytes, and a vector of byte vectors as a CompactSize count
 * followed by each element. Reading checks what ReadCompactSize checks: the
 * shortest encoding was used and the size is at most MAX_SIZE; running out of
 * bytes is a failure (the stream throws).
 *
 * The stream of fields is decoded against a schema (the list of field kinds
 * the reader expects). The two lemmas at the end state that decoding is the
 * exact inverse of encoding: encoded fields decode to themselves with the
 * rest of the stream untouched, and whatever decodes was produced by encoding.
 */
module Stream {
  import opened Primitives

  /** ReadCompactSize refuses larger sizes (32 MiB). */
  const MAX_SIZE: nat := 0x0200_0000

  function Pow256(k: nat): (p: nat)
    ensures p > 0
  {
    if k == 0 then 1 else 256 * Pow256(k - 1)
  }

  /** The k low-order bytes of n, least significant first. */
  function LittleEndian(n: nat, k: nat): (r: seq<byte>)
    ensures |r| == k
  {
    if k == 0 then [] else [n % 256] + LittleEndian(n / 256, k - 1)
  }

  function FromLittleEndian(s: seq<byte>): nat {
    if s == [] then 0 else s[0] + 256 * FromLittleEndian(s[1..])
  }

  lemma {:induction false} FromLittleEndianBound(s: seq<byte>)
    ensures FromLittleEndian(s) < Pow256(|s|)
  {
    if s != [] {
      FromLittleEndianBound(s[1..]);
    }
  }

  lemma {:induction false} LittleEndianRoundTrip(n: nat, k: nat)
    requires n < Pow256(k)
    ensures FromLittleEndian(LittleEndian(n, k)) == n
  {
    if k > 0 {
      LittleEndianRoundTrip(n / 256, k - 1);
      var s := LittleEndian(n, k);
      assert s[0] == n % 256 && s[1..] == LittleEndian(n / 256, k - 1);
    }
  }

  lemma {:induction false} LittleEndianOfValue(s: seq<byte>)
    ensures LittleEndian(FromLittleEndian(s), |s|) == s
  {
    if s != [] {
      var v := FromLittleEndian(s);
      assert v % 256 == s[0] && v / 256 == FromLittleEndian(s[1..]);
      LittleEndianOfValue(s[1..]);
    }
  }

  // ---------------------------------------------------------------- CompactSize

  /** WriteCompactSize: one byte below 253, otherwise a marker byte and 2, 4 or 8 bytes. */
  function CompactSize(n: nat): seq<byte> {
    if n < 253 then [n]
    else if n <= 0xFFFF then [253] + LittleEndian(n, 2)
    else if n <= 0xFFFF_FFFF then [254] + LittleEndian(n, 4)
    else [255] + LittleEndian(n, 8)
  }

  /** ReadCompactSize: the size and the rest of the stream, or None where the reader throws. */
  function ReadCompactSize(s: seq<byte>): Option<(nat, seq<byte>)> {
    if |s| == 0 then None
    else
      var width := if s[0] < 253 then 0 else if s[0] == 253 then 2 else if s[0] == 254 then 4 else 8;
      if |s| < 1 + width then None
      else
        var n := if width == 0 then s[0] else FromLittleEndian(s[1..1 + width]);
        var least := if width == 0 then 0 else if width == 2 then 253 else if width == 4 then 0x1_0000 else 0x1_0000_0000;
        if n < least then None        // non-canonical ReadCompactSize()
        else if n > MAX_SIZE then None  // ReadCompactSize(): size too large
        else Some((n, s[1 + width..]))
  }

  lemma CompactSizeRoundTrip(n: nat, rest: seq<byte>)
    requires n <= MAX_SIZE
    ensures ReadCompactSize(CompactSize(n) + rest) == Some((n, rest))
  {
    var s := CompactSize(n) + rest;
    if n < 253 {
      assert s[1..] == rest;
    } else if n <= 0xFFFF {
      assert s[1..3] == LittleEndian(n, 2) && s[3..] == rest;
      LittleEndianRoundTrip(n, 2);
    } else {
      assert s[1..5] == LittleEndian(n, 4) && s[5..] == rest;
      LittleEndianRoundTrip(n, 4);
    }
  }

  lemma CompactSizeSound(s: seq<byte>)
    ensures ReadCompactSize(s).Some? ==>
      ReadCompactSize(s).value.0 <= MAX_SIZE && s == CompactSize(ReadCompactSize(s).value.0) + ReadCompactSize(s).value.1
  {
    if ReadCompactSize(s).Some? {
      var (n, rest) := ReadCompactSize(s).value;
      if s[0] < 253 {
        assert s == [s[0]] + s[1..];
      } else if s[0] == 253 {
        FromLittleEndianBound(s[1..3]);
        LittleEndianOfValue(s[1..3]);
        assert s == [253] + s[1..3] + s[3..];
      } else {
        assert s[0] == 254;
        FromLittleEndianBound(s[1..5]);
        LittleEndianOfValue(s[1..5]);
        assert s == [254] + s[1..5] + s[5..];
      }
    }
  }

  // ---------------------------------------------------------------- fields

  datatype Kind = Int32Kind | UInt32Kind | UInt64Kind | CharsKind | CharsListKind | Uint256Kind

  /** One serialized member: int, uint32_t, uint64_t, CharString, vector<CharString> or uint256. */
  datatype Field =
    | Int32(i: int32)
    | UInt32(u: uint32)
    | UInt64(w: uint64)
    | Chars(b: CharString)
    | CharsList(l: seq<CharString>)
    | Hash256(h: Uint256)

  function KindOf(f: Field): Kind {
    match f
    case Int32(_) => Int32Kind
    case UInt32(_) => UInt32Kind
    case UInt64(_) => UInt64Kind
    case Chars(_) => CharsKind
    case CharsList(_) => CharsListKind
    case Hash256(_) => Uint256Kind
  }

  /** Every element of the list is at most `bound` bytes long. */
  predicate ElementsWithin(l: seq<CharString>, bound: nat) {
    forall i :: 0 <= i < |l| ==> |l[i]| <= bound
  }

  /** A field whose sizes ReadCompactSize accepts back. */
  predicate FieldEncodable(f: Field) {
    match f
    case Chars(b) => |b| <= MAX_SIZE
    case CharsList(l) => |l| <= MAX_SIZE && ElementsWithin(l, MAX_SIZE)
    case _ => true
  }

  function EncodeChars(b: CharString): seq<byte> {
    CompactSize(|b|) + b
  }

  function EncodeElements(l: seq<CharString>): seq<byte> {
    if l == [] then [] else EncodeChars(l[0]) + EncodeElements(l[1..])
  }

  function EncodeField(f: Field): seq<byte> {
    match f
    case Int32(i) => LittleEndian(if i < 0 then i + 0x1_0000_0000 else i, 4)
    case UInt32(u) => LittleEndian(u, 4)
    case UInt64(w) => LittleEndian(w, 8)
    case Chars(b) => EncodeChars(b)
    case CharsList(l) => CompactSize(|l|) + EncodeElements(l)
    case Hash256(h) => h
  }

  function DecodeChars(s: seq<byte>): Option<(CharString, seq<byte>)> {
    match ReadCompactSize(s)
    case None => None
    case Some((n, r)) => if |r| < n then None else Some((r[..n], r[n..]))
  }

  function DecodeElements(count: nat, s: seq<byte>): Option<(seq<CharString>, seq<byte>)>
    decreases count
  {
    if count == 0 then Some(([], s))
    else
      match DecodeChars(s)
      case None => None
      case Some((e, r)) =>
        match DecodeElements(count - 1, r)
        case None => None
        case Some((es, r')) => Some(([e] + es, r'))
  }

  function DecodeCharsList(s: seq<byte>): Option<(seq<CharString>, seq<byte>)> {
    match ReadCompactSize(s)
    case None => None
    case Some((n, r)) => DecodeElements(n, r)
  }

  function DecodeField(k: Kind, s: seq<byte>): Option<(Field, seq<byte>)> {
    match k
    case Int32Kind =>
      if |s| < 4 then None
      else
        var v := FromLittleEndian(s[..4]);
        FromLittleEndianBound(s[..4]);
        Some((Int32(if v >= 0x8000_0000 then v - 0x1_0000_0000 else v), s[4..]))
    case UInt32Kind =>
      if |s| < 4 then None
      else
        FromLittleEndianBound(s[..4]);
        Some((UInt32(FromLittleEndian(s[..4])), s[4..]))
    case UInt64Kind =>
      if |s| < 8 then None
      else
        FromLittleEndianBound(s[..8]);
        Some((UInt64(FromLittleEndian(s[..8])), s[8..]))
    case CharsKind =>
      (match DecodeChars(s)
       case None => None
       case Some((b, r)) => Some((Chars(b), r)))
    case CharsListKind =>
      (match DecodeCharsList(s)
       case None => None
       case Some((l, r)) => Some((CharsList(l), r)))
    case Uint256Kind =>
      if |s| < 32 then None else Some((Hash256(s[..32]), s[32..]))
  }

  lemma CharsRoundTrip(b: CharString, rest: seq<byte>)
    requires |b| <= MAX_SIZE
    ensures DecodeChars(EncodeChars(b) + rest) == Some((b, rest))
  {
    assert EncodeChars(b) + rest == CompactSize(|b|) + (b + rest);
    CompactSizeRoundTrip(|b|, b + rest);
    assert (b + rest)[..|b|] == b && (b + rest)[|b|..] == rest;
  }

  lemma CharsSound(s: seq<byte>)
    ensures DecodeChars(s).Some? ==>
      |DecodeChars(s).value.0| <= MAX_SIZE && s == EncodeChars(DecodeChars(s).value.0) + DecodeChars(s).value.1
  {
    CompactSizeSound(s);
    if DecodeChars(s).Some? {
      var (n, r) := ReadCompactSize(s).value;
      assert r == r[..n] + r[n..];
    }
  }

  lemma {:induction false} ElementsRoundTrip(l: seq<CharString>, rest: seq<byte>)
    requires ElementsWithin(l, MAX_SIZE)
    ensures DecodeElements(|l|, EncodeElements(l) + rest) == Some((l, rest))
  {
    if l != [] {
      var tail := EncodeElements(l[1..]) + rest;
      assert DecodeChars(EncodeElements(l) + rest) == Some((l[0], tail)) by {
        assert EncodeElements(l) + rest == EncodeChars(l[0]) + tail;
        CharsRoundTrip(l[0], tail);
      }
      assert DecodeElements(|l| - 1, tail) == Some((l[1..], rest)) by {
        ElementsRoundTrip(l[1..], rest);
      }
      assert [l[0]] + l[1..] == l;
    } else {
      assert EncodeElements(l) + rest == rest;
    }
  }

  lemma {:induction false} ElementsSound(count: nat, s: seq<byte>)
    ensures DecodeElements(count, s).Some? ==>
      var (l, r) := DecodeElements(count, s).value;
      |l| == count && (ElementsWithin(l, MAX_SIZE)) && s == EncodeElements(l) + r
  {
    if count > 0 && DecodeElements(count, s).Some? {
      CharsSound(s);
      var (e, r) := DecodeChars(s).value;
      ElementsSound(count - 1, r);
      var (es, r') := DecodeElements(count - 1, r).value;
      var l := [e] + es;
      assert DecodeElements(count, s).value == (l, r');
      assert s == EncodeElements(l) + r' by {
        assert l != [] && l[0] == e && l[1..] == es;
        assert EncodeElements(l) == EncodeChars(e) + EncodeElements(es);
        assert s == EncodeChars(e) + (EncodeElements(es) + r');
      }
      assert ElementsWithin(l, MAX_SIZE) by {
        forall i | 0 <= i < |l| ensures |l[i]| <= MAX_SIZE {
          if i > 0 { assert l[i] == es[i - 1]; }
        }
      }
    }
  }

  lemma FixedWidthRoundTrip(n: nat, k: nat, rest: seq<byte>)
    requires n < Pow256(k)
    ensures var s := LittleEndian(n, k) + rest; FromLittleEndian(s[..k]) == n && s[k..] == rest
  {
    var s := LittleEndian(n, k) + rest;
    assert s[..k] == LittleEndian(n, k);
    LittleEndianRoundTrip(n, k);
  }

  lemma Int32RoundTrip(i: int32, rest: seq<byte>)
    ensures DecodeField(Int32Kind, EncodeField(Int32(i)) + rest) == Some((Int32(i), rest))
  {
    FixedWidthRoundTrip(if i < 0 then i + 0x1_0000_0000 else i, 4, rest);
  }

  lemma UInt32RoundTrip(u: uint32, rest: seq<byte>)
    ensures DecodeField(UInt32Kind, EncodeField(UInt32(u)) + rest) == Some((UInt32(u), rest))
  {
    FixedWidthRoundTrip(u, 4, rest);
  }

  lemma UInt64RoundTrip(w: uint64, rest: seq<byte>)
    ensures DecodeField(UInt64Kind, EncodeField(UInt64(w)) + rest) == Some((UInt64(w), rest))
  {
    FixedWidthRoundTrip(w, 8, rest);
  }

  lemma CharsListRoundTrip(l: seq<CharString>, rest: seq<byte>)
    requires |l| <= MAX_SIZE && ElementsWithin(l, MAX_SIZE)
    ensures DecodeField(CharsListKind, EncodeField(CharsList(l)) + rest) == Some((CharsList(l), rest))
  {
    assert DecodeCharsList(EncodeField(CharsList(l)) + rest) == Some((l, rest)) by {
      assert EncodeField(CharsList(l)) + rest == CompactSize(|l|) + (EncodeElements(l) + rest);
      CompactSizeRoundTrip(|l|, EncodeElements(l) + rest);
      ElementsRoundTrip(l, rest);
    }
  }

  lemma FieldRoundTrip(f: Field, rest: seq<byte>)
    requires FieldEncodable(f)
    ensures DecodeField(KindOf(f), EncodeField(f) + rest) == Some((f, rest))
  {
    match f
    case Int32(i) => Int32RoundTrip(i, rest);
    case UInt32(u) => UInt32RoundTrip(u, rest);
    case UInt64(w) => UInt64RoundTrip(w, rest);
    case Chars(b) => CharsRoundTrip(b, rest);
    case CharsList(l) => CharsListRoundTrip(l, rest);
    case Hash256(h) => assert (h + rest)[..32] == h && (h + rest)[32..] == rest;
  }

  lemma Int32Sound(s: seq<byte>)
    ensures DecodeField(Int32Kind, s).Some? ==>
      var (f, r) := DecodeField(Int32Kind, s).value;
      KindOf(f) == Int32Kind && FieldEncodable(f) && s == EncodeField(f) + r
  {
    if DecodeField(Int32Kind, s).Some? {
      FromLittleEndianBound(s[..4]);
      LittleEndianOfValue(s[..4]);
      assert s == s[..4] + s[4..];
    }
  }

  lemma UInt32Sound(s: seq<byte>)
    ensures DecodeField(UInt32Kind, s).Some? ==>
      var (f, r) := DecodeField(UInt32Kind, s).value;
      KindOf(f) == UInt32Kind && FieldEncodable(f) && s == EncodeField(f) + r
  {
    if DecodeField(UInt32Kind, s).Some? {
      LittleEndianOfValue(s[..4]);
      assert s == s[..4] + s[4..];
    }
  }

  lemma UInt64Sound(s: seq<byte>)
    ensures DecodeField(UInt64Kind, s).Some? ==>
      var (f, r) := DecodeField(UInt64Kind, s).value;
      KindOf(f) == UInt64Kind && FieldEncodable(f) && s == EncodeField(f) + r
  {
    if DecodeField(UInt64Kind, s).Some? {
      LittleEndianOfValue(s[..8]);
      assert s == s[..8] + s[8..];
    }
  }

  lemma CharsListSound(s: seq<byte>)
    ensures DecodeField(CharsListKind, s).Some? ==>
      var (f, r) := DecodeField(CharsListKind, s).value;
      KindOf(f) == CharsListKind && FieldEncodable(f) && s == EncodeField(f) + r
  {
    if DecodeCharsList(s).Some? {
      CompactSizeSound(s);
      var (n, r0) := ReadCompactSize(s).value;
      ElementsSound(n, r0);
    }
  }

  lemma FieldSound(k: Kind, s: seq<byte>)
    ensures DecodeField(k, s).Some? ==>
      var (f, r) := DecodeField(k, s).value;
      KindOf(f) == k && FieldEncodable(f) && s == EncodeField(f) + r
  {
    match k
    case Int32Kind => Int32Sound(s);
    case UInt32Kind => UInt32Sound(s);
    case UInt64Kind => UInt64Sound(s);
    case CharsKind => CharsSound(s);
    case CharsListKind => CharsListSound(s);
    case Uint256Kind => if |s| >= 32 { assert s == s[..32] + s[32..]; }
  }

  // ---------------------------------------------------------------- field streams

  /** `ds << f0 << f1 << ...`: the fields' encodings one after another. */
  function Encode(fs: seq<Field>): seq<byte> {
    if fs == [] then [] else EncodeField(fs[0]) + Encode(fs[1..])
  }

  /** The fields follow the schema, kind by kind. */
  predicate Conforms(fs: seq<Field>, schema: seq<Kind>) {
    |fs| == |schema| && forall i :: 0 <= i < |fs| ==> KindOf(fs[i]) == schema[i]
  }

  predicate AllEncodable(fs: seq<Field>) {
    forall i :: 0 <= i < |fs| ==> FieldEncodable(fs[i])
  }

  /** `ds >> f0 >> f1 >> ...` for the kinds in the schema; None where reading throws. */
  function Decode(schema: seq<Kind>, s: seq<byte>): (r: Option<(seq<Field>, seq<byte>)>)
    ensures r.Some? ==> Conforms(r.value.0, schema)
  {
    if schema == [] then Some(([], s))
    else
      match DecodeField(schema[0], s)
      case None => None
      case Some((f, rest)) =>
        FieldSound(schema[0], s);
        match Decode(schema[1..], rest)
        case None => None
        case Some((fs, rest')) => Some(([f] + fs, rest'))
  }

  /** Encoded fields read back as themselves, and the reader stops exactly at their end. */
  lemma {:induction false} DecodeEncode(fs: seq<Field>, schema: seq<Kind>, rest: seq<byte>)
    requires Conforms(fs, schema) && AllEncodable(fs)
    ensures Decode(schema, Encode(fs) + rest) == Some((fs, rest))
  {
    if fs != [] {
      assert Encode(fs) + rest == EncodeField(fs[0]) + (Encode(fs[1..]) + rest);
      FieldRoundTrip(fs[0], Encode(fs[1..]) + rest);
      DecodeEncode(fs[1..], schema[1..], rest);
      assert [fs[0]] + fs[1..] == fs;
    } else {
      assert Encode(fs) + rest == rest;
    }
  }

  /** Whatever reads successfully is the encoding of the fields read, followed by the unread rest. */
  lemma {:induction false} EncodeDecode(schema: seq<Kind>, s: seq<byte>)
    ensures Decode(schema, s).Some? ==>
      var (fs, rest) := Decode(schema, s).value;
      AllEncodable(fs) && s == Encode(fs) + rest
  {
    if schema != [] && Decode(schema, s).Some? {
      FieldSound(schema[0], s);
      var (f, r) := DecodeField(schema[0], s).value;
      EncodeDecode(schema[1..], r);
      var (fs, rest) := Decode(schema[1..], r).value;
      var all := [f] + fs;
      assert all[0] == f && all[1..] == fs;
      assert s == Encode(all) + rest;
    }
  }

  /** Two field streams of the same shape encode alike only if they are the same. */
  lemma EncodeInjective(fs: seq<Field>, gs: seq<Field>, schema: seq<Kind>)
    requires Conforms(fs, schema) && Conforms(gs, schema)
    requires AllEncodable(fs) && AllEncodable(gs)
    ensures Encode(fs) == Encode(gs) <==> fs == gs
  {
    if Encode(fs) == Encode(gs) {
      DecodeEncode(fs, schema, []);
      DecodeEncode(gs, schema, []);
      assert Encode(fs) + [] == Encode(gs) + [];
    }
  }
}
