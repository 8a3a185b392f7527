/**
 * The certificate record (CCertificate's data members) as a value, its null
 * state, and its full serialization: the record written to the stream field by
 * field (`ds << *this`) and read back (`ds >> *this`).
 *
 * The field order of the stream is declared in certificate.h, which is not part
 * of this model; the order below (version, validity, the byte strings, the
 * serial number, the seven extension lists, then the ledger linkage) is an
 * assumed one. Every property proved here holds for any fixed order.
 */
module Record {
  import opened Primitives
  import opened Stream

  const CURRENT_VERSION: int32 := 1

  datatype CertificateRecord = CertificateRecord(
    Version: int32,
    MonthsValid: uint32,
    FingerPrint: CharString,
    SignatureAlgorithm: CharString,
    SignatureHashAlgorithm: CharString,
    Subject: CharString,
    SubjectSignature: CharString,
    Issuer: CharString,
    PublicKey: CharString,
    SignatureValue: CharString,
    SerialNumber: uint64,
    KeyUsage: seq<CharString>,
    ExtendedKeyUsage: seq<CharString>,
    AuthorityInformationAccess: seq<CharString>,
    SubjectAlternativeName: seq<CharString>,
    Policies: seq<CharString>,
    CRLDistributionPoints: seq<CharString>,
    SCTList: seq<CharString>,
    HeightRequest: uint32,
    HeightApprove: uint32,
    TxHashRequest: Uint256,
    TxHashApprove: Uint256)

  /** The all-zero uint256 (SetNull of a hash). */
  const ZeroHash: Uint256 := [0, 0, 0, 0, 0, 0, 0, 0, 0, 0, 0, 0, 0, 0, 0, 0, 0, 0, 0, 0, 0, 0, 0, 0, 0, 0, 0, 0, 0, 0, 0, 0]

  /** The state SetNull leaves: current version, every field empty or zero. */
  const Null: CertificateRecord := CertificateRecord(
    CURRENT_VERSION, 0, [], [], [], [], [], [], [], [], 0,
    [], [], [], [], [], [], [],
    0, 0, ZeroHash, ZeroHash)

  /** An approval transaction has been observed (a non-zero approval height). */
  predicate IsApproved(c: CertificateRecord) {
    c.HeightApprove != 0
  }

  /** Every length and count is one ReadCompactSize accepts back. */
  predicate Encodable(c: CertificateRecord) {
    && |c.FingerPrint| <= MAX_SIZE
    && |c.SignatureAlgorithm| <= MAX_SIZE
    && |c.SignatureHashAlgorithm| <= MAX_SIZE
    && |c.Subject| <= MAX_SIZE
    && |c.SubjectSignature| <= MAX_SIZE
    && |c.Issuer| <= MAX_SIZE
    && |c.PublicKey| <= MAX_SIZE
    && |c.SignatureValue| <= MAX_SIZE
    && FieldEncodable(CharsList(c.KeyUsage))
    && FieldEncodable(CharsList(c.ExtendedKeyUsage))
    && FieldEncodable(CharsList(c.AuthorityInformationAccess))
    && FieldEncodable(CharsList(c.SubjectAlternativeName))
    && FieldEncodable(CharsList(c.Policies))
    && FieldEncodable(CharsList(c.CRLDistributionPoints))
    && FieldEncodable(CharsList(c.SCTList))
  }

  /** The members in stream order. */
  function Fields(c: CertificateRecord): seq<Field> {
    [ Int32(c.Version), UInt32(c.MonthsValid), Chars(c.FingerPrint),
      Chars(c.SignatureAlgorithm), Chars(c.SignatureHashAlgorithm),
      Chars(c.Subject), Chars(c.SubjectSignature), Chars(c.Issuer), Chars(c.PublicKey),
      Chars(c.SignatureValue), UInt64(c.SerialNumber),
      CharsList(c.KeyUsage), CharsList(c.ExtendedKeyUsage), CharsList(c.AuthorityInformationAccess),
      CharsList(c.SubjectAlternativeName), CharsList(c.Policies), CharsList(c.CRLDistributionPoints),
      CharsList(c.SCTList),
      UInt32(c.HeightRequest), UInt32(c.HeightApprove), Hash256(c.TxHashRequest), Hash256(c.TxHashApprove) ]
  }

  const RecordSchema: seq<Kind> :=
    [ Int32Kind, UInt32Kind, CharsKind,
      CharsKind, CharsKind,
      CharsKind, CharsKind, CharsKind, CharsKind,
      CharsKind, UInt64Kind,
      CharsListKind, CharsListKind, CharsListKind,
      CharsListKind, CharsListKind, CharsListKind,
      CharsListKind,
      UInt32Kind, UInt32Kind, Uint256Kind, Uint256Kind ]

  /** A field stream with the record's shape, field by field. */
  predicate RecordShaped(fs: seq<Field>) {
    && |fs| == 22
    && fs[0].Int32?
    && fs[1].UInt32?
    && fs[2].Chars?
    && fs[3].Chars?
    && fs[4].Chars?
    && fs[5].Chars?
    && fs[6].Chars?
    && fs[7].Chars?
    && fs[8].Chars?
    && fs[9].Chars?
    && fs[10].UInt64?
    && fs[11].CharsList?
    && fs[12].CharsList?
    && fs[13].CharsList?
    && fs[14].CharsList?
    && fs[15].CharsList?
    && fs[16].CharsList?
    && fs[17].CharsList?
    && fs[18].UInt32?
    && fs[19].UInt32?
    && fs[20].Hash256?
    && fs[21].Hash256?
  }

  /** The record a field stream of the record's shape describes. */
  function FromFields(fs: seq<Field>): CertificateRecord
    requires RecordShaped(fs)
  {
    CertificateRecord(fs[0].i, fs[1].u, fs[2].b, fs[3].b, fs[4].b, fs[5].b, fs[6].b, fs[7].b, fs[8].b, fs[9].b, fs[10].w, fs[11].l, fs[12].l, fs[13].l, fs[14].l, fs[15].l, fs[16].l, fs[17].l, fs[18].u, fs[19].u, fs[20].h, fs[21].h)
  }

  /** CCertificate::Serialize: the bytes of `ds << *this`. */
  function Serialize(c: CertificateRecord): seq<byte> {
    Encode(Fields(c))
  }

  /** `ds >> *this` from the start of the payload; None where the stream throws. Unread trailing bytes are ignored. */
  function Deserialize(s: seq<byte>): Option<CertificateRecord> {
    match Decode(RecordSchema, s)
    case None => None
    case Some((fs, _)) =>
      ConformsShaped(fs);
      Some(FromFields(fs))
  }

  lemma FieldsConform(c: CertificateRecord)
    ensures Conforms(Fields(c), RecordSchema)
    ensures FromFields(Fields(c)) == c
  {
  }

  lemma FieldsEncodable(c: CertificateRecord)
    requires Encodable(c)
    ensures AllEncodable(Fields(c))
  {
  }

  lemma Spelled(fs: seq<Field>)
    requires |fs| == 22
    ensures fs == [fs[0], fs[1], fs[2], fs[3], fs[4], fs[5], fs[6], fs[7], fs[8], fs[9], fs[10], fs[11], fs[12], fs[13], fs[14], fs[15], fs[16], fs[17], fs[18], fs[19], fs[20], fs[21]]
  {
  }

  lemma ConformsShaped(fs: seq<Field>)
    requires Conforms(fs, RecordSchema)
    ensures RecordShaped(fs)
  {
    assert KindOf(fs[0]) == RecordSchema[0] && KindOf(fs[1]) == RecordSchema[1] && KindOf(fs[10]) == RecordSchema[10];
    assert forall i | 2 <= i < 10 :: KindOf(fs[i]) == CharsKind;
    assert forall i | 11 <= i < 18 :: KindOf(fs[i]) == CharsListKind;
    assert KindOf(fs[18]) == RecordSchema[18] && KindOf(fs[19]) == RecordSchema[19];
    assert KindOf(fs[20]) == RecordSchema[20] && KindOf(fs[21]) == RecordSchema[21];
  }

  lemma FromFieldsInverse(fs: seq<Field>)
    requires RecordShaped(fs)
    ensures Fields(FromFields(fs)) == fs
  {
    Spelled(fs);
  }

  lemma FromFieldsEncodable(fs: seq<Field>)
    requires RecordShaped(fs) && AllEncodable(fs)
    ensures Encodable(FromFields(fs))
  {
    FromFieldsInverse(fs);
    var c := FromFields(fs);
    assert FieldEncodable(Fields(c)[2]) && FieldEncodable(Fields(c)[3]) && FieldEncodable(Fields(c)[4]);
    assert FieldEncodable(Fields(c)[5]) && FieldEncodable(Fields(c)[6]) && FieldEncodable(Fields(c)[7]);
    assert FieldEncodable(Fields(c)[8]) && FieldEncodable(Fields(c)[9]);
    assert FieldEncodable(Fields(c)[11]) && FieldEncodable(Fields(c)[12]) && FieldEncodable(Fields(c)[13]);
    assert FieldEncodable(Fields(c)[14]) && FieldEncodable(Fields(c)[15]) && FieldEncodable(Fields(c)[16]);
    assert FieldEncodable(Fields(c)[17]);
  }

  /** Reading a serialized record gives the record back, whatever follows it in the payload. */
  lemma SerializeRoundTrip(c: CertificateRecord, rest: seq<byte>)
    requires Encodable(c)
    ensures Deserialize(Serialize(c) + rest) == Some(c)
  {
    FieldsConform(c);
    FieldsEncodable(c);
    DecodeEncode(Fields(c), RecordSchema, rest);
  }

  /** A record read from a payload is one whose serialization starts the payload. */
  lemma DeserializeSound(s: seq<byte>)
    ensures Deserialize(s).Some? ==>
      var c := Deserialize(s).value;
      Encodable(c) && Serialize(c) <= s
  {
    if Deserialize(s).Some? {
      EncodeDecode(RecordSchema, s);
      var (fs, rest) := Decode(RecordSchema, s).value;
      ConformsShaped(fs);
      FromFieldsInverse(fs);
      FromFieldsEncodable(fs);
      assert s == Serialize(FromFields(fs)) + rest;
    }
  }

  /** Serialization loses nothing: distinct records have distinct streams. */
  lemma SerializeInjective(c: CertificateRecord, d: CertificateRecord)
    requires Encodable(c) && Encodable(d)
    ensures Serialize(c) == Serialize(d) <==> c == d
  {
    if Serialize(c) == Serialize(d) {
      SerializeRoundTrip(c, []);
      SerializeRoundTrip(d, []);
      assert Serialize(c) + [] == Serialize(d) + [];
    }
  }
}
