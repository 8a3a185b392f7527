/**
 * The three hash domains of a certificate. Each builds a stream of some of the
 * record's members and hashes it:
 *   GetHash        the whole serialized record;
 *   GetSubjectHash SignatureAlgorithm, SignatureHashAlgorithm, Subject,
 *                  SerialNumber and the seven extension lists;
 *   GetIssuerHash  the same plus MonthsValid, SubjectSignature, Issuer and
 *                  PublicKey, so the issuer's attestation covers the
 *                  subject's signature.
 * The hash itself (double SHA-256) is a parameter: every property below holds
 * for any hash function, and is stated about the hashed stream, since only a
 * collision-free hash would carry "the stream differs" over to the digest.
 */
module HashDomains {
  import opened Primitives
  import opened Stream
  import opened Record

  /** A 256-bit hash of a byte stream (Hash(begin, end)). */
  type HashFn = seq<byte> -> Uint256

  function SubjectFields(c: CertificateRecord): seq<Field> {
    [ Chars(c.SignatureAlgorithm), Chars(c.SignatureHashAlgorithm), Chars(c.Subject), UInt64(c.SerialNumber),
      CharsList(c.KeyUsage), CharsList(c.ExtendedKeyUsage), CharsList(c.AuthorityInformationAccess),
      CharsList(c.SubjectAlternativeName), CharsList(c.Policies), CharsList(c.CRLDistributionPoints),
      CharsList(c.SCTList) ]
  }

  function IssuerFields(c: CertificateRecord): seq<Field> {
    [ Chars(c.SignatureAlgorithm), Chars(c.SignatureHashAlgorithm), UInt32(c.MonthsValid), Chars(c.Subject),
      Chars(c.SubjectSignature), Chars(c.Issuer), Chars(c.PublicKey), UInt64(c.SerialNumber),
      CharsList(c.KeyUsage), CharsList(c.ExtendedKeyUsage), CharsList(c.AuthorityInformationAccess),
      CharsList(c.SubjectAlternativeName), CharsList(c.Policies), CharsList(c.CRLDistributionPoints),
      CharsList(c.SCTList) ]
  }

  const SubjectSchema: seq<Kind> :=
    [ CharsKind, CharsKind, CharsKind, UInt64Kind,
      CharsListKind, CharsListKind, CharsListKind, CharsListKind, CharsListKind, CharsListKind, CharsListKind ]

  const IssuerSchema: seq<Kind> :=
    [ CharsKind, CharsKind, UInt32Kind, CharsKind, CharsKind, CharsKind, CharsKind, UInt64Kind,
      CharsListKind, CharsListKind, CharsListKind, CharsListKind, CharsListKind, CharsListKind, CharsListKind ]

  /** The stream GetSubjectHash hashes. */
  function SubjectPreimage(c: CertificateRecord): seq<byte> {
    Encode(SubjectFields(c))
  }

  /** The stream GetIssuerHash hashes. */
  function IssuerPreimage(c: CertificateRecord): seq<byte> {
    Encode(IssuerFields(c))
  }

  /** CCertificate::GetHash: the same stream Serialize produces. */
  function GetHash(c: CertificateRecord, hash: HashFn): Uint256 {
    hash(Serialize(c))
  }

  function GetSubjectHash(c: CertificateRecord, hash: HashFn): Uint256 {
    hash(SubjectPreimage(c))
  }

  function GetIssuerHash(c: CertificateRecord, hash: HashFn): Uint256 {
    hash(IssuerPreimage(c))
  }

  /** The two records agree on every member of the subject domain. */
  predicate SameSubjectDomain(c: CertificateRecord, d: CertificateRecord) {
    && c.SignatureAlgorithm == d.SignatureAlgorithm
    && c.SignatureHashAlgorithm == d.SignatureHashAlgorithm
    && c.Subject == d.Subject
    && c.SerialNumber == d.SerialNumber
    && SameExtensions(c, d)
  }

  /** The two records agree on every member of the issuer domain. */
  predicate SameIssuerDomain(c: CertificateRecord, d: CertificateRecord) {
    && c.SignatureAlgorithm == d.SignatureAlgorithm
    && c.SignatureHashAlgorithm == d.SignatureHashAlgorithm
    && c.MonthsValid == d.MonthsValid
    && c.Subject == d.Subject
    && c.SubjectSignature == d.SubjectSignature
    && c.Issuer == d.Issuer
    && c.PublicKey == d.PublicKey
    && c.SerialNumber == d.SerialNumber
    && SameExtensions(c, d)
  }

  predicate SameExtensions(c: CertificateRecord, d: CertificateRecord) {
    && c.KeyUsage == d.KeyUsage
    && c.ExtendedKeyUsage == d.ExtendedKeyUsage
    && c.AuthorityInformationAccess == d.AuthorityInformationAccess
    && c.SubjectAlternativeName == d.SubjectAlternativeName
    && c.Policies == d.Policies
    && c.CRLDistributionPoints == d.CRLDistributionPoints
    && c.SCTList == d.SCTList
  }

  lemma SubjectFieldsWellFormed(c: CertificateRecord)
    requires Encodable(c)
    ensures Conforms(SubjectFields(c), SubjectSchema) && AllEncodable(SubjectFields(c))
  {
  }

  lemma IssuerFieldsWellFormed(c: CertificateRecord)
    requires Encodable(c)
    ensures Conforms(IssuerFields(c), IssuerSchema) && AllEncodable(IssuerFields(c))
  {
  }

  /**
   * The subject stream is determined by, and determines, exactly the subject
   * domain: Issuer, PublicKey, SubjectSignature, SignatureValue, MonthsValid,
   * FingerPrint, Version and the ledger linkage do not enter it.
   */
  lemma SubjectPreimageExact(c: CertificateRecord, d: CertificateRecord)
    requires Encodable(c) && Encodable(d)
    ensures SubjectPreimage(c) == SubjectPreimage(d) <==> SameSubjectDomain(c, d)
  {
    SubjectFieldsWellFormed(c);
    SubjectFieldsWellFormed(d);
    EncodeInjective(SubjectFields(c), SubjectFields(d), SubjectSchema);
    if SubjectFields(c) == SubjectFields(d) {
      var fc, fd := SubjectFields(c), SubjectFields(d);
      assert fc[0] == fd[0] && fc[1] == fd[1] && fc[2] == fd[2] && fc[3] == fd[3];
      assert fc[4] == fd[4] && fc[5] == fd[5] && fc[6] == fd[6] && fc[7] == fd[7];
      assert fc[8] == fd[8] && fc[9] == fd[9] && fc[10] == fd[10];
    }
  }

  /**
   * The issuer stream is determined by, and determines, exactly the issuer
   * domain: only SignatureValue, FingerPrint, Version and the ledger linkage
   * stay outside it.
   */
  lemma IssuerPreimageExact(c: CertificateRecord, d: CertificateRecord)
    requires Encodable(c) && Encodable(d)
    ensures IssuerPreimage(c) == IssuerPreimage(d) <==> SameIssuerDomain(c, d)
  {
    IssuerFieldsWellFormed(c);
    IssuerFieldsWellFormed(d);
    EncodeInjective(IssuerFields(c), IssuerFields(d), IssuerSchema);
    if IssuerFields(c) == IssuerFields(d) {
      IssuerFieldsAgree(c, d);
    }
  }

  lemma IssuerFieldsAgree(c: CertificateRecord, d: CertificateRecord)
    requires IssuerFields(c) == IssuerFields(d)
    ensures SameIssuerDomain(c, d)
  {
    var fc, fd := IssuerFields(c), IssuerFields(d);
    assert fc[0] == fd[0] && fc[1] == fd[1] && fc[2] == fd[2] && fc[3] == fd[3] && fc[4] == fd[4];
    assert fc[5] == fd[5] && fc[6] == fd[6] && fc[7] == fd[7] && fc[8] == fd[8] && fc[9] == fd[9];
    assert fc[10] == fd[10] && fc[11] == fd[11] && fc[12] == fd[12] && fc[13] == fd[13] && fc[14] == fd[14];
  }

  /** Subject-domain digests ignore every member outside the domain, for any hash. */
  lemma SubjectHashIgnoresOtherMembers(c: CertificateRecord, d: CertificateRecord, hash: HashFn)
    requires SameSubjectDomain(c, d)
    ensures GetSubjectHash(c, hash) == GetSubjectHash(d, hash)
  {
    assert SubjectFields(c) == SubjectFields(d);
  }

  /** Issuer-domain digests ignore SignatureValue, FingerPrint, Version and the linkage, for any hash. */
  lemma IssuerHashIgnoresOtherMembers(c: CertificateRecord, d: CertificateRecord, hash: HashFn)
    requires SameIssuerDomain(c, d)
    ensures GetIssuerHash(c, hash) == GetIssuerHash(d, hash)
  {
    assert IssuerFields(c) == IssuerFields(d);
  }

  /**
   * The issuer stream chains the subject's attestation: equal issuer streams
   * mean equal subject streams and the same subject signature.
   */
  lemma IssuerPreimageChainsSubject(c: CertificateRecord, d: CertificateRecord)
    requires Encodable(c) && Encodable(d)
    requires IssuerPreimage(c) == IssuerPreimage(d)
    ensures SubjectPreimage(c) == SubjectPreimage(d)
    ensures c.SubjectSignature == d.SubjectSignature
  {
    IssuerPreimageExact(c, d);
    SubjectPreimageExact(c, d);
  }

  /** Changing the subject changes what both attestations cover. */
  lemma SubjectEntersBothDomains(c: CertificateRecord, d: CertificateRecord)
    requires Encodable(c) && Encodable(d)
    requires c.Subject != d.Subject
    ensures SubjectPreimage(c) != SubjectPreimage(d)
    ensures IssuerPreimage(c) != IssuerPreimage(d)
  {
    SubjectPreimageExact(c, d);
    IssuerPreimageExact(c, d);
  }

  /** Changing the issuer or the public key changes the issuer stream but never the subject stream. */
  lemma IssuerAndKeyEnterOnlyIssuerDomain(c: CertificateRecord, issuer: CharString, key: CharString)
    requires Encodable(c) && |issuer| <= MAX_SIZE && |key| <= MAX_SIZE
    requires issuer != c.Issuer || key != c.PublicKey
    ensures SubjectPreimage(c.(Issuer := issuer, PublicKey := key)) == SubjectPreimage(c)
    ensures IssuerPreimage(c.(Issuer := issuer, PublicKey := key)) != IssuerPreimage(c)
  {
    var d := c.(Issuer := issuer, PublicKey := key);
    assert SubjectFields(d) == SubjectFields(c);
    IssuerPreimageExact(c, d);
  }
}
