/**
 * The two attestations of a certificate and their checks. The subject signs
 * the bytes of the hex text of GetSubjectHash into SubjectSignature; the
 * issuer signs the bytes of the hex text of GetIssuerHash into SignatureValue.
 * Each check rebuilds the same message and verifies the stored signature
 * against it. Ed25519 is a parameter: a signing function, a verifying function
 * and the relation between a public and a private key.
 */
module Signatures {
  import opened Primitives
  import opened Stream
  import opened Hex
  import opened Record
  import opened HashDomains

  /** An Ed25519 signature: the 64-byte buffer the signer fills. */
  type Signature = s: CharString | |s| == 64 witness seq(64, _ => 0)

  /**
   * ed25519_sign(message, public key, private key) and
   * ed25519_verify(signature, message, public key).
   */
  datatype SignatureScheme = SignatureScheme(
    sign: (CharString, CharString, CharString) -> Signature,
    verify: (CharString, CharString, CharString) -> bool,
    keyPair: (CharString, CharString) -> bool)

  /** What any correct signature scheme promises: a signature made with a key pair verifies under its public key. */
  ghost predicate Correct(scheme: SignatureScheme) {
    forall m: CharString, pub: CharString, priv: CharString ::
      scheme.keyPair(pub, priv) ==> scheme.verify(scheme.sign(m, pub, priv), m, pub)
  }

  /** The message SignSubject signs and CheckSubjectSignature verifies. */
  function SubjectMessage(c: CertificateRecord, hash: HashFn): (m: CharString)
    ensures |m| == 64
  {
    HashText(GetSubjectHash(c, hash))
  }

  /** The message SignIssuer signs and CheckIssuerSignature verifies. */
  function IssuerMessage(c: CertificateRecord, hash: HashFn): (m: CharString)
    ensures |m| == 64
  {
    HashText(GetIssuerHash(c, hash))
  }

  /** CCertificate::CheckSubjectSignature. */
  function CheckSubjectSignature(c: CertificateRecord, pub: CharString, scheme: SignatureScheme, hash: HashFn): bool {
    scheme.verify(c.SubjectSignature, SubjectMessage(c, hash), pub)
  }

  /** CCertificate::CheckIssuerSignature. */
  function CheckIssuerSignature(c: CertificateRecord, pub: CharString, scheme: SignatureScheme, hash: HashFn): bool {
    scheme.verify(c.SignatureValue, IssuerMessage(c, hash), pub)
  }

  /**
   * The record after SignSubject: a 64-byte signature of the subject message
   * in SubjectSignature, every other member as it was, so the subject message
   * itself is unchanged.
   */
  function SubjectSigned(c: CertificateRecord, pub: CharString, priv: CharString, scheme: SignatureScheme, hash: HashFn): (d: CertificateRecord)
    ensures |d.SubjectSignature| == 64
    ensures d.SubjectSignature == scheme.sign(SubjectMessage(c, hash), pub, priv)
    ensures d.(SubjectSignature := c.SubjectSignature) == c
    ensures SameSubjectDomain(c, d) && SubjectMessage(d, hash) == SubjectMessage(c, hash)
  {
    var d := c.(SubjectSignature := scheme.sign(SubjectMessage(c, hash), pub, priv));
    SubjectHashIgnoresOtherMembers(c, d, hash);
    d
  }

  /**
   * The record after SignIssuer: a 64-byte signature of the issuer message in
   * SignatureValue, every other member as it was, so the issuer message itself
   * is unchanged.
   */
  function IssuerSigned(c: CertificateRecord, pub: CharString, priv: CharString, scheme: SignatureScheme, hash: HashFn): (d: CertificateRecord)
    ensures |d.SignatureValue| == 64
    ensures d.SignatureValue == scheme.sign(IssuerMessage(c, hash), pub, priv)
    ensures d.(SignatureValue := c.SignatureValue) == c
    ensures SameIssuerDomain(c, d) && IssuerMessage(d, hash) == IssuerMessage(c, hash)
  {
    var d := c.(SignatureValue := scheme.sign(IssuerMessage(c, hash), pub, priv));
    IssuerHashIgnoresOtherMembers(c, d, hash);
    d
  }

  /** Check after sign: a subject signature made with a key pair checks under its public key. */
  lemma SubjectSignThenCheck(c: CertificateRecord, pub: CharString, priv: CharString, scheme: SignatureScheme, hash: HashFn)
    requires Correct(scheme) && scheme.keyPair(pub, priv)
    ensures CheckSubjectSignature(SubjectSigned(c, pub, priv, scheme, hash), pub, scheme, hash)
  {
    var m := SubjectMessage(c, hash);
    assert scheme.verify(scheme.sign(m, pub, priv), m, pub);
  }

  /** Check after sign: an issuer signature made with a key pair checks under its public key. */
  lemma IssuerSignThenCheck(c: CertificateRecord, pub: CharString, priv: CharString, scheme: SignatureScheme, hash: HashFn)
    requires Correct(scheme) && scheme.keyPair(pub, priv)
    ensures CheckIssuerSignature(IssuerSigned(c, pub, priv, scheme, hash), pub, scheme, hash)
  {
    var m := IssuerMessage(c, hash);
    assert scheme.verify(scheme.sign(m, pub, priv), m, pub);
  }

  /** The issuer's signing leaves the subject check exactly as it was, for every key. */
  lemma IssuerSigningKeepsSubjectCheck(c: CertificateRecord, pub: CharString, priv: CharString, key: CharString, scheme: SignatureScheme, hash: HashFn)
    ensures CheckSubjectSignature(IssuerSigned(c, pub, priv, scheme, hash), key, scheme, hash) == CheckSubjectSignature(c, key, scheme, hash)
  {
    var d := IssuerSigned(c, pub, priv, scheme, hash);
    assert SameSubjectDomain(c, d) by {
      assert d.(SignatureValue := c.SignatureValue) == c;
    }
    SubjectHashIgnoresOtherMembers(c, d, hash);
  }

  /**
   * The issuer's message covers the subject's signature: signing the subject
   * with a new signature changes the stream the issuer signs.
   */
  lemma SubjectSigningMovesIssuerPreimage(c: CertificateRecord, pub: CharString, priv: CharString, scheme: SignatureScheme, hash: HashFn)
    requires Encodable(c)
    requires scheme.sign(SubjectMessage(c, hash), pub, priv) != c.SubjectSignature
    ensures IssuerPreimage(SubjectSigned(c, pub, priv, scheme, hash)) != IssuerPreimage(c)
  {
    var d := SubjectSigned(c, pub, priv, scheme, hash);
    IssuerPreimageExact(c, d);
  }

  /**
   * The whole issuance: the subject signs, then the issuer signs; both checks
   * then pass under the two public keys.
   */
  lemma IssuanceChecks(c: CertificateRecord, subjectPub: CharString, subjectPriv: CharString,
                       issuerPub: CharString, issuerPriv: CharString, scheme: SignatureScheme, hash: HashFn)
    requires Correct(scheme)
    requires scheme.keyPair(subjectPub, subjectPriv) && scheme.keyPair(issuerPub, issuerPriv)
    ensures var d := IssuerSigned(SubjectSigned(c, subjectPub, subjectPriv, scheme, hash), issuerPub, issuerPriv, scheme, hash);
      CheckSubjectSignature(d, subjectPub, scheme, hash) && CheckIssuerSignature(d, issuerPub, scheme, hash)
  {
    var s := SubjectSigned(c, subjectPub, subjectPriv, scheme, hash);
    SubjectSignThenCheck(c, subjectPub, subjectPriv, scheme, hash);
    IssuerSigningKeepsSubjectCheck(s, issuerPub, issuerPriv, subjectPub, scheme, hash);
    IssuerSignThenCheck(s, issuerPub, issuerPriv, scheme, hash);
  }

  /**
   * A subject signature checks for every record with the same subject domain:
   * the issuer, its key, its signature, the validity and the linkage are not
   * what the subject attests.
   */
  lemma SubjectCheckIgnoresOtherMembers(c: CertificateRecord, d: CertificateRecord, pub: CharString, scheme: SignatureScheme, hash: HashFn)
    requires SameSubjectDomain(c, d) && c.SubjectSignature == d.SubjectSignature
    ensures CheckSubjectSignature(c, pub, scheme, hash) == CheckSubjectSignature(d, pub, scheme, hash)
  {
    SubjectHashIgnoresOtherMembers(c, d, hash);
  }
}
