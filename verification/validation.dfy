/**
 * ValidateValues: the field checks a certificate must pass before it is
 * accepted. The checks run in a fixed order and the first one that fails
 * decides the message; when none fails the record is valid.
 *
 * The order, as the source runs them: Subject, SubjectSignature and PublicKey
 * must be non-empty; then the eight byte strings are checked against their
 * maximum lengths; then each of the seven extension lists is checked for its
 * record count and, element by element, for its element length.
 *
 * The MAX_* constants are declared in bdap.h, which is not part of this model,
 * so they are a parameter (Limits).
 */
module Validation {
  import opened Primitives
  import opened Stream
  import opened Record

  /** MAX_ALGORITHM_TYPE_LENGTH, MAX_CERTIFICATE_FINGERPRINT, MAX_OBJECT_FULL_PATH_LENGTH,
      MAX_CERTIFICATE_SIGNATURE_LENGTH, MAX_CERTIFICATE_KEY_LENGTH,
      MAX_CERTIFICATE_EXTENSION_RECORDS and MAX_CERTIFICATE_EXTENSION_LENGTH. */
  datatype Limits = Limits(
    algorithmType: nat,
    fingerprint: nat,
    fullPath: nat,
    signature: nat,
    key: nat,
    extensionRecords: nat,
    extensionLength: nat)

  /** The verdict: true, or false with the error message. */
  datatype Verdict = Valid | Invalid(message: string)

  /** Which check failed. */
  datatype Failure =
    | SubjectEmpty
    | SubjectSignatureEmpty
    | PublicKeyEmpty
    | TooLong(field: BoundedField)
    | TooManyRecords(ext: Extension)
    | RecordTooLong(ext: Extension)

  /** The error message the source writes for each failed check. */
  function Message(fl: Failure, lim: Limits): string {
    match fl
    case SubjectEmpty => "Subject cannot be empty."
    case SubjectSignatureEmpty => "Subject Signature cannot be empty."
    case PublicKeyEmpty => "Public Key cannot be empty."
    case TooLong(f) => FieldMessage(f, lim)
    case TooManyRecords(e) => TooManyMessage(ExtensionName(e), lim.extensionRecords)
    case RecordTooLong(e) => TooLongMessage(ExtensionName(e), lim.extensionLength)
  }

  function TooLongMessage(name: string, limit: nat): string {
    "Invalid " + name + ". Can not have more than " + NatToString(limit) + " characters."
  }

  function TooManyMessage(name: string, limit: nat): string {
    "Invalid " + name + " size. Can not have more than " + NatToString(limit) + " records."
  }

  /** One check: whether it passes, and what failed when it does not. */
  datatype Check = Check(ok: bool, failure: Failure)

  /** Every check of ValidateValues, in the order the source makes them. */
  function Checks(c: CertificateRecord, lim: Limits): (cs: seq<Check>)
    ensures |cs| == 25
  {
    [ Check(|c.Subject| != 0, SubjectEmpty),
      Check(|c.SubjectSignature| != 0, SubjectSignatureEmpty),
      Check(|c.PublicKey| != 0, PublicKeyEmpty),
      Check(|c.SignatureAlgorithm| <= lim.algorithmType, TooLong(SignatureAlgorithmField)),
      Check(|c.SignatureHashAlgorithm| <= lim.algorithmType, TooLong(SignatureHashAlgorithmField)),
      Check(|c.FingerPrint| <= lim.fingerprint, TooLong(FingerPrintField)),
      Check(|c.Subject| <= lim.fullPath, TooLong(SubjectField)),
      Check(|c.SubjectSignature| <= lim.signature, TooLong(SubjectSignatureField)),
      Check(|c.Issuer| <= lim.fullPath, TooLong(IssuerField)),
      Check(|c.PublicKey| <= lim.key, TooLong(PublicKeyField)),
      Check(|c.SignatureValue| <= lim.signature, TooLong(SignatureValueField)),
      Check(|c.KeyUsage| <= lim.extensionRecords, TooManyRecords(KeyUsageExtension)),
      Check(ElementsWithin(c.KeyUsage, lim.extensionLength), RecordTooLong(KeyUsageExtension)),
      Check(|c.ExtendedKeyUsage| <= lim.extensionRecords, TooManyRecords(ExtendedKeyUsageExtension)),
      Check(ElementsWithin(c.ExtendedKeyUsage, lim.extensionLength), RecordTooLong(ExtendedKeyUsageExtension)),
      Check(|c.AuthorityInformationAccess| <= lim.extensionRecords, TooManyRecords(AuthorityInformationAccessExtension)),
      Check(ElementsWithin(c.AuthorityInformationAccess, lim.extensionLength), RecordTooLong(AuthorityInformationAccessExtension)),
      Check(|c.SubjectAlternativeName| <= lim.extensionRecords, TooManyRecords(SubjectAlternativeNameExtension)),
      Check(ElementsWithin(c.SubjectAlternativeName, lim.extensionLength), RecordTooLong(SubjectAlternativeNameExtension)),
      Check(|c.Policies| <= lim.extensionRecords, TooManyRecords(PoliciesExtension)),
      Check(ElementsWithin(c.Policies, lim.extensionLength), RecordTooLong(PoliciesExtension)),
      Check(|c.CRLDistributionPoints| <= lim.extensionRecords, TooManyRecords(CRLDistributionPointsExtension)),
      Check(ElementsWithin(c.CRLDistributionPoints, lim.extensionLength), RecordTooLong(CRLDistributionPointsExtension)),
      Check(|c.SCTList| <= lim.extensionRecords, TooManyRecords(SCTListExtension)),
      Check(ElementsWithin(c.SCTList, lim.extensionLength), RecordTooLong(SCTListExtension)) ]
  }

  /** The position of the first failing check, or |cs| when every check passes. */
  function FirstFailingIndex(cs: seq<Check>): (k: nat)
    ensures k <= |cs|
    ensures forall j :: 0 <= j < k ==> cs[j].ok
    ensures k < |cs| ==> !cs[k].ok
  {
    if cs == [] then 0
    else if !cs[0].ok then 0
    else 1 + FirstFailingIndex(cs[1..])
  }

  /** Run the checks in order: the first failing one decides. */
  function FirstFailure(cs: seq<Check>): (r: Option<Failure>)
    ensures r.None? <==> forall j :: 0 <= j < |cs| ==> cs[j].ok
    ensures r.Some? ==> exists k :: 0 <= k < |cs| && !cs[k].ok && cs[k].failure == r.value
  {
    var k := FirstFailingIndex(cs);
    if k == |cs| then None else Some(cs[k].failure)
  }

  /** CCertificate::ValidateValues: true, or false with the first failing check's message. */
  function ValidateValues(c: CertificateRecord, lim: Limits): Verdict {
    match FirstFailure(Checks(c, lim))
    case None => Valid
    case Some(fl) => Invalid(Message(fl, lim))
  }

  /** The same conditions written as one conjunction, without the order. */
  predicate WithinBounds(c: CertificateRecord, lim: Limits) {
    && |c.Subject| != 0 && |c.SubjectSignature| != 0 && |c.PublicKey| != 0
    && |c.SignatureAlgorithm| <= lim.algorithmType
    && |c.SignatureHashAlgorithm| <= lim.algorithmType
    && |c.FingerPrint| <= lim.fingerprint
    && |c.Subject| <= lim.fullPath
    && |c.SubjectSignature| <= lim.signature
    && |c.Issuer| <= lim.fullPath
    && |c.PublicKey| <= lim.key
    && |c.SignatureValue| <= lim.signature
    && ExtensionWithin(c.KeyUsage, lim)
    && ExtensionWithin(c.ExtendedKeyUsage, lim)
    && ExtensionWithin(c.AuthorityInformationAccess, lim)
    && ExtensionWithin(c.SubjectAlternativeName, lim)
    && ExtensionWithin(c.Policies, lim)
    && ExtensionWithin(c.CRLDistributionPoints, lim)
    && ExtensionWithin(c.SCTList, lim)
  }

  /** An extension list within its record count, each record within its length. */
  predicate ExtensionWithin(l: seq<CharString>, lim: Limits) {
    |l| <= lim.extensionRecords && ElementsWithin(l, lim.extensionLength)
  }

  /** The first failing check decides: a failure at k after passes before it is what is reported. */
  lemma FirstFailingAt(cs: seq<Check>, k: nat)
    requires k < |cs| && !cs[k].ok
    requires forall j :: 0 <= j < k ==> cs[j].ok
    ensures FirstFailure(cs) == Some(cs[k].failure)
  {
    var i := FirstFailingIndex(cs);
    assert !(i < k) && !(k < i);
  }

  lemma WithinBoundsPasses(c: CertificateRecord, lim: Limits)
    requires WithinBounds(c, lim)
    ensures forall j :: 0 <= j < 25 ==> Checks(c, lim)[j].ok
  {
  }

  lemma PassesWithinBounds(c: CertificateRecord, lim: Limits)
    requires forall j :: 0 <= j < 25 ==> Checks(c, lim)[j].ok
    ensures WithinBounds(c, lim)
  {
    var cs := Checks(c, lim);
    assert cs[0].ok && cs[1].ok && cs[2].ok && cs[3].ok && cs[4].ok && cs[5].ok;
    assert cs[6].ok && cs[7].ok && cs[8].ok && cs[9].ok && cs[10].ok;
    assert cs[11].ok && cs[12].ok && cs[13].ok && cs[14].ok && cs[15].ok && cs[16].ok && cs[17].ok;
    assert cs[18].ok && cs[19].ok && cs[20].ok && cs[21].ok && cs[22].ok && cs[23].ok && cs[24].ok;
  }

  /** ValidateValues returns true exactly when every condition holds. */
  lemma ValidIffWithinBounds(c: CertificateRecord, lim: Limits)
    ensures ValidateValues(c, lim).Valid? <==> WithinBounds(c, lim)
  {
    if WithinBounds(c, lim) {
      WithinBoundsPasses(c, lim);
    }
    if ValidateValues(c, lim).Valid? {
      PassesWithinBounds(c, lim);
    }
  }

  /**
   * The three emptiness checks come first, in the order Subject,
   * SubjectSignature, PublicKey, and win over every length check.
   */
  lemma EmptinessChecksFirst(c: CertificateRecord, lim: Limits)
    ensures |c.Subject| == 0 ==> ValidateValues(c, lim) == Invalid("Subject cannot be empty.")
    ensures |c.Subject| != 0 && |c.SubjectSignature| == 0 ==> ValidateValues(c, lim) == Invalid("Subject Signature cannot be empty.")
    ensures |c.Subject| != 0 && |c.SubjectSignature| != 0 && |c.PublicKey| == 0 ==> ValidateValues(c, lim) == Invalid("Public Key cannot be empty.")
  {
    PresenceStage(c, lim);
  }

  /** The eight byte strings with a maximum length. */
  datatype BoundedField =
    | SignatureAlgorithmField
    | SignatureHashAlgorithmField
    | FingerPrintField
    | SubjectField
    | SubjectSignatureField
    | IssuerField
    | PublicKeyField
    | SignatureValueField

  function FieldValue(c: CertificateRecord, f: BoundedField): CharString {
    match f
    case SignatureAlgorithmField => c.SignatureAlgorithm
    case SignatureHashAlgorithmField => c.SignatureHashAlgorithm
    case FingerPrintField => c.FingerPrint
    case SubjectField => c.Subject
    case SubjectSignatureField => c.SubjectSignature
    case IssuerField => c.Issuer
    case PublicKeyField => c.PublicKey
    case SignatureValueField => c.SignatureValue
  }

  /** The record with one bounded field replaced. */
  function WithField(c: CertificateRecord, f: BoundedField, v: CharString): (d: CertificateRecord)
    ensures FieldValue(d, f) == v
  {
    match f
    case SignatureAlgorithmField => c.(SignatureAlgorithm := v)
    case SignatureHashAlgorithmField => c.(SignatureHashAlgorithm := v)
    case FingerPrintField => c.(FingerPrint := v)
    case SubjectField => c.(Subject := v)
    case SubjectSignatureField => c.(SubjectSignature := v)
    case IssuerField => c.(Issuer := v)
    case PublicKeyField => c.(PublicKey := v)
    case SignatureValueField => c.(SignatureValue := v)
  }

  function FieldLimit(f: BoundedField, lim: Limits): nat {
    match f
    case SignatureAlgorithmField => lim.algorithmType
    case SignatureHashAlgorithmField => lim.algorithmType
    case FingerPrintField => lim.fingerprint
    case SubjectField => lim.fullPath
    case SubjectSignatureField => lim.signature
    case IssuerField => lim.fullPath
    case PublicKeyField => lim.key
    case SignatureValueField => lim.signature
  }

  /** The message of the field's length check. */
  function FieldMessage(f: BoundedField, lim: Limits): string {
    match f
    case SignatureAlgorithmField => TooLongMessage("Signature Algorithm", lim.algorithmType)
    case SignatureHashAlgorithmField => TooLongMessage("Signature Hash Algorithm", lim.algorithmType)
    case FingerPrintField => TooLongMessage("Finger Print", lim.fingerprint)
    case SubjectField => TooLongMessage("Subject full path name", lim.fullPath)
    case SubjectSignatureField => TooLongMessage("SubjectSignature", lim.signature)
    case IssuerField => TooLongMessage("Issuer full path name", lim.fullPath)
    case PublicKeyField => TooLongMessage("PublicKey", lim.key)
    case SignatureValueField => TooLongMessage("SignatureValue", lim.signature)
  }

  /** The fields that must also be non-empty. */
  predicate Required(f: BoundedField) {
    f.SubjectField? || f.SubjectSignatureField? || f.PublicKeyField?
  }

  /** Where the field's length check sits among the checks. */
  function FieldRuleIndex(f: BoundedField): (k: nat)
    ensures 3 <= k < 11
  {
    match f
    case SignatureAlgorithmField => 3
    case SignatureHashAlgorithmField => 4
    case FingerPrintField => 5
    case SubjectField => 6
    case SubjectSignatureField => 7
    case IssuerField => 8
    case PublicKeyField => 9
    case SignatureValueField => 10
  }

  /** A failure at k in an otherwise passing run of checks is what is reported. */
  lemma FirstFailureUpdate(cs: seq<Check>, k: nat, x: Check)
    requires forall j :: 0 <= j < |cs| ==> cs[j].ok
    requires k < |cs| && !x.ok
    ensures FirstFailure(cs[k := x]) == Some(x.failure)
  {
    FirstFailingAt(cs[k := x], k);
  }

  /** Over-filling one bounded field of a valid record fails exactly that field's length check. */
  lemma ChecksWithField(c: CertificateRecord, f: BoundedField, v: CharString, lim: Limits)
    requires WithinBounds(c, lim)
    requires v != [] && |v| > FieldLimit(f, lim)
    ensures var cs, k := Checks(WithField(c, f, v), lim), FieldRuleIndex(f);
      cs[k] == Check(false, TooLong(f)) && forall j :: 0 <= j < k ==> cs[j].ok
  {
    match f
    case SignatureAlgorithmField =>
    case SignatureHashAlgorithmField =>
    case FingerPrintField =>
    case SubjectField =>
    case SubjectSignatureField =>
    case IssuerField =>
    case PublicKeyField =>
    case SignatureValueField =>
  }

  /**
   * Starting from a valid record, replacing one bounded field (by a non-empty
   * value where the field is required) leaves the record valid exactly when
   * the new value is within the field's maximum, and otherwise fails with that
   * field's message.
   */
  lemma FieldVerdict(c: CertificateRecord, f: BoundedField, v: CharString, lim: Limits)
    requires ValidateValues(c, lim).Valid?
    requires Required(f) ==> v != []
    ensures ValidateValues(WithField(c, f, v), lim) ==
      if |v| <= FieldLimit(f, lim) then Valid else Invalid(FieldMessage(f, lim))
  {
    var d := WithField(c, f, v);
    ValidIffWithinBounds(c, lim);
    ValidIffWithinBounds(d, lim);
    if |v| > FieldLimit(f, lim) {
      ChecksWithField(c, f, v, lim);
      FirstFailingAt(Checks(d, lim), FieldRuleIndex(f));
    }
  }

  /** The boundary of every bounded field: its maximum passes, one more fails with its message. */
  lemma FieldBoundary(c: CertificateRecord, f: BoundedField, v: CharString, w: CharString, lim: Limits)
    requires ValidateValues(c, lim).Valid?
    requires |v| == FieldLimit(f, lim) && (Required(f) ==> v != [])
    requires |w| == FieldLimit(f, lim) + 1
    ensures ValidateValues(WithField(c, f, v), lim) == Valid
    ensures ValidateValues(WithField(c, f, w), lim) == Invalid(FieldMessage(f, lim))
  {
    FieldVerdict(c, f, v, lim);
    FieldVerdict(c, f, w, lim);
  }

  /** The seven extension lists. */
  datatype Extension =
    | KeyUsageExtension
    | ExtendedKeyUsageExtension
    | AuthorityInformationAccessExtension
    | SubjectAlternativeNameExtension
    | PoliciesExtension
    | CRLDistributionPointsExtension
    | SCTListExtension

  function ExtensionValue(c: CertificateRecord, e: Extension): seq<CharString> {
    match e
    case KeyUsageExtension => c.KeyUsage
    case ExtendedKeyUsageExtension => c.ExtendedKeyUsage
    case AuthorityInformationAccessExtension => c.AuthorityInformationAccess
    case SubjectAlternativeNameExtension => c.SubjectAlternativeName
    case PoliciesExtension => c.Policies
    case CRLDistributionPointsExtension => c.CRLDistributionPoints
    case SCTListExtension => c.SCTList
  }

  /** The record with one extension list replaced. */
  function WithExtension(c: CertificateRecord, e: Extension, l: seq<CharString>): (d: CertificateRecord)
    ensures ExtensionValue(d, e) == l
  {
    match e
    case KeyUsageExtension => c.(KeyUsage := l)
    case ExtendedKeyUsageExtension => c.(ExtendedKeyUsage := l)
    case AuthorityInformationAccessExtension => c.(AuthorityInformationAccess := l)
    case SubjectAlternativeNameExtension => c.(SubjectAlternativeName := l)
    case PoliciesExtension => c.(Policies := l)
    case CRLDistributionPointsExtension => c.(CRLDistributionPoints := l)
    case SCTListExtension => c.(SCTList := l)
  }

  /** The list's name as the messages spell it. */
  function ExtensionName(e: Extension): string {
    match e
    case KeyUsageExtension => "KeyUsage"
    case ExtendedKeyUsageExtension => "ExtendedKeyUsage"
    case AuthorityInformationAccessExtension => "AuthorityInformationAccess"
    case SubjectAlternativeNameExtension => "SubjectAlternativeName"
    case PoliciesExtension => "Policies"
    case CRLDistributionPointsExtension => "CRLDistributionPoints"
    case SCTListExtension => "SCTList"
  }

  /** Where the list's count check sits among the checks; its element check follows it. */
  function ExtensionRuleIndex(e: Extension): (k: nat)
    ensures 11 <= k < 24
  {
    match e
    case KeyUsageExtension => 11
    case ExtendedKeyUsageExtension => 13
    case AuthorityInformationAccessExtension => 15
    case SubjectAlternativeNameExtension => 17
    case PoliciesExtension => 19
    case CRLDistributionPointsExtension => 21
    case SCTListExtension => 23
  }

  /** A failure at k in an otherwise passing run of checks is reported, whatever follows it. */
  lemma FirstFailureUpdateThen(cs: seq<Check>, k: nat, x: Check, y: Check)
    requires forall j :: 0 <= j < |cs| ==> cs[j].ok
    requires k + 1 < |cs| && !x.ok
    ensures FirstFailure(cs[k := x][k + 1 := y]) == Some(x.failure)
  {
    FirstFailingAt(cs[k := x][k + 1 := y], k);
  }

  /** An over-full extension list in a valid record fails the list's count check, whatever its records. */
  lemma ChecksWithExtensionOverCount(c: CertificateRecord, e: Extension, l: seq<CharString>, lim: Limits)
    requires WithinBounds(c, lim)
    requires |l| > lim.extensionRecords
    ensures var k := ExtensionRuleIndex(e);
      Checks(WithExtension(c, e, l), lim) ==
        Checks(c, lim)[k := Check(false, TooManyRecords(e))][k + 1 := Check(ElementsWithin(l, lim.extensionLength), RecordTooLong(e))]
  {
    match e
    case KeyUsageExtension =>
    case ExtendedKeyUsageExtension =>
    case AuthorityInformationAccessExtension =>
    case SubjectAlternativeNameExtension =>
    case PoliciesExtension =>
    case CRLDistributionPointsExtension =>
    case SCTListExtension =>
  }

  /** A list within its count but with an over-long record fails the list's length check. */
  lemma ChecksWithExtensionLongRecord(c: CertificateRecord, e: Extension, l: seq<CharString>, lim: Limits)
    requires WithinBounds(c, lim)
    requires |l| <= lim.extensionRecords && !ElementsWithin(l, lim.extensionLength)
    ensures Checks(WithExtension(c, e, l), lim) == Checks(c, lim)[ExtensionRuleIndex(e) + 1 := Check(false, RecordTooLong(e))]
  {
    match e
    case KeyUsageExtension =>
    case ExtendedKeyUsageExtension =>
    case AuthorityInformationAccessExtension =>
    case SubjectAlternativeNameExtension =>
    case PoliciesExtension =>
    case CRLDistributionPointsExtension =>
    case SCTListExtension =>
  }

  /**
   * Starting from a valid record, replacing one extension list leaves the
   * record valid exactly when the list is within the record count and every
   * record within the length; a list over the count fails with the count
   * message (whatever its records), and a list within the count with an
   * over-long record fails with the length message.
   */
  lemma ExtensionVerdict(c: CertificateRecord, e: Extension, l: seq<CharString>, lim: Limits)
    requires ValidateValues(c, lim).Valid?
    ensures ValidateValues(WithExtension(c, e, l), lim) ==
      if |l| > lim.extensionRecords then Invalid(TooManyMessage(ExtensionName(e), lim.extensionRecords))
      else if !ElementsWithin(l, lim.extensionLength) then Invalid(TooLongMessage(ExtensionName(e), lim.extensionLength))
      else Valid
  {
    var d := WithExtension(c, e, l);
    ValidIffWithinBounds(c, lim);
    ValidIffWithinBounds(d, lim);
    var k := ExtensionRuleIndex(e);
    if |l| > lim.extensionRecords {
      ChecksWithExtensionOverCount(c, e, l, lim);
      FirstFailureUpdateThen(Checks(c, lim), k, Check(false, TooManyRecords(e)), Check(ElementsWithin(l, lim.extensionLength), RecordTooLong(e)));
    } else if !ElementsWithin(l, lim.extensionLength) {
      ChecksWithExtensionLongRecord(c, e, l, lim);
      FirstFailureUpdate(Checks(c, lim), k + 1, Check(false, RecordTooLong(e)));
    }
  }

  /** The verdict on one extension list: its record count first, then each record in turn. */
  function ExtensionFailure(l: seq<CharString>, e: Extension, lim: Limits): Option<Failure> {
    if |l| > lim.extensionRecords then Some(TooManyRecords(e))
    else if !ElementsWithin(l, lim.extensionLength) then Some(RecordTooLong(e))
    else None
  }

  /**
   * One extension list's checks as the source makes them: the count, then a
   * scan over the records that stops at the first one that is too long.
   */
  method CheckExtension(l: seq<CharString>, e: Extension, lim: Limits) returns (fl: Option<Failure>)
    ensures fl == ExtensionFailure(l, e, lim)
  {
    if |l| > lim.extensionRecords {
      return Some(TooManyRecords(e));
    }
    for i := 0 to |l|
      invariant forall j :: 0 <= j < i ==> |l[j]| <= lim.extensionLength
    {
      if |l[i]| > lim.extensionLength {
        return Some(RecordTooLong(e));
      }
    }
    return None;
  }

  /** The checks before position k all pass. */
  predicate PassedUpTo(cs: seq<Check>, k: nat) {
    k <= |cs| && forall j :: 0 <= j < k ==> cs[j].ok
  }

  lemma PassOne(cs: seq<Check>, k: nat)
    requires PassedUpTo(cs, k) && k < |cs| && cs[k].ok
    ensures PassedUpTo(cs, k + 1)
  {
  }

  lemma ExtensionChecksAt(c: CertificateRecord, e: Extension, lim: Limits)
    ensures var cs, k := Checks(c, lim), ExtensionRuleIndex(e);
      && cs[k] == Check(|ExtensionValue(c, e)| <= lim.extensionRecords, TooManyRecords(e))
      && cs[k + 1] == Check(ElementsWithin(ExtensionValue(c, e), lim.extensionLength), RecordTooLong(e))
  {
  }

  /**
   * Once every check before a list's checks has passed, the list's own verdict
   * is the record's verdict when it fails, and the run goes on past the list
   * when it passes.
   */
  lemma ExtensionStage(c: CertificateRecord, e: Extension, lim: Limits)
    requires PassedUpTo(Checks(c, lim), ExtensionRuleIndex(e))
    ensures var fl, k := ExtensionFailure(ExtensionValue(c, e), e, lim), ExtensionRuleIndex(e);
      && (fl.Some? ==> FirstFailure(Checks(c, lim)) == fl)
      && (fl.None? ==> PassedUpTo(Checks(c, lim), k + 2))
  {
    var cs, k := Checks(c, lim), ExtensionRuleIndex(e);
    ExtensionChecksAt(c, e, lim);
    if !cs[k].ok {
      FirstFailingAt(cs, k);
    } else {
      PassOne(cs, k);
      if !cs[k + 1].ok {
        FirstFailingAt(cs, k + 1);
      } else {
        PassOne(cs, k + 1);
      }
    }
  }

  /**
   * The emptiness checks as the source runs them: each empty member, after
   * the ones before it were present, is the record's verdict; with all three
   * present the run goes on to the length checks.
   */
  lemma PresenceStage(c: CertificateRecord, lim: Limits)
    ensures |c.Subject| == 0 ==> FirstFailure(Checks(c, lim)) == Some(SubjectEmpty)
    ensures |c.Subject| != 0 && |c.SubjectSignature| == 0 ==> FirstFailure(Checks(c, lim)) == Some(SubjectSignatureEmpty)
    ensures |c.Subject| != 0 && |c.SubjectSignature| != 0 && |c.PublicKey| == 0 ==> FirstFailure(Checks(c, lim)) == Some(PublicKeyEmpty)
    ensures |c.Subject| != 0 && |c.SubjectSignature| != 0 && |c.PublicKey| != 0 ==> PassedUpTo(Checks(c, lim), 3)
  {
    var cs := Checks(c, lim);
    if |c.Subject| == 0 {
      FirstFailingAt(cs, 0);
    } else if |c.SubjectSignature| == 0 {
      FirstFailingAt(cs, 1);
    } else if |c.PublicKey| == 0 {
      FirstFailingAt(cs, 2);
    }
  }

  lemma FieldChecksAt(c: CertificateRecord, f: BoundedField, lim: Limits)
    ensures Checks(c, lim)[FieldRuleIndex(f)] == Check(|FieldValue(c, f)| <= FieldLimit(f, lim), TooLong(f))
  {
    match f
    case SignatureAlgorithmField =>
    case SignatureHashAlgorithmField =>
    case FingerPrintField =>
    case SubjectField =>
    case SubjectSignatureField =>
    case IssuerField =>
    case PublicKeyField =>
    case SignatureValueField =>
  }

  /**
   * One length check as the source runs it: once every check before it has
   * passed, an over-long field is the record's verdict, and a field within
   * its maximum lets the run go on.
   */
  lemma LengthStage(c: CertificateRecord, f: BoundedField, lim: Limits)
    requires PassedUpTo(Checks(c, lim), FieldRuleIndex(f))
    ensures |FieldValue(c, f)| > FieldLimit(f, lim) ==> ValidateValues(c, lim) == Invalid(Message(TooLong(f), lim))
    ensures |FieldValue(c, f)| <= FieldLimit(f, lim) ==> PassedUpTo(Checks(c, lim), FieldRuleIndex(f) + 1)
  {
    var cs, k := Checks(c, lim), FieldRuleIndex(f);
    FieldChecksAt(c, f, lim);
    if !cs[k].ok {
      FirstFailingAt(cs, k);
    } else {
      PassOne(cs, k);
    }
  }

  /**
   * A record that passes validation under limits no larger than the stream's
   * MAX_SIZE can be serialized and read back.
   */
  lemma ValidIsEncodable(c: CertificateRecord, lim: Limits)
    requires ValidateValues(c, lim).Valid?
    requires lim.algorithmType <= MAX_SIZE && lim.fingerprint <= MAX_SIZE && lim.fullPath <= MAX_SIZE
    requires lim.signature <= MAX_SIZE && lim.key <= MAX_SIZE
    requires lim.extensionRecords <= MAX_SIZE && lim.extensionLength <= MAX_SIZE
    ensures Encodable(c)
  {
    ValidIffWithinBounds(c, lim);
  }
}
