/**
 * CCertificate as an object: its data members are fields, and the members
 * that change them (SetNull, UnserializeFromData, UnserializeFromTx,
 * SignSubject, SignIssuer) are methods. Each method is specified through the
 * record value of the object, Value(), and the functions on records in the
 * other modules; ValidateValues, which only reads, is a method run the way the
 * source runs it and proved to agree with the function Validation.ValidateValues.
 */
module Certificates {
  import opened Primitives
  import opened Hex
  import opened Record
  import opened HashDomains
  import opened Integrity
  import opened Signatures
  import opened Linkage
  import V = Validation

  class Certificate {
    var nVersion: int32
    var MonthsValid: uint32
    var FingerPrint: CharString
    var SignatureAlgorithm: CharString
    var SignatureHashAlgorithm: CharString
    var Subject: CharString
    var SubjectSignature: CharString
    var Issuer: CharString
    var PublicKey: CharString
    var SignatureValue: CharString
    var SerialNumber: uint64
    var KeyUsage: seq<CharString>
    var ExtendedKeyUsage: seq<CharString>
    var AuthorityInformationAccess: seq<CharString>
    var SubjectAlternativeName: seq<CharString>
    var Policies: seq<CharString>
    var CRLDistributionPoints: seq<CharString>
    var SCTList: seq<CharString>
    var nHeightRequest: uint32
    var nHeightApprove: uint32
    var txHashRequest: Uint256
    var txHashApprove: Uint256

    /** The record the object currently holds. */
    function Value(): CertificateRecord
      reads this
    {
      CertificateRecord(nVersion, MonthsValid, FingerPrint, SignatureAlgorithm, SignatureHashAlgorithm,
        Subject, SubjectSignature, Issuer, PublicKey, SignatureValue, SerialNumber,
        KeyUsage, ExtendedKeyUsage, AuthorityInformationAccess, SubjectAlternativeName, Policies,
        CRLDistributionPoints, SCTList, nHeightRequest, nHeightApprove, txHashRequest, txHashApprove)
    }

    /** A new certificate starts null. */
    constructor ()
      ensures Value() == Null
    {
      new;
      SetNull();
    }

    /** CCertificate::SetNull: the current version, every other member empty or zero. */
    method SetNull()
      modifies this
      ensures Value() == Null
    {
      Assign(Null);
    }

    /** `ds >> *this`: every member overwritten by the one read. */
    method Assign(c: CertificateRecord)
      modifies this
      ensures Value() == c
    {
      AssignAttested(c);
      AssignListsAndLinkage(c);
    }

    /** The members either party's hash covers, apart from the extension lists. */
    method AssignAttested(c: CertificateRecord)
      modifies this`nVersion, this`MonthsValid, this`FingerPrint, this`SignatureAlgorithm,
               this`SignatureHashAlgorithm, this`SerialNumber,
               this`Subject, this`SubjectSignature, this`Issuer, this`PublicKey, this`SignatureValue
      ensures nVersion == c.Version && MonthsValid == c.MonthsValid && FingerPrint == c.FingerPrint
      ensures SignatureAlgorithm == c.SignatureAlgorithm && SignatureHashAlgorithm == c.SignatureHashAlgorithm
      ensures SerialNumber == c.SerialNumber
      ensures Subject == c.Subject && SubjectSignature == c.SubjectSignature && Issuer == c.Issuer
      ensures PublicKey == c.PublicKey && SignatureValue == c.SignatureValue
    {
      AssignHeader(c);
      AssignParties(c);
    }

    /** The extension lists and the ledger linkage. */
    method AssignListsAndLinkage(c: CertificateRecord)
      modifies this`KeyUsage, this`ExtendedKeyUsage, this`AuthorityInformationAccess,
               this`SubjectAlternativeName, this`Policies, this`CRLDistributionPoints, this`SCTList,
               this`nHeightRequest, this`nHeightApprove, this`txHashRequest, this`txHashApprove
      ensures KeyUsage == c.KeyUsage && ExtendedKeyUsage == c.ExtendedKeyUsage
      ensures AuthorityInformationAccess == c.AuthorityInformationAccess && SubjectAlternativeName == c.SubjectAlternativeName
      ensures Policies == c.Policies && CRLDistributionPoints == c.CRLDistributionPoints && SCTList == c.SCTList
      ensures nHeightRequest == c.HeightRequest && nHeightApprove == c.HeightApprove
      ensures txHashRequest == c.TxHashRequest && txHashApprove == c.TxHashApprove
    {
      AssignExtensions(c);
      AssignLinkage(c);
    }

    method AssignHeader(c: CertificateRecord)
      modifies this`nVersion, this`MonthsValid, this`FingerPrint, this`SignatureAlgorithm,
               this`SignatureHashAlgorithm, this`SerialNumber
      ensures nVersion == c.Version && MonthsValid == c.MonthsValid && FingerPrint == c.FingerPrint
      ensures SignatureAlgorithm == c.SignatureAlgorithm && SignatureHashAlgorithm == c.SignatureHashAlgorithm
      ensures SerialNumber == c.SerialNumber
    {
      nVersion, MonthsValid, FingerPrint := c.Version, c.MonthsValid, c.FingerPrint;
      SignatureAlgorithm, SignatureHashAlgorithm := c.SignatureAlgorithm, c.SignatureHashAlgorithm;
      SerialNumber := c.SerialNumber;
    }

    method AssignParties(c: CertificateRecord)
      modifies this`Subject, this`SubjectSignature, this`Issuer, this`PublicKey, this`SignatureValue
      ensures Subject == c.Subject && SubjectSignature == c.SubjectSignature && Issuer == c.Issuer
      ensures PublicKey == c.PublicKey && SignatureValue == c.SignatureValue
    {
      Subject, SubjectSignature, Issuer := c.Subject, c.SubjectSignature, c.Issuer;
      PublicKey, SignatureValue := c.PublicKey, c.SignatureValue;
    }

    method AssignExtensions(c: CertificateRecord)
      modifies this`KeyUsage, this`ExtendedKeyUsage, this`AuthorityInformationAccess,
               this`SubjectAlternativeName, this`Policies, this`CRLDistributionPoints, this`SCTList
      ensures KeyUsage == c.KeyUsage && ExtendedKeyUsage == c.ExtendedKeyUsage
      ensures AuthorityInformationAccess == c.AuthorityInformationAccess && SubjectAlternativeName == c.SubjectAlternativeName
      ensures Policies == c.Policies && CRLDistributionPoints == c.CRLDistributionPoints && SCTList == c.SCTList
    {
      KeyUsage, ExtendedKeyUsage := c.KeyUsage, c.ExtendedKeyUsage;
      AuthorityInformationAccess, SubjectAlternativeName := c.AuthorityInformationAccess, c.SubjectAlternativeName;
      Policies, CRLDistributionPoints, SCTList := c.Policies, c.CRLDistributionPoints, c.SCTList;
    }

    method AssignLinkage(c: CertificateRecord)
      modifies this`nHeightRequest, this`nHeightApprove, this`txHashRequest, this`txHashApprove
      ensures nHeightRequest == c.HeightRequest && nHeightApprove == c.HeightApprove
      ensures txHashRequest == c.TxHashRequest && txHashApprove == c.TxHashApprove
    {
      nHeightRequest, nHeightApprove := c.HeightRequest, c.HeightApprove;
      txHashRequest, txHashApprove := c.TxHashRequest, c.TxHashApprove;
    }

    /** Record the transaction as the certificate's request. */
    method SetRequest(txid: Uint256, height: uint32)
      modifies this`txHashRequest, this`nHeightRequest
      ensures Value() == Link(old(Value()), NewCertificate, txid, height)
    {
      txHashRequest := txid;
      nHeightRequest := height;
    }

    /** Record the transaction as the certificate's approval. */
    method SetApproval(txid: Uint256, height: uint32)
      modifies this`txHashApprove, this`nHeightApprove
      ensures Value() == Link(old(Value()), ApproveCertificate, txid, height)
    {
      txHashApprove := txid;
      nHeightApprove := height;
    }

    /**
     * CCertificate::UnserializeFromData: read the record, re-serialize it,
     * hash it and compare the hex text of the digest with vchHash. A stream
     * that does not parse and a digest that does not match both leave the
     * null record and return false.
     */
    method UnserializeFromData(vchData: seq<byte>, vchHash: CharString, hash: HashFn) returns (ok: bool)
      modifies this
      ensures ok <==> CheckedDecode(vchData, vchHash, hash).Some?
      ensures ok ==> Value() == CheckedDecode(vchData, vchHash, hash).value
      ensures !ok ==> Value() == Null
    {
      var decoded := Deserialize(vchData);
      if decoded.None? {
        SetNull();
        return false;
      }
      Assign(decoded.value);
      var vchEntryLinkData := Serialize(Value());
      var calculatedHash := hash(vchEntryLinkData);
      var vchRandEntryLink := HashText(calculatedHash);
      if vchRandEntryLink != vchHash {
        SetNull();
        return false;
      }
      return true;
    }

    /**
     * CCertificate::UnserializeFromTx: decode the transaction's BDAP payload,
     * then record the transaction as the request or as the approval according
     * to its operation type.
     */
    method UnserializeFromTx(tx: Transaction, height: uint32, hash: HashFn) returns (ok: bool)
      modifies this
      ensures (ok, Value()) == FromTx(tx, height, hash)
    {
      if tx.bdap.None? {
        SetNull();
        return false;
      }
      ok := UnserializeFromData(tx.bdap.value.data, tx.bdap.value.vchHash, hash);
      if !ok {
        return false;
      }
      if tx.opType.Some? {
        var strOpType := tx.opType.value;
        if strOpType == "bdap_new_certificate" {
          SetRequest(tx.txid, height);
        } else if strOpType == "bdap_approve_certificate" {
          SetApproval(tx.txid, height);
        }
      }
      return true;
    }

    /**
     * CCertificate::SignSubject: sign the subject message and store the
     * 64-byte signature in SubjectSignature, and nowhere else.
     */
    method SignSubject(vchPubKey: CharString, vchPrivKey: CharString, scheme: SignatureScheme, hash: HashFn) returns (ok: bool)
      modifies this`SubjectSignature
      ensures ok
      ensures Value() == SubjectSigned(old(Value()), vchPubKey, vchPrivKey, scheme, hash)
    {
      var msg := SubjectMessage(Value(), hash);
      var sig := scheme.sign(msg, vchPubKey, vchPrivKey);
      SubjectSignature := sig;
      return true;
    }

    /**
     * CCertificate::SignIssuer: sign the issuer message and store the 64-byte
     * signature in SignatureValue, and nowhere else.
     */
    method SignIssuer(vchPubKey: CharString, vchPrivKey: CharString, scheme: SignatureScheme, hash: HashFn) returns (ok: bool)
      modifies this`SignatureValue
      ensures ok
      ensures Value() == IssuerSigned(old(Value()), vchPubKey, vchPrivKey, scheme, hash)
    {
      var msg := IssuerMessage(Value(), hash);
      var sig := scheme.sign(msg, vchPubKey, vchPrivKey);
      SignatureValue := sig;
      return true;
    }

    /**
     * CCertificate::ValidateValues run as the source runs it: each check in
     * turn, returning at the first that fails with its message written to the
     * error message, which is otherwise left as it was. It changes nothing.
     */
    method ValidateValues(lim: V.Limits, errorMessage: string) returns (ok: bool, message: string)
      ensures V.ValidateValues(Value(), lim) == if ok then V.Valid else V.Invalid(message)
      ensures ok ==> message == errorMessage
    {
      ok, message := ValidatePresence(lim, errorMessage);
      if !ok {
        return;
      }
      ok, message := ValidateAlgorithmLengths(lim, errorMessage);
      if !ok {
        return;
      }
      ok, message := ValidateNameLengths(lim, errorMessage);
      if !ok {
        return;
      }
      ok, message := ValidateKeyLengths(lim, errorMessage);
      if !ok {
        return;
      }
      ok, message := ValidateExtensions(lim, errorMessage);
    }

    /** The three members that must not be empty: Subject, SubjectSignature, PublicKey. */
    method ValidatePresence(lim: V.Limits, errorMessage: string) returns (ok: bool, message: string)
      ensures !ok ==> V.ValidateValues(Value(), lim) == V.Invalid(message)
      ensures ok ==> V.PassedUpTo(V.Checks(Value(), lim), 3) && message == errorMessage
    {
      V.PresenceStage(Value(), lim);
      if |Subject| == 0 {
        return false, V.Message(V.SubjectEmpty, lim);
      }
      if |SubjectSignature| == 0 {
        return false, V.Message(V.SubjectSignatureEmpty, lim);
      }
      if |PublicKey| == 0 {
        return false, V.Message(V.PublicKeyEmpty, lim);
      }
      return true, errorMessage;
    }

    /** The maximum lengths of the two algorithm names and the fingerprint, once the emptiness checks have passed. */
    method ValidateAlgorithmLengths(lim: V.Limits, errorMessage: string) returns (ok: bool, message: string)
      requires V.PassedUpTo(V.Checks(Value(), lim), 3)
      ensures !ok ==> V.ValidateValues(Value(), lim) == V.Invalid(message)
      ensures ok ==> V.PassedUpTo(V.Checks(Value(), lim), 6) && message == errorMessage
    {
      ghost var c := Value();
      V.LengthStage(c, V.SignatureAlgorithmField, lim);
      if |SignatureAlgorithm| > lim.algorithmType {
        return false, V.Message(V.TooLong(V.SignatureAlgorithmField), lim);
      }
      V.LengthStage(c, V.SignatureHashAlgorithmField, lim);
      if |SignatureHashAlgorithm| > lim.algorithmType {
        return false, V.Message(V.TooLong(V.SignatureHashAlgorithmField), lim);
      }
      V.LengthStage(c, V.FingerPrintField, lim);
      if |FingerPrint| > lim.fingerprint {
        return false, V.Message(V.TooLong(V.FingerPrintField), lim);
      }
      return true, errorMessage;
    }

    /** The maximum lengths of the subject's name, its signature and the issuer's name. */
    method ValidateNameLengths(lim: V.Limits, errorMessage: string) returns (ok: bool, message: string)
      requires V.PassedUpTo(V.Checks(Value(), lim), 6)
      ensures !ok ==> V.ValidateValues(Value(), lim) == V.Invalid(message)
      ensures ok ==> V.PassedUpTo(V.Checks(Value(), lim), 9) && message == errorMessage
    {
      ghost var c := Value();
      V.LengthStage(c, V.SubjectField, lim);
      if |Subject| > lim.fullPath {
        return false, V.Message(V.TooLong(V.SubjectField), lim);
      }
      V.LengthStage(c, V.SubjectSignatureField, lim);
      if |SubjectSignature| > lim.signature {
        return false, V.Message(V.TooLong(V.SubjectSignatureField), lim);
      }
      V.LengthStage(c, V.IssuerField, lim);
      if |Issuer| > lim.fullPath {
        return false, V.Message(V.TooLong(V.IssuerField), lim);
      }
      return true, errorMessage;
    }

    /** The maximum lengths of the public key and the issuer's signature. */
    method ValidateKeyLengths(lim: V.Limits, errorMessage: string) returns (ok: bool, message: string)
      requires V.PassedUpTo(V.Checks(Value(), lim), 9)
      ensures !ok ==> V.ValidateValues(Value(), lim) == V.Invalid(message)
      ensures ok ==> V.PassedUpTo(V.Checks(Value(), lim), 11) && message == errorMessage
    {
      ghost var c := Value();
      V.LengthStage(c, V.PublicKeyField, lim);
      if |PublicKey| > lim.key {
        return false, V.Message(V.TooLong(V.PublicKeyField), lim);
      }
      V.LengthStage(c, V.SignatureValueField, lim);
      if |SignatureValue| > lim.signature {
        return false, V.Message(V.TooLong(V.SignatureValueField), lim);
      }
      return true, errorMessage;
    }

    /** The seven extension lists' checks, in order, once every other check has passed. */
    method ValidateExtensions(lim: V.Limits, errorMessage: string) returns (ok: bool, message: string)
      requires V.PassedUpTo(V.Checks(Value(), lim), 11)
      ensures V.ValidateValues(Value(), lim) == if ok then V.Valid else V.Invalid(message)
      ensures ok ==> message == errorMessage
    {
      ghost var c := Value();
      var fl: Option<V.Failure>;
      V.ExtensionStage(c, V.KeyUsageExtension, lim);
      fl := V.CheckExtension(KeyUsage, V.KeyUsageExtension, lim);
      if fl.Some? {
        return false, V.Message(fl.value, lim);
      }
      V.ExtensionStage(c, V.ExtendedKeyUsageExtension, lim);
      fl := V.CheckExtension(ExtendedKeyUsage, V.ExtendedKeyUsageExtension, lim);
      if fl.Some? {
        return false, V.Message(fl.value, lim);
      }
      V.ExtensionStage(c, V.AuthorityInformationAccessExtension, lim);
      fl := V.CheckExtension(AuthorityInformationAccess, V.AuthorityInformationAccessExtension, lim);
      if fl.Some? {
        return false, V.Message(fl.value, lim);
      }
      V.ExtensionStage(c, V.SubjectAlternativeNameExtension, lim);
      fl := V.CheckExtension(SubjectAlternativeName, V.SubjectAlternativeNameExtension, lim);
      if fl.Some? {
        return false, V.Message(fl.value, lim);
      }
      V.ExtensionStage(c, V.PoliciesExtension, lim);
      fl := V.CheckExtension(Policies, V.PoliciesExtension, lim);
      if fl.Some? {
        return false, V.Message(fl.value, lim);
      }
      V.ExtensionStage(c, V.CRLDistributionPointsExtension, lim);
      fl := V.CheckExtension(CRLDistributionPoints, V.CRLDistributionPointsExtension, lim);
      if fl.Some? {
        return false, V.Message(fl.value, lim);
      }
      V.ExtensionStage(c, V.SCTListExtension, lim);
      fl := V.CheckExtension(SCTList, V.SCTListExtension, lim);
      if fl.Some? {
        return false, V.Message(fl.value, lim);
      }
      return true, errorMessage;
    }
  }
}
