/**
 * Ledger linkage (UnserializeFromTx): a certificate is read from the BDAP
 * payload of a transaction and, depending on the transaction's operation
 * type, the transaction's hash and block height are recorded as the request
 * or as the approval.
 *
 * GetBDAPData, GetBDAPOpScript and GetBDAPOpTypeString read the transaction
 * script; they are not part of this model, so what they find is part of the
 * transaction value: the BDAP payload with its reference hash (None when
 * GetBDAPData fails) and the operation type string (None when there is no
 * BDAP operation script).
 */
module Linkage {
  import opened Primitives
  import opened Hex
  import opened Record
  import opened HashDomains
  import opened Integrity

  /** The operation types UnserializeFromTx distinguishes. */
  datatype OpKind = NewCertificate | ApproveCertificate | OtherOperation

  function Classify(opType: string): (k: OpKind)
    ensures k == NewCertificate <==> opType == "bdap_new_certificate"
    ensures k == ApproveCertificate <==> opType == "bdap_approve_certificate"
  {
    if opType == "bdap_new_certificate" then NewCertificate
    else if opType == "bdap_approve_certificate" then ApproveCertificate
    else OtherOperation
  }

  /** What GetBDAPData extracts: the serialized record, its reference hash and the output index. */
  datatype BdapData = BdapData(data: seq<byte>, vchHash: CharString, nOut: int)

  /** A transaction as far as UnserializeFromTx looks at it. */
  datatype Transaction = Transaction(txid: Uint256, bdap: Option<BdapData>, opType: Option<string>)

  /** The operation a transaction carries; no operation script counts as another operation. */
  function OperationOf(tx: Transaction): (k: OpKind)
    ensures k == NewCertificate <==> tx.opType == Some("bdap_new_certificate")
    ensures k == ApproveCertificate <==> tx.opType == Some("bdap_approve_certificate")
  {
    match tx.opType
    case None => OtherOperation
    case Some(s) => Classify(s)
  }

  /**
   * The linkage step: a new-certificate transaction sets only the request
   * pair, an approval only the approval pair (with no check that a request
   * came first), anything else changes nothing.
   */
  function Link(c: CertificateRecord, op: OpKind, txid: Uint256, height: uint32): (d: CertificateRecord)
    ensures op == NewCertificate ==> d.TxHashRequest == txid && d.HeightRequest == height
    ensures op == ApproveCertificate ==> d.TxHashApprove == txid && d.HeightApprove == height
    ensures op != NewCertificate ==> d.TxHashRequest == c.TxHashRequest && d.HeightRequest == c.HeightRequest
    ensures op != ApproveCertificate ==> d.TxHashApprove == c.TxHashApprove && d.HeightApprove == c.HeightApprove
    ensures d.(TxHashRequest := c.TxHashRequest, HeightRequest := c.HeightRequest,
               TxHashApprove := c.TxHashApprove, HeightApprove := c.HeightApprove) == c
  {
    match op
    case NewCertificate => c.(TxHashRequest := txid, HeightRequest := height)
    case ApproveCertificate => c.(TxHashApprove := txid, HeightApprove := height)
    case OtherOperation => c
  }

  /**
   * CCertificate::UnserializeFromTx as a value: whether it returns true and
   * the record it leaves. With no BDAP data, or a payload that fails the
   * integrity-checked decode, it returns false with the null record.
   */
  function FromTx(tx: Transaction, height: uint32, hash: HashFn): (r: (bool, CertificateRecord))
    ensures !r.0 ==> r.1 == Null
    ensures tx.bdap.None? ==> !r.0
    ensures r.0 <==> tx.bdap.Some? && CheckedDecode(tx.bdap.value.data, tx.bdap.value.vchHash, hash).Some?
  {
    match tx.bdap
    case None => (false, Null)
    case Some(p) =>
      match CheckedDecode(p.data, p.vchHash, hash)
      case None => (false, Null)
      case Some(c) => (true, Link(c, OperationOf(tx), tx.txid, height))
  }

  /**
   * A transaction accepted by UnserializeFromTx yields the decoded record
   * linked by the transaction's own operation, hash and height; nothing the
   * parties attest, nor the fingerprint or version, differs from what was decoded.
   */
  lemma FromTxLinksDecoded(tx: Transaction, height: uint32, hash: HashFn)
    requires FromTx(tx, height, hash).0
    ensures var c := CheckedDecode(tx.bdap.value.data, tx.bdap.value.vchHash, hash).value;
      var d := FromTx(tx, height, hash).1;
      && d == Link(c, OperationOf(tx), tx.txid, height)
      && SameIssuerDomain(c, d) && d.SignatureValue == c.SignatureValue
      && d.FingerPrint == c.FingerPrint && d.Version == c.Version
  {
  }

  /**
   * Round trip through the ledger: a transaction carrying a serialized record
   * and the hex text of its hash yields that record, linked as the operation
   * type says.
   */
  lemma FromTxRoundTrip(c: CertificateRecord, rest: seq<byte>, nOut: int, txid: Uint256, opType: Option<string>, height: uint32, hash: HashFn)
    requires Encodable(c)
    ensures var tx := Transaction(txid, Some(BdapData(Serialize(c) + rest, HashText(GetHash(c, hash)), nOut)), opType);
      FromTx(tx, height, hash) == (true, Link(c, OperationOf(tx), txid, height))
  {
    CheckedDecodeRoundTrip(c, rest, hash);
  }

  /**
   * The ledger flow of an approval: FromTx keeps no earlier state, so the
   * approval transaction alone decides the record, and it records the request
   * pair exactly as its own payload carries it. When that payload is the
   * record the request branch produced, the result holds both transactions
   * and is approved; whatever the payload, the request pair is the payload's.
   */
  lemma ApprovalCarriesRequest(c: CertificateRecord, rest: seq<byte>, nOut: int, reqTx: Uint256, reqHeight: uint32,
                               appTx: Uint256, appHeight: uint32, hash: HashFn)
    requires Encodable(c) && appHeight != 0
    ensures var p := Link(c, NewCertificate, reqTx, reqHeight);
      var app := Transaction(appTx, Some(BdapData(Serialize(p) + rest, HashText(GetHash(p, hash)), nOut)), Some("bdap_approve_certificate"));
      var r := FromTx(app, appHeight, hash);
      && r.0 && IsApproved(r.1)
      && r.1.TxHashRequest == reqTx && r.1.HeightRequest == reqHeight
      && r.1.TxHashApprove == appTx && r.1.HeightApprove == appHeight
    ensures var app := Transaction(appTx, Some(BdapData(Serialize(c) + rest, HashText(GetHash(c, hash)), nOut)), Some("bdap_approve_certificate"));
      var r := FromTx(app, appHeight, hash);
      r.0 && r.1.TxHashRequest == c.TxHashRequest && r.1.HeightRequest == c.HeightRequest
  {
    var p := Link(c, NewCertificate, reqTx, reqHeight);
    assert Encodable(p);
    FromTxRoundTrip(p, rest, nOut, appTx, Some("bdap_approve_certificate"), appHeight, hash);
    FromTxRoundTrip(c, rest, nOut, appTx, Some("bdap_approve_certificate"), appHeight, hash);
  }

  /** Linkage never touches what either party attests. */
  lemma LinkKeepsAttestedMembers(c: CertificateRecord, op: OpKind, txid: Uint256, height: uint32, hash: HashFn)
    ensures var d := Link(c, op, txid, height);
      GetSubjectHash(d, hash) == GetSubjectHash(c, hash) &&
      GetIssuerHash(d, hash) == GetIssuerHash(c, hash) &&
      d.SubjectSignature == c.SubjectSignature && d.SignatureValue == c.SignatureValue
  {
    var d := Link(c, op, txid, height);
    assert SameIssuerDomain(c, d) && SameSubjectDomain(c, d);
    SubjectHashIgnoresOtherMembers(c, d, hash);
    IssuerHashIgnoresOtherMembers(c, d, hash);
  }

  /**
   * The request branch writes only the request pair and the approval branch
   * only the approval pair, so applying both branches to one record in either
   * order gives the same record. (Decoding a transaction re-reads every
   * member, the linkage included, so this is a fact about the two branches,
   * not about two transactions seen one after the other: see
   * ApprovalCarriesRequest.)
   */
  lemma RequestAndApprovalCommute(c: CertificateRecord, reqTx: Uint256, reqHeight: uint32, appTx: Uint256, appHeight: uint32)
    ensures Link(Link(c, NewCertificate, reqTx, reqHeight), ApproveCertificate, appTx, appHeight)
         == Link(Link(c, ApproveCertificate, appTx, appHeight), NewCertificate, reqTx, reqHeight)
  {
  }

  /** An approval at a non-zero height approves, whether or not a request was ever recorded. */
  lemma ApprovalWithoutRequest(c: CertificateRecord, txid: Uint256, height: uint32)
    requires height != 0
    ensures IsApproved(Link(c, ApproveCertificate, txid, height))
    ensures Link(c, ApproveCertificate, txid, height).HeightRequest == c.HeightRequest
  {
  }

  /** Applying the same branch a second time gives the record one application gives. */
  lemma LinkIdempotent(c: CertificateRecord, op: OpKind, txid: Uint256, height: uint32)
    ensures Link(Link(c, op, txid, height), op, txid, height) == Link(c, op, txid, height)
  {
  }

  /**
   * Applying the request branch at height 100 and then the approval branch at
   * height 150 to one record sets both pairs and approves; the request branch
   * alone does not approve.
   */
  lemma RequestThenApproval(c: CertificateRecord, reqTx: Uint256, appTx: Uint256)
    requires c.HeightApprove == 0
    ensures !IsApproved(Link(c, NewCertificate, reqTx, 100))
    ensures var d := Link(Link(c, NewCertificate, reqTx, 100), ApproveCertificate, appTx, 150);
      IsApproved(d) && d.HeightRequest == 100 && d.TxHashRequest == reqTx &&
      d.HeightApprove == 150 && d.TxHashApprove == appTx
  {
  }
}
