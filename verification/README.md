# BDAP certificate records in Dafny

This project models the certificate record engine of the BDAP layer, which is
the class `CCertificate` in `src/bdap/certificate.cpp`. A certificate has
these parts:

- the subject's request: the algorithms, the subject's full path name, the
  serial number and seven X.509-style extension lists;
- the subject's Ed25519 signature over the hex text of a subject hash;
- the issuer's name and public key, and the issuer's signature over the hex
  text of a larger issuer hash;
- a ledger linkage: the request and approval transactions and their block
  heights.

The model covers the following operations:

- serializing the record and reading it back with an integrity check against
  a reference hash (`UnserializeFromData`);
- reading a certificate from a transaction and recording it as a request or
  an approval (`UnserializeFromTx`);
- the three hash domains (`GetHash`, `GetSubjectHash`, `GetIssuerHash`);
- signing and checking both attestations (`SignSubject`, `SignIssuer`,
  `CheckSubjectSignature`, `CheckIssuerSignature`);
- the field validator (`ValidateValues`);
- the approval-gated ledger members of `BuildCertificateJson`.

The modules, one per file:

- `Primitives`: byte types, `Option`, and decimal text of a number (`std::to_string`).
- `Stream`: a Bitcoin-style stream codec: CompactSize-prefixed byte strings and lists, little-endian integers, raw 32-byte `uint256`. It is proved once for any schema of field kinds.
- `Hex`: `uint256::GetHex` (byte-reversed lower-case hex) and its byte form, with injectivity.
- `Record`: the record value, `SetNull`'s state, and `Serialize`/`Deserialize` with their round trip.
- `HashDomains`: the three hashed streams and the members each does and does not depend on.
- `Integrity`: the integrity-checked decode as a function.
- `Signatures`: sign/check pairs over a signature-scheme parameter.
- `Linkage`: the ledger linkage as a function on records.
- `Validation`: the validator as an ordered table of checks, with the first failure deciding the message. Includes the scan over an extension list as a loop.
- `Certificates`: `class Certificate`, whose fields are `CCertificate`'s data members. Its methods change them in place and are proved against the functions above.
- `Presentation`: the ledger members of the certificate's JSON object.

## Model

| member | source | states |
|---|---|---|
| Record.Serialize | src/bdap/certificate.cpp:17-22 | the record's stream; no contract of its own, specified by Record.SerializeRoundTrip and Record.SerializeInjective |
| Record.Deserialize | src/bdap/certificate.cpp:28 | `ds >> *this`, None where the stream throws; specified by Record.DeserializeSound and Record.SerializeRoundTrip |
| Record.SerializeRoundTrip | src/bdap/certificate.cpp:17-22 | for records the stream reader accepts (within the size limits), reading the serialized record back, with any trailing bytes, gives the record |
| Record.DeserializeSound | src/bdap/certificate.cpp:27-28 | any record that is read is encodable, and its serialization is a prefix of the payload |
| Record.SerializeInjective | src/bdap/certificate.cpp:17-22 | two encodable records have the same stream exactly when they are equal |
| Stream.DecodeEncode | src/bdap/certificate.cpp:19-20 | decoding the stream of conforming, encodable fields gives the fields and the rest of the input |
| Stream.EncodeDecode | src/bdap/certificate.cpp:27-28 | whatever decodes is conforming, encodable, and re-encodes to the consumed prefix |
| Hex.GetHex | src/bdap/certificate.cpp:33 | the hex text of a uint256 is 64 hex characters |
| Hex.GetHexInjective | src/bdap/certificate.cpp:33 | two digests have the same hex text exactly when they are equal |
| Hex.HashText | src/bdap/certificate.cpp:33 | the bytes of GetHex, as compared at line 34 and signed at lines 128 and 139: 64 bytes, each a hex character |
| Hex.HashTextInjective | src/bdap/certificate.cpp:33-34 | the bytes of the hex text identify the digest, in both directions |
| HashDomains.GetHash | src/bdap/certificate.cpp:103-108 | the hash of the same stream Serialize writes; specified by Integrity.CheckedDecodeRoundTrip and Integrity.AcceptedDigestUnique |
| HashDomains.GetSubjectHash | src/bdap/certificate.cpp:110-116 | the hash of the subject stream; specified by HashDomains.SubjectPreimageExact and HashDomains.SubjectHashIgnoresOtherMembers |
| HashDomains.GetIssuerHash | src/bdap/certificate.cpp:118-124 | the hash of the issuer stream; specified by HashDomains.IssuerPreimageExact and HashDomains.IssuerHashIgnoresOtherMembers |
| HashDomains.SubjectPreimageExact | src/bdap/certificate.cpp:110-116 | for records the stream reader accepts, the subject stream is equal exactly when SignatureAlgorithm, SignatureHashAlgorithm, Subject, SerialNumber and the seven lists are equal |
| HashDomains.IssuerPreimageExact | src/bdap/certificate.cpp:118-124 | for records the stream reader accepts, the issuer stream is equal exactly when those members plus MonthsValid, SubjectSignature, Issuer and PublicKey are equal |
| HashDomains.SubjectHashIgnoresOtherMembers | src/bdap/certificate.cpp:110-116 | GetSubjectHash does not depend on Issuer, PublicKey, either signature, MonthsValid, FingerPrint, Version or the linkage |
| HashDomains.IssuerHashIgnoresOtherMembers | src/bdap/certificate.cpp:118-124 | GetIssuerHash does not depend on SignatureValue, FingerPrint, Version or the linkage |
| HashDomains.IssuerPreimageChainsSubject | src/bdap/certificate.cpp:110-124 | for records the stream reader accepts, equal issuer streams mean equal subject streams and the same subject signature |
| HashDomains.SubjectEntersBothDomains | src/bdap/certificate.cpp:110-124 | for records the stream reader accepts, changing Subject changes both the subject stream and the issuer stream |
| HashDomains.IssuerAndKeyEnterOnlyIssuerDomain | src/bdap/certificate.cpp:110-124 | for records the stream reader accepts, changing Issuer or PublicKey changes the issuer stream and leaves the subject stream unchanged |
| Integrity.CheckedDecode | src/bdap/certificate.cpp:24-44 | an accepted record's hash text equals the reference, and the record's serialization starts the payload; a rejection means a parse failure or a hash mismatch |
| Integrity.CheckedDecodeRoundTrip | src/bdap/certificate.cpp:24-44 | for records the stream reader accepts (within the size limits), a serialized record, checked against the hex text of its own GetHash, is accepted and read back unchanged |
| Integrity.CheckedDecodeRejectsOtherHash | src/bdap/certificate.cpp:34-38 | any other reference hash is refused |
| Integrity.CheckedDecodeRejectsMalformed | src/bdap/certificate.cpp:39-42 | a payload that does not parse is refused |
| Integrity.AcceptedDigestUnique | src/bdap/certificate.cpp:32-34 | two records accepted against one reference have the same GetHash |
| Integrity.MalformedReferenceRejects | src/bdap/certificate.cpp:33-34 | a reference that is not 64 bytes long accepts nothing |
| Certificates.Certificate.UnserializeFromData | src/bdap/certificate.cpp:24-44 | returns true exactly when the checked decode accepts; then the object holds the decoded record, and otherwise the null record |
| Certificates.Certificate.constructor | src/bdap/certificate.cpp:36-41 | a new certificate holds the null record that SetNull leaves (the constructor is in `certificate.h` and is assumed to call SetNull, as these lines do on failure) |
| Certificates.Certificate.SetNull | src/bdap/certificate.cpp:36-41 | the object holds the null record afterwards |
| Certificates.Certificate.Assign | src/bdap/certificate.cpp:28 | every data member is overwritten by the record that was read |
| Linkage.Classify | src/bdap/certificate.cpp:67-75 | the operation is a request exactly for "bdap_new_certificate" and an approval exactly for "bdap_approve_certificate" |
| Linkage.OperationOf | src/bdap/certificate.cpp:65-75 | a transaction is a request exactly when its operation script names "bdap_new_certificate", and an approval exactly when it names "bdap_approve_certificate"; no script is another operation |
| Linkage.Link | src/bdap/certificate.cpp:68-75 | a request sets only the request pair and an approval only the approval pair; every other member is kept |
| Linkage.FromTx | src/bdap/certificate.cpp:46-80 | with no BDAP data, or a payload the checked decode refuses, the result is false with the null record; otherwise it is true |
| Certificates.Certificate.UnserializeFromTx | src/bdap/certificate.cpp:46-80 | the result and the new object state are those of Linkage.FromTx |
| Certificates.Certificate.SetRequest | src/bdap/certificate.cpp:68-71 | the object becomes the request-linked record |
| Certificates.Certificate.SetApproval | src/bdap/certificate.cpp:72-75 | the object becomes the approval-linked record |
| Linkage.FromTxLinksDecoded | src/bdap/certificate.cpp:56-77 | an accepted transaction yields exactly the decoded record linked by its own operation, hash and height, so the issuer domain, SignatureValue, FingerPrint and Version are the decoded ones |
| Linkage.FromTxRoundTrip | src/bdap/certificate.cpp:46-80 | a transaction carrying a serialized record and its hash text yields that record, linked as its operation type says |
| Linkage.LinkKeepsAttestedMembers | src/bdap/certificate.cpp:68-75 | linkage changes neither hash domain nor either signature |
| Linkage.RequestAndApprovalCommute | src/bdap/certificate.cpp:68-75 | the request branch (lines 69-70) and the approval branch (lines 73-74) write disjoint members, so applying both branches to one record in either order gives the same record |
| Linkage.ApprovalWithoutRequest | src/bdap/certificate.cpp:72-75 | an approval at a non-zero height approves, with no request needed, and keeps the request height |
| Linkage.LinkIdempotent | src/bdap/certificate.cpp:68-75 | applying the same branch a second time gives the record one application gives |
| Linkage.RequestThenApproval | src/bdap/certificate.cpp:68-75 | applying the request branch at height 100 does not approve; applying the approval branch at 150 to that record sets both pairs and approves |
| Linkage.ApprovalCarriesRequest | src/bdap/certificate.cpp:53-76 | an accepted approval transaction at a non-zero height alone decides the record: its request pair is the one its payload carries, so it records both transactions and approves exactly when the payload already holds the request linkage |
| Signatures.SubjectMessage | src/bdap/certificate.cpp:128 | the subject message is the 64 bytes of the subject hash's hex text |
| Signatures.IssuerMessage | src/bdap/certificate.cpp:139 | the issuer message is the 64 bytes of the issuer hash's hex text |
| Signatures.CheckSubjectSignature | src/bdap/certificate.cpp:148-157 | verifies SubjectSignature against the subject message; specified by Signatures.SubjectSignThenCheck and Signatures.SubjectCheckIgnoresOtherMembers |
| Signatures.CheckIssuerSignature | src/bdap/certificate.cpp:159-168 | verifies SignatureValue against the issuer message; specified by Signatures.IssuerSignThenCheck and Signatures.IssuanceChecks |
| Signatures.SubjectSigned | src/bdap/certificate.cpp:126-135 | a 64-byte signature of the subject message lands in SubjectSignature, every other member is kept, and the subject message is unchanged |
| Signatures.IssuerSigned | src/bdap/certificate.cpp:137-146 | a 64-byte signature of the issuer message lands in SignatureValue, every other member is kept, and the issuer message is unchanged |
| Certificates.Certificate.SignSubject | src/bdap/certificate.cpp:126-135 | returns true and writes only SubjectSignature, giving SubjectSigned of the old record |
| Certificates.Certificate.SignIssuer | src/bdap/certificate.cpp:137-146 | returns true and writes only SignatureValue, giving IssuerSigned of the old record |
| Signatures.SubjectSignThenCheck | src/bdap/certificate.cpp:126-157 | for a correct scheme and a key pair, the subject check passes after the subject signs |
| Signatures.IssuerSignThenCheck | src/bdap/certificate.cpp:137-168 | for a correct scheme and a key pair, the issuer check passes after the issuer signs |
| Signatures.IssuerSigningKeepsSubjectCheck | src/bdap/certificate.cpp:137-157 | the issuer's signing leaves the subject check unchanged for every key |
| Signatures.SubjectSigningMovesIssuerPreimage | src/bdap/certificate.cpp:122 | a new subject signature changes the stream the issuer signs |
| Signatures.IssuanceChecks | src/bdap/certificate.cpp:126-168 | after the subject signs and then the issuer signs, both checks pass |
| Signatures.SubjectCheckIgnoresOtherMembers | src/bdap/certificate.cpp:148-157 | the subject check depends only on the subject domain and SubjectSignature |
| Validation.Checks | src/bdap/certificate.cpp:170-348 | the 25 checks in the source's order: three emptiness checks, eight length checks, then a count check and an element check per list; what they mean together is Validation.ValidIffWithinBounds |
| Validation.Message | src/bdap/certificate.cpp:175-342 | the message the source writes for each failed check; specified by Validation.EmptinessChecksFirst, Validation.FieldBoundary and Validation.ExtensionVerdict |
| Validation.ValidateValues | src/bdap/certificate.cpp:170-348 | the message of the first failing check, or valid; specified by Validation.ValidIffWithinBounds, Validation.EmptinessChecksFirst, Validation.FieldVerdict and Validation.ExtensionVerdict |
| Validation.FirstFailingIndex | src/bdap/certificate.cpp:170-348 | the index is that of the first failing check, or the table's length when all pass |
| Validation.FirstFailure | src/bdap/certificate.cpp:170-348 | no failure exactly when every check passes; otherwise one that fails |
| Validation.FirstFailingAt | src/bdap/certificate.cpp:170-348 | a failure after passes before it is the one reported |
| Validation.ValidIffWithinBounds | src/bdap/certificate.cpp:170-348 | ValidateValues returns true exactly when all three members are present, all eight lengths are within bounds and every list is within its count and element length |
| Validation.EmptinessChecksFirst | src/bdap/certificate.cpp:170-191 | an empty Subject, SubjectSignature or PublicKey, in that order, fails with its message before any length check |
| Validation.PresenceStage | src/bdap/certificate.cpp:172-191 | each emptiness check decides the verdict when it fails; when all three pass, the run reaches the length checks |
| Validation.LengthStage | src/bdap/certificate.cpp:193-247 | once the earlier checks pass, an over-long field decides the verdict with its message; a field within bounds lets the run go on |
| Validation.FieldVerdict | src/bdap/certificate.cpp:193-247 | on a valid record, replacing one bounded field with a new value (non-empty for Subject, SubjectSignature and PublicKey) keeps it valid exactly when the new length is within its maximum, and otherwise fails with that field's message |
| Validation.FieldBoundary | src/bdap/certificate.cpp:193-247 | for each bounded field on an otherwise valid record, a value of the maximum length (non-empty for Subject, SubjectSignature and PublicKey) passes and one of a byte more fails with the field's message |
| Validation.ChecksWithField | src/bdap/certificate.cpp:193-247 | an over-long field on a valid record fails exactly its own length check, with every earlier check passing |
| Validation.ExtensionVerdict | src/bdap/certificate.cpp:249-345 | on a valid record, replacing one list keeps it valid exactly when the list is within the count and element bounds; otherwise it fails with the count message first and then the element message |
| Validation.ChecksWithExtensionOverCount | src/bdap/certificate.cpp:250-254 | too many records fail exactly that list's count check, after all earlier checks pass |
| Validation.ChecksWithExtensionLongRecord | src/bdap/certificate.cpp:255-261 | a list within its count but with an over-long record fails exactly its element check |
| Validation.CheckExtension | src/bdap/certificate.cpp:250-261 | the loop over one list returns the count failure, then the first element failure, or none: the same as ExtensionFailure |
| Validation.ExtensionStage | src/bdap/certificate.cpp:249-345 | once the earlier checks pass, a list's failure is the verdict; a passing list lets the run go on to the next list |
| Validation.ValidIsEncodable | src/bdap/certificate.cpp:170-348 | a valid record under limits within MAX_SIZE can be serialized and read back |
| Certificates.Certificate.ValidateValues | src/bdap/certificate.cpp:170-348 | the method's result equals the verdict function; it leaves errorMessage as it was on success and changes no member |
| Certificates.Certificate.ValidatePresence | src/bdap/certificate.cpp:172-191 | the three emptiness checks, each returning its message |
| Certificates.Certificate.ValidateAlgorithmLengths | src/bdap/certificate.cpp:193-212 | the length checks of both algorithm names and the fingerprint |
| Certificates.Certificate.ValidateNameLengths | src/bdap/certificate.cpp:214-233 | the length checks of Subject, SubjectSignature and Issuer |
| Certificates.Certificate.ValidateKeyLengths | src/bdap/certificate.cpp:235-247 | the length checks of PublicKey and SignatureValue |
| Certificates.Certificate.ValidateExtensions | src/bdap/certificate.cpp:249-347 | the seven list checks in order; all passing means the record is valid |
| Presentation.UnsignedHeight | src/bdap/certificate.cpp:423 | the chain height cast to unsigned, as at lines 423 and 433: an empty chain's -1 becomes 2^32 - 1 |
| Presentation.ChainTimesWithinHeight | src/bdap/certificate.cpp:423-438 | on a chain with no block above its height, a non-zero reported time comes from a height within the chain, and an empty chain (height -1, which the unsigned cast turns into 4294967295) reports 0 for every height because no block exists |
| Presentation.BlockTimeAt | src/bdap/certificate.cpp:423-428 | the block-time lookup for the request (lines 423-428) and for the approval (lines 433-438): a non-zero time comes from an existing block at a height within the chain, and such a block's time is reported |
| Presentation.LedgerMembers | src/bdap/certificate.cpp:419-442 | there are seven members for an approved certificate and four otherwise, starting with txid_request, txid_approve, request_time and request_height |
| Presentation.ApprovalMembersIffApproved | src/bdap/certificate.cpp:427-442 | request_time and request_height are always shown; valid_from, valid_until and approve_height are shown exactly when nHeightApprove is not 0 |
| Presentation.ValidityWindow | src/bdap/certificate.cpp:433-441 | for an approved certificate, valid_from is the approval block's time, valid_until is that time plus MonthsValid months as AddMonthsToBlockTime gives it, and approve_height is the approval height as decimal text |
| Presentation.ApprovalShowsWindow | src/bdap/certificate.cpp:429-442 | after an approval at a non-zero height, valid_from is shown |

## Left out

- The double-SHA-256 `Hash` is a parameter (`HashDomains.HashFn`). Properties that would need collision resistance are stated about the hashed streams instead.
- Ed25519 (`libtorrent::ed25519_sign`/`ed25519_verify`) is a parameter (`Signatures.SignatureScheme`). Sign-then-verify is assumed only where a lemma requires `Correct(scheme)`.
- Which members the stream carries is an assumption, as well as their order: all 22, the linkage (request and approval transaction ids and heights) included. Assign, UnserializeFromData and UnserializeFromTx therefore overwrite every member, so the last transaction decides the record: the record it carries, linked by its operation, when it is accepted, and the null record when it is refused. If `certificate.h` left the linkage out of the stream, a second decode would keep the first transaction's linkage instead, and a request followed by an approval would accumulate both pairs without the approval payload carrying them.
- The stream's field order is an assumption. `certificate.h` and `serialize.h` are not part of this model, so the declared order and `CDataStream`'s exact encoding are also assumed. Every proved property holds for any fixed order.
- The `MAX_*` validation constants come from `bdap.h`, which is not part of this model. They are a parameter (`Validation.Limits`).
- `CURRENT_VERSION`, `SetNull` and the constructor live in `certificate.h`, which is not part of this model. The null record assumes version 1 with every other member empty or zero, and the constructor is assumed to call SetNull.
- `GetBDAPData`, `GetBDAPOpScript` and `GetBDAPOpTypeString` read the transaction script and are not part of this model. What they find is part of `Linkage.Transaction`.
- Certificates.Certificate.UnserializeFromData: a decode that throws part-way has already overwritten some members before `SetNull`. Only the final null state is modelled, not the partial overwrite.
- Reading `&v[0]` of an empty key or signature vector in the sign, check, `GetPubKeyHex` and base64 getters is undefined behaviour in the source. The model does not represent it.
- `ed25519_verify` (lines 152 and 163) reads exactly 64 bytes of the stored signature and 32 bytes of the key. A stored signature shorter than 64 bytes, or a key shorter than 32 bytes, is an out-of-bounds read; bytes beyond the 64th or the 32nd are ignored. The validator lets both lengths through. The model passes whole vectors to the `verify` parameter and does not represent either effect.
- HashDomains.SubjectPreimageExact and HashDomains.IssuerPreimageExact, with the lemmas built on them, state the "only if" direction only for records the stream reader accepts back (every length within MAX_SIZE). The digests themselves are defined for records of any length.
- `ToString`, `GetPubKeyHex`, `GetSubjectSignature`, `GetSignatureValue` and `GetCertificateKeyID` are presentation only and are not modelled.
- In `BuildCertificateJson`, the members before `txid_request` are not modelled, including the numbered `key_usage` object.
- `AddMonthsToBlockTime` is not part of this model and is a parameter. The chain is also a parameter, holding the height and the block time per height.
- `src/qt/walletmodel.cpp` is left out: it is GUI and wallet glue.
- `src/dht/vgp.h` is left out: it declares foreign envelope-encryption calls that have no body.
- There is no "revoke" operation: the source leaves it as a TODO.
