/**
 * The integrity-checked decode behind UnserializeFromData: read a record from
 * the payload, serialize what was read, hash it, and accept the record only
 * when the hex text of that digest is the reference hash stored beside the
 * payload. A stream that does not parse and a digest that does not match are
 * both rejections.
 */
module Integrity {
  import opened Primitives
  import opened Hex
  import opened Record
  import opened HashDomains

  /**
   * The record UnserializeFromData accepts, or None where it resets the
   * record and returns false.
   */
  function CheckedDecode(data: seq<byte>, vchHash: CharString, hash: HashFn): (r: Option<CertificateRecord>)
    ensures r.Some? ==> HashText(GetHash(r.value, hash)) == vchHash
    ensures r.Some? ==> Encodable(r.value) && Serialize(r.value) <= data
    ensures r.None? ==> Deserialize(data).None? || HashText(GetHash(Deserialize(data).value, hash)) != vchHash
  {
    DeserializeSound(data);
    match Deserialize(data)
    case None => None
    case Some(c) => if HashText(GetHash(c, hash)) == vchHash then Some(c) else None
  }

  /**
   * Round trip: a serialized record, checked against the hex text of its own
   * GetHash, is accepted and read back unchanged, whatever trails it.
   */
  lemma CheckedDecodeRoundTrip(c: CertificateRecord, rest: seq<byte>, hash: HashFn)
    requires Encodable(c)
    ensures CheckedDecode(Serialize(c) + rest, HashText(GetHash(c, hash)), hash) == Some(c)
  {
    SerializeRoundTrip(c, rest);
  }

  /** Any reference hash other than the hex text of the record's digest is refused. */
  lemma CheckedDecodeRejectsOtherHash(c: CertificateRecord, rest: seq<byte>, vchHash: CharString, hash: HashFn)
    requires Encodable(c)
    requires vchHash != HashText(GetHash(c, hash))
    ensures CheckedDecode(Serialize(c) + rest, vchHash, hash) == None
  {
    SerializeRoundTrip(c, rest);
  }

  /** A payload that does not parse is refused whatever the reference hash. */
  lemma CheckedDecodeRejectsMalformed(data: seq<byte>, vchHash: CharString, hash: HashFn)
    requires Deserialize(data).None?
    ensures CheckedDecode(data, vchHash, hash) == None
  {
  }

  /**
   * One reference hash pins one digest: two records accepted against the same
   * reference have the same GetHash.
   */
  lemma AcceptedDigestUnique(data1: seq<byte>, data2: seq<byte>, vchHash: CharString, hash: HashFn)
    requires CheckedDecode(data1, vchHash, hash).Some? && CheckedDecode(data2, vchHash, hash).Some?
    ensures GetHash(CheckedDecode(data1, vchHash, hash).value, hash) == GetHash(CheckedDecode(data2, vchHash, hash).value, hash)
  {
    HashTextInjective(GetHash(CheckedDecode(data1, vchHash, hash).value, hash), GetHash(CheckedDecode(data2, vchHash, hash).value, hash));
  }

  /** A reference hash that is not 64 bytes of hex text never accepts anything. */
  lemma MalformedReferenceRejects(data: seq<byte>, vchHash: CharString, hash: HashFn)
    requires |vchHash| != 64
    ensures CheckedDecode(data, vchHash, hash) == None
  {
  }
}
