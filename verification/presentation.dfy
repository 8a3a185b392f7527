/**
 * The ledger part of BuildCertificateJson: the request and approval
 * transactions, the request's block time and height, and, for an approved
 * certificate only, the validity window and the approval height.
 *
 * The active chain is a parameter: its height (-1 when empty) and the block
 * time of the block at a height, None where chainActive[h] is null.
 * AddMonthsToBlockTime is not part of this model and is a parameter too.
 */
module Presentation {
  import opened Primitives
  import opened Hex
  import opened Record
  import opened Linkage

  datatype JsonValue = JsonInt(i: int) | JsonText(s: string)

  /** One name/value pair pushed onto the certificate object. */
  datatype Member = Member(key: string, value: JsonValue)

  /**
   * The active chain. On a real chain `blockTime(h)` is None above `height`,
   * since there is no block there; Consistent states it.
   */
  datatype Chain = Chain(height: int, blockTime: uint32 -> Option<int>)

  /** No block exists above the chain's height. */
  predicate Consistent(chain: Chain) {
    forall h: uint32 :: chain.blockTime(h).Some? ==> h as int <= chain.height
  }

  /** `(unsigned int)chainActive.Height()`: an empty chain's -1 wraps to 2^32 - 1. */
  function UnsignedHeight(height: int): (u: nat)
    requires -1 <= height
    ensures u < 0x1_0000_0000
    ensures 0 <= height < 0x1_0000_0000 ==> u == height
    ensures height == -1 ==> u == 0xFFFF_FFFF
  {
    height % 0x1_0000_0000
  }

  /**
   * The time BuildCertificateJson reports for the block at a height: the
   * block's time when the height is within the (unsigned) chain height and
   * the block exists, and 0 otherwise.
   */
  function BlockTimeAt(chain: Chain, h: uint32): (t: int)
    requires -1 <= chain.height
    ensures t != 0 ==> h as nat <= UnsignedHeight(chain.height) && chain.blockTime(h) == Some(t)
    ensures h as nat <= UnsignedHeight(chain.height) && chain.blockTime(h).Some? ==> t == chain.blockTime(h).value
  {
    if UnsignedHeight(chain.height) >= h as nat then
      match chain.blockTime(h)
      case Some(time) => time
      case None => 0
    else 0
  }

  /**
   * On a consistent chain a reported time comes from a block within the
   * chain. For an empty chain the unsigned cast lets every height past the
   * guard, and it is the missing block that keeps the time at 0.
   */
  lemma ChainTimesWithinHeight(chain: Chain, h: uint32)
    requires -1 <= chain.height && Consistent(chain)
    ensures BlockTimeAt(chain, h) != 0 ==> h as int <= chain.height
    ensures chain.height == -1 ==> UnsignedHeight(chain.height) >= h as nat && BlockTimeAt(chain, h) == 0
  {
  }

  /** The members BuildCertificateJson pushes after key_usage, in order. */
  function LedgerMembers(c: CertificateRecord, chain: Chain, addMonths: (int, uint32) -> int): (j: seq<Member>)
    requires -1 <= chain.height
    ensures |j| == if IsApproved(c) then 7 else 4
    ensures j[0] == Member("txid_request", JsonText(GetHex(c.TxHashRequest)))
    ensures j[1] == Member("txid_approve", JsonText(GetHex(c.TxHashApprove)))
    ensures j[2] == Member("request_time", JsonInt(BlockTimeAt(chain, c.HeightRequest)))
    ensures j[3] == Member("request_height", JsonText(NatToString(c.HeightRequest as nat)))
  {
    var request := [
      Member("txid_request", JsonText(GetHex(c.TxHashRequest))),
      Member("txid_approve", JsonText(GetHex(c.TxHashApprove))),
      Member("request_time", JsonInt(BlockTimeAt(chain, c.HeightRequest))),
      Member("request_height", JsonText(NatToString(c.HeightRequest as nat)))];
    if c.HeightApprove != 0 then
      var approveTime := BlockTimeAt(chain, c.HeightApprove);
      request + [
        Member("valid_from", JsonInt(approveTime)),
        Member("valid_until", JsonInt(addMonths(approveTime, c.MonthsValid))),
        Member("approve_height", JsonText(NatToString(c.HeightApprove as nat)))]
    else
      request
  }

  function Keys(j: seq<Member>): (ks: seq<string>)
    ensures |ks| == |j| && forall i :: 0 <= i < |j| ==> ks[i] == j[i].key
  {
    if j == [] then [] else [j[0].key] + Keys(j[1..])
  }

  /**
   * The validity window and the approval height are shown exactly for an
   * approved certificate; the request's time and height always are.
   */
  lemma ApprovalMembersIffApproved(c: CertificateRecord, chain: Chain, addMonths: (int, uint32) -> int)
    requires -1 <= chain.height
    ensures var ks := Keys(LedgerMembers(c, chain, addMonths));
      && "request_time" in ks && "request_height" in ks
      && ("valid_from" in ks <==> IsApproved(c))
      && ("valid_until" in ks <==> IsApproved(c))
      && ("approve_height" in ks <==> IsApproved(c))
  {
    var j := LedgerMembers(c, chain, addMonths);
    var ks := Keys(j);
    assert ks[2] == "request_time" && ks[3] == "request_height";
    if IsApproved(c) {
      assert ks[4] == "valid_from" && ks[5] == "valid_until" && ks[6] == "approve_height";
    } else {
      assert ks == ["txid_request", "txid_approve", "request_time", "request_height"];
    }
  }

  /**
   * For an approved certificate the window runs from the approval block's
   * time to that time plus the certificate's months of validity.
   */
  lemma ValidityWindow(c: CertificateRecord, chain: Chain, addMonths: (int, uint32) -> int)
    requires -1 <= chain.height && IsApproved(c)
    ensures var j := LedgerMembers(c, chain, addMonths);
      && j[4] == Member("valid_from", JsonInt(BlockTimeAt(chain, c.HeightApprove)))
      && j[5] == Member("valid_until", JsonInt(addMonths(BlockTimeAt(chain, c.HeightApprove), c.MonthsValid)))
      && j[6] == Member("approve_height", JsonText(NatToString(c.HeightApprove as nat)))
  {
  }

  /**
   * An approval transaction at a non-zero height makes the certificate show a
   * validity window, whether or not its request was ever seen.
   */
  lemma ApprovalShowsWindow(c: CertificateRecord, txid: Uint256, height: uint32, chain: Chain, addMonths: (int, uint32) -> int)
    requires height != 0 && -1 <= chain.height
    ensures "valid_from" in Keys(LedgerMembers(Link(c, ApproveCertificate, txid, height), chain, addMonths))
  {
    ApprovalMembersIffApproved(Link(c, ApproveCertificate, txid, height), chain, addMonths);
  }
}
