/** The referral-code record and its validity rule, and the per-user status
    record read back by the ledger. */
module ReferralCodes {
  import opened Wrappers

  /** Number of distinct friends that must redeem a code before it stops being
      valid. The model follows the rule as currently written (one). */
  const RequiredRedemptions: nat := 1

  /** A timestamp, as seconds since the epoch; only ever copied around. */
  type Timestamp = int

  datatype ReferralCode = ReferralCode(
    id: string,
    ownerId: string,
    code: string,
    usedBy: seq<string>,
    createdAt: Timestamp)

  /** A code may still be redeemed while fewer than `RequiredRedemptions`
      users have used it; with the threshold at one, exactly while nobody has. */
  function IsValid(rc: ReferralCode): (b: bool)
    ensures b <==> rc.usedBy == []
    ensures b ==> forall u :: u !in rc.usedBy
  {
    |rc.usedBy| < RequiredRedemptions
  }

  /** The three user-document fields a client reads to show referral progress. */
  datatype UserReferralStatus = UserReferralStatus(
    referralCode: Option<string>,
    usedReferralCode: Option<string>,
    availableAnalyses: int)

  /** A code with no users yet, as every freshly minted code is, is valid. */
  lemma FreshCodeIsValid(id: string, ownerId: string, code: string, createdAt: Timestamp)
    ensures IsValid(ReferralCode(id, ownerId, code, [], createdAt))
  {
  }

  /** Validity is anti-monotone in `usedBy`: extending the user list of an invalid
      code never makes it valid again. */
  lemma InvalidStaysInvalid(rc: ReferralCode, more: seq<string>)
    requires !IsValid(rc)
    ensures !IsValid(rc.(usedBy := rc.usedBy + more))
  {
  }

  /** Validity looks at `usedBy` only: the id, owner, code text and creation time
      are irrelevant. */
  lemma ValidityDependsOnlyOnUsers(a: ReferralCode, b: ReferralCode)
    requires a.usedBy == b.usedBy
    ensures IsValid(a) <==> IsValid(b)
  {
  }
}
