/** Properties of the referral ledger: the lookup key, the order of the
    redemption checks, the two branches the validity rule makes unreachable,
    the effect of a successful redemption, and invariants of request sequences. */
module LedgerProofs {
  import opened Wrappers
  import opened Text
  import opened ReferralCodes
  import opened ReferralLedger

  /** Normalising an already normalised key changes nothing. */
  lemma NormalizeCodeIdempotent(s: string)
    ensures NormalizeCode(NormalizeCode(s)) == NormalizeCode(s)
  {
    var u := Upper(s);
    var t := Trim(u, IsWhitespaceOrNewline);
    TrimIsInfix(u, IsWhitespaceOrNewline);
    var i := TrimOffset(u, IsWhitespaceOrNewline);
    assert NoLower(t) by {
      forall k | 0 <= k < |t|
        ensures !IsAsciiLower(t[k])
      {
        assert t[k] == u[i + k];
      }
    }
    UpperFixesNoLower(t);
    TrimIdempotent(u, IsWhitespaceOrNewline);
  }

  /** The screen that reads a code upper-cases it before calling the ledger; the
      ledger's own normalisation makes that extra step irrelevant. */
  lemma ExtraUppercaseIsHarmless(s: string)
    ensures NormalizeCode(Upper(s)) == NormalizeCode(s)
  {
    UpperIdempotent(s);
  }

  /** Which rejection a redemption yields, in the order the checks run; a code that
      passes the first three checks is accepted exactly when it is still valid. */
  lemma RedeemCheckOrder(s: Store, code: string, uid: string)
    ensures var r, found := Redeem(s, code, uid), FindCode(s.codes, NormalizeCode(code));
      && (r.outcome == Fail(InvalidCode) <==> found.None?)
      && (found.Some? ==>
            var rc := DecodeCode(s.codes[found.value]);
            && (r.outcome == Fail(AlreadyUsedFromOwner) <==> UsedCodeOfOwner(s, uid, rc.ownerId))
            && (r.outcome == Fail(OwnCode) <==> !UsedCodeOfOwner(s, uid, rc.ownerId) && rc.ownerId == uid)
            && (r.outcome == Fail(FullyUsed) <==>
                  !UsedCodeOfOwner(s, uid, rc.ownerId) && rc.ownerId != uid && !IsValid(rc))
            && (r.outcome == Pass <==>
                  !UsedCodeOfOwner(s, uid, rc.ownerId) && rc.ownerId != uid && IsValid(rc)))
  {
    var found := FindCode(s.codes, NormalizeCode(code));
    if found.Some? {
    }
  }

  /** The "already used this code" rejection is dead: a valid code has no users. */
  lemma NeverAlreadyUsedThisCode(s: Store, code: string, uid: string)
    ensures Redeem(s, code, uid).outcome != Fail(AlreadyUsedThisCode)
  {
    RedeemCheckOrder(s, code, uid);
  }

  /** No redemption changes any credit counter: the redeemer is never credited,
      and the owner-credit branch (taken when the code had exactly one user) is
      dead, since a code is only redeemed while it has none. */
  lemma RedeemNeverGrantsCredit(s: Store, code: string, uid: string, u: string)
    ensures UserFields(Redeem(s, code, uid).store.users, u).availableAnalyses
         == UserFields(s.users, u).availableAnalyses
  {
    var r := Redeem(s, code, uid);
    RedeemCheckOrder(s, code, uid);
    if r.outcome == Pass {
      RedeemSuccessUsers(s, code, uid);
      if u != uid && u !in s.users {
        assert u !in r.store.users;
      }
    } else {
      assert r.store == s;
    }
  }

  /** A successful redemption adds the redeemer to the matched code's `usedBy`
      exactly once, records the normalised key as the redeemer's
      `usedReferralCode`, and changes nothing else. */
  lemma RedeemSuccessEffect(s: Store, code: string, uid: string)
    requires Redeem(s, code, uid).outcome == Pass
    ensures var r, key := Redeem(s, code, uid).store, NormalizeCode(code);
      && FindCode(s.codes, key).Some?
      && var i := FindCode(s.codes, key).value;
      && DecodeCode(s.codes[i]).usedBy == []
      && |r.codes| == |s.codes|
      && r.codes[i] == s.codes[i].(usedBy := Some([uid]))
      && DecodeCode(r.codes[i]).usedBy == DecodeCode(s.codes[i]).usedBy + [uid]
      && (forall j :: 0 <= j < |s.codes| && j != i ==> r.codes[j] == s.codes[j])
      && r.users.Keys == s.users.Keys + {uid}
      && r.users[uid] == UserFields(s.users, uid).(usedReferralCode := Some(key))
      && (forall u :: u in s.users && u != uid ==> r.users[u] == s.users[u])
  {
    RedeemSuccessCodes(s, code, uid);
    RedeemSuccessUsers(s, code, uid);
  }

  /** The code-document half of the successful redemption. */
  lemma RedeemSuccessCodes(s: Store, code: string, uid: string)
    requires Redeem(s, code, uid).outcome == Pass
    ensures var r, key := Redeem(s, code, uid).store, NormalizeCode(code);
      && FindCode(s.codes, key).Some?
      && var i := FindCode(s.codes, key).value;
      && DecodeCode(s.codes[i]).usedBy == []
      && |r.codes| == |s.codes|
      && r.codes[i] == s.codes[i].(usedBy := Some([uid]))
      && DecodeCode(r.codes[i]).usedBy == DecodeCode(s.codes[i]).usedBy + [uid]
      && (forall j :: 0 <= j < |s.codes| && j != i ==> r.codes[j] == s.codes[j])
  {
    RedeemPassCodes(s, code, uid);
    var i := FindCode(s.codes, NormalizeCode(code)).value;
    var codes := s.codes[i := s.codes[i].(usedBy := Some([uid]))];
    assert DecodeCode(codes[i]).usedBy == [uid];
  }

  /** What a successful redemption writes to the code documents. */
  lemma RedeemPassCodes(s: Store, code: string, uid: string)
    requires Redeem(s, code, uid).outcome == Pass
    ensures FindCode(s.codes, NormalizeCode(code)).Some?
    ensures var i := FindCode(s.codes, NormalizeCode(code)).value;
      && DecodeCode(s.codes[i]).usedBy == []
      && Redeem(s, code, uid).store.codes == s.codes[i := s.codes[i].(usedBy := Some([uid]))]
  {
    var key := NormalizeCode(code);
    var i := FindCode(s.codes, key).value;
    RedeemCheckOrder(s, code, uid);
    assert ArrayUnion(s.codes[i].usedBy, uid) == [uid];
  }

  /** The user-document half of the successful redemption. */
  lemma RedeemSuccessUsers(s: Store, code: string, uid: string)
    requires Redeem(s, code, uid).outcome == Pass
    ensures var r, key := Redeem(s, code, uid).store, NormalizeCode(code);
      && r.users.Keys == s.users.Keys + {uid}
      && r.users[uid] == UserFields(s.users, uid).(usedReferralCode := Some(key))
      && (forall u :: u in s.users && u != uid ==> r.users[u] == s.users[u])
  {
    RedeemPassUsers(s, code, uid);
    var users := SetUsedReferralCode(s.users, uid, NormalizeCode(code));
    assert users.Keys == s.users.Keys + {uid};
  }

  /** What a successful redemption writes to the user documents. */
  lemma RedeemPassUsers(s: Store, code: string, uid: string)
    requires Redeem(s, code, uid).outcome == Pass
    ensures Redeem(s, code, uid).store.users == SetUsedReferralCode(s.users, uid, NormalizeCode(code))
  {
    RedeemCheckOrder(s, code, uid);
  }

  /** After a successful redemption the redeemer's status reports the code used. */
  lemma RedeemThenStatus(s: Store, code: string, uid: string)
    requires Redeem(s, code, uid).outcome == Pass
    ensures GetReferralStatus(Redeem(s, code, uid).store, uid).usedReferralCode == Some(NormalizeCode(code))
    ensures GetReferralStatus(Redeem(s, code, uid).store, uid).availableAnalyses
         == GetReferralStatus(s, uid).availableAnalyses
  {
    RedeemSuccessEffect(s, code, uid);
  }

  /** The query result depends only on the `code` fields of the documents. */
  lemma FindCodeSameCodes(a: seq<CodeDoc>, b: seq<CodeDoc>, code: string, from: nat)
    requires |a| == |b| && from <= |a|
    requires forall j :: 0 <= j < |a| ==> a[j].code == b[j].code
    ensures FindCodeFrom(a, code, from) == FindCodeFrom(b, code, from)
    decreases |a| - from
  {
    if from < |a| {
      FindCodeSameCodes(a, b, code, from + 1);
    }
  }

  /** Redeeming the same code a second time, by the same user, is rejected and
      changes nothing; when the code document names its owner, the rejection is
      the "already used a code from this user" one, since the single stored
      `usedReferralCode` now points back at this code. */
  lemma SecondRedeemFails(s: Store, code: string, uid: string)
    requires Redeem(s, code, uid).outcome == Pass
    ensures var s1 := Redeem(s, code, uid).store;
      && Redeem(s1, code, uid).outcome.Fail?
      && Redeem(s1, code, uid).store == s1
      && (s.codes[FindCode(s.codes, NormalizeCode(code)).value].ownerId.Some? ==>
            Redeem(s1, code, uid).outcome == Fail(AlreadyUsedFromOwner))
  {
    var key := NormalizeCode(code);
    var s1 := Redeem(s, code, uid).store;
    RedeemSuccessEffect(s, code, uid);
    var i := FindCode(s.codes, key).value;
    FindCodeSameCodes(s.codes, s1.codes, key, 0);
    assert FindCode(s1.codes, key) == Some(i);
    NormalizeCodeIdempotent(code);
    assert s1.users[uid].usedReferralCode == Some(key);
    var rc := DecodeCode(s1.codes[i]);
    assert rc.usedBy == [uid];
    RedeemCheckOrder(s1, code, uid);
  }

  /** An exhausted code document is never touched by a redemption. */
  lemma RedeemLeavesExhaustedCode(s: Store, code: string, uid: string, j: nat)
    requires j < |s.codes| && !IsValid(DecodeCode(s.codes[j]))
    ensures |Redeem(s, code, uid).store.codes| == |s.codes|
    ensures Redeem(s, code, uid).store.codes[j] == s.codes[j]
  {
    if Redeem(s, code, uid).outcome == Pass {
      RedeemSuccessEffect(s, code, uid);
    }
  }

  /** The request at hand does not mint a document under id `id`. */
  predicate KeepsId(req: Request, id: string) {
    req.GenerateRequest? ==> req.id != id
  }

  /** Exhaustion is terminal: whatever requests follow, an exhausted code document
      keeps its place and its contents (as long as no new code is written over
      its document id), so its `usedBy` never grows again. */
  lemma {:induction false} ExhaustedCodeFrozen(s: Store, reqs: seq<Request>, j: nat)
    requires j < |s.codes| && !IsValid(DecodeCode(s.codes[j]))
    requires forall k :: 0 <= k < |reqs| ==> KeepsId(reqs[k], s.codes[j].id)
    ensures j < |Run(s, reqs).codes| && Run(s, reqs).codes[j] == s.codes[j]
    decreases |reqs|
  {
    if reqs != [] {
      var s1 := Apply(s, reqs[0]);
      match reqs[0] {
        case GenerateRequest(owner, draws, id, now) =>
          if ValidDraws(draws) {
            var doc := CodeDoc(id, Some(owner), GenerateReferralCode(s, owner, draws, id, now).referralCode.code, Some([]), now);
            assert s1.codes == PutCodeDoc(s.codes, doc);
          }
        case RedeemRequest(code, redeemer) =>
          RedeemLeavesExhaustedCode(s, code, redeemer, j);
        case UpdateRequest(_, _) =>
        case DecrementRequest(_) =>
      }
      assert forall k :: 0 <= k < |reqs[1..]| ==> KeepsId(reqs[1..][k], s1.codes[j].id) by {
        forall k | 0 <= k < |reqs[1..]|
          ensures KeepsId(reqs[1..][k], s1.codes[j].id)
        {
          assert reqs[1..][k] == reqs[k + 1];
        }
      }
      ExhaustedCodeFrozen(s1, reqs[1..], j);
    }
  }

  /** A code document as the ledger keeps it: at most `RequiredRedemptions`
      users, and never its own owner among them. */
  predicate CodeDocOk(d: CodeDoc) {
    && |d.usedBy.GetOr([])| <= RequiredRedemptions
    && (d.ownerId.Some? ==> d.ownerId.value !in d.usedBy.GetOr([]))
  }

  predicate LedgerInvariant(s: Store) {
    forall k :: 0 <= k < |s.codes| ==> CodeDocOk(s.codes[k])
  }

  lemma RedeemPreservesInvariant(s: Store, code: string, uid: string)
    requires LedgerInvariant(s)
    ensures LedgerInvariant(Redeem(s, code, uid).store)
  {
    if Redeem(s, code, uid).outcome == Pass {
      RedeemSuccessEffect(s, code, uid);
      RedeemCheckOrder(s, code, uid);
    }
  }

  lemma GeneratePreservesInvariant(s: Store, uid: string, draws: seq<nat>, id: string, now: Timestamp)
    requires LedgerInvariant(s) && ValidDraws(draws)
    ensures LedgerInvariant(GenerateReferralCode(s, uid, draws, id, now).store)
  {
    var code := GenerateReferralCode(s, uid, draws, id, now).referralCode.code;
    var doc := CodeDoc(id, Some(uid), code, Some([]), now);
    var codes := PutCodeDoc(s.codes, doc);
    assert GenerateReferralCode(s, uid, draws, id, now).store.codes == codes;
    if !exists k :: 0 <= k < |s.codes| && s.codes[k].id == doc.id {
      assert codes == s.codes + [doc];
    }
  }

  /** Served in any order and any number, the requests keep every code document
      within the redemption threshold and free of its owner. */
  lemma {:induction false} RunPreservesInvariant(s: Store, reqs: seq<Request>)
    requires LedgerInvariant(s)
    ensures LedgerInvariant(Run(s, reqs))
    decreases |reqs|
  {
    if reqs != [] {
      match reqs[0] {
        case GenerateRequest(owner, draws, id, now) =>
          if ValidDraws(draws) {
            GeneratePreservesInvariant(s, owner, draws, id, now);
          }
        case RedeemRequest(code, redeemer) =>
          RedeemPreservesInvariant(s, code, redeemer);
        case UpdateRequest(_, _) =>
        case DecrementRequest(_) =>
      }
      RunPreservesInvariant(Apply(s, reqs[0]), reqs[1..]);
    }
  }

  /** A generated code is already in normal form, so typing it as shown finds it. */
  lemma GeneratedCodeIsNormal(s: Store, uid: string, draws: seq<nat>, id: string, now: Timestamp)
    requires ValidDraws(draws)
    ensures var code := GenerateReferralCode(s, uid, draws, id, now).referralCode.code;
      NormalizeCode(code) == code
  {
    var code := GenerateReferralCode(s, uid, draws, id, now).referralCode.code;
    UpperFixesNoLower(code);
    TrimStartFixes(code, IsWhitespaceOrNewline);
    TrimEndFixes(code, IsWhitespaceOrNewline);
  }

  /** A document appended after all others is what a query finds when no earlier
      document carries the same code. */
  lemma FindAppended(codes: seq<CodeDoc>, doc: CodeDoc)
    requires forall k :: 0 <= k < |codes| ==> codes[k].code != doc.code
    ensures FindCode(codes + [doc], doc.code) == Some(|codes|)
  {
    assert (codes + [doc])[|codes|].code == doc.code;
  }

  /** The end-to-end scenario: an owner mints a code whose text no other document
      carries; a friend who has never redeemed a code enters it. The friend is
      recorded on the code and the code on the friend, and nobody's credit changes. */
  lemma GenerateThenRedeem(s: Store, owner: string, friend: string, draws: seq<nat>, id: string, now: Timestamp)
    requires ValidDraws(draws)
    requires owner != friend
    requires forall k :: 0 <= k < |s.codes| ==> s.codes[k].id != id
    requires forall k :: 0 <= k < |s.codes| ==>
      s.codes[k].code != GenerateReferralCode(s, owner, draws, id, now).referralCode.code
    requires UserFields(s.users, friend).usedReferralCode == None
    ensures var g := GenerateReferralCode(s, owner, draws, id, now);
      var r := Redeem(g.store, g.referralCode.code, friend);
      && r.outcome == Pass
      && |r.store.codes| == |s.codes| + 1
      && r.store.codes[|s.codes|] == CodeDoc(id, Some(owner), g.referralCode.code, Some([friend]), now)
      && GetReferralStatus(r.store, friend).usedReferralCode == Some(g.referralCode.code)
      && GetReferralStatus(r.store, owner).availableAnalyses == GetReferralStatus(s, owner).availableAnalyses
  {
    var g := GenerateReferralCode(s, owner, draws, id, now);
    var code := g.referralCode.code;
    var doc := CodeDoc(id, Some(owner), code, Some([]), now);
    assert g.store.codes == s.codes + [doc];
    GeneratedCodeIsNormal(s, owner, draws, id, now);
    FindAppended(s.codes, doc);
    assert FindCode(g.store.codes, NormalizeCode(code)) == Some(|s.codes|);
    assert !UsedCodeOfOwner(g.store, friend, owner);
    RedeemCheckOrder(g.store, code, friend);
    assert Redeem(g.store, code, friend).outcome == Pass;
    RedeemSuccessEffect(g.store, code, friend);
    var r := Redeem(g.store, code, friend).store;
    assert g.store.codes[|s.codes|] == doc;
    assert r.codes[|s.codes|] == doc.(usedBy := Some([friend]));
    assert r.codes[|s.codes|] == CodeDoc(id, Some(owner), code, Some([friend]), now);
    RedeemNeverGrantsCredit(g.store, code, friend, owner);
  }

  /** A user without a document reports no codes and no credits. */
  lemma StatusOfUnknownUser(s: Store, uid: string)
    requires uid !in s.users
    ensures GetReferralStatus(s, uid) == UserReferralStatus(None, None, 0)
  {
  }

  /** Decrementing undoes an increment by one, as far as the status read shows. */
  lemma DecrementUndoesIncrement(s: Store, uid: string)
    ensures GetReferralStatus(DecrementAvailableAnalyses(UpdateAvailableAnalyses(s, uid, 1), uid), uid)
         == GetReferralStatus(s, uid)
  {
  }

  /** Nothing floors the counter: decrementing a user with no credits reports minus one. */
  lemma DecrementBelowZero(s: Store, uid: string)
    requires GetReferralStatus(s, uid).availableAnalyses == 0
    ensures GetReferralStatus(DecrementAvailableAnalyses(s, uid), uid).availableAnalyses == -1
  {
  }
}
