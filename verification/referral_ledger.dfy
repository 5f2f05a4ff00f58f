/** The referral ledger over an abstract document store: a `users` collection
    keyed by user id and a `referralCodes` collection queried by code text.
    Every remote call is one atomic step; the transitions are pure functions from
    the store before to the store after. */
module ReferralLedger {
  import opened Wrappers
  import opened Text
  import opened ReferralCodes

  /** The referral fields of a user document; `None` is an absent field. */
  datatype UserDoc = UserDoc(
    referralCode: Option<string>,
    usedReferralCode: Option<string>,
    availableAnalyses: Option<int>)

  const NoFields := UserDoc(None, None, None)

  /** A stored referral-code document. `ownerId` and `usedBy` may be absent in a
      document the app did not write itself; the reader then substitutes defaults. */
  datatype CodeDoc = CodeDoc(
    id: string,
    ownerId: Option<string>,
    code: string,
    usedBy: Option<seq<string>>,
    createdAt: Timestamp)

  /** `codes` is kept in the order the documents were first written; an equality
      query answers in this order. */
  datatype Store = Store(users: map<string, UserDoc>, codes: seq<CodeDoc>)

  /** The user document's fields; a missing document has none (a merge-write creates it). */
  function UserFields(users: map<string, UserDoc>, uid: string): UserDoc {
    if uid in users then users[uid] else NoFields
  }

  /** A merge-write of `referralCode` alone. */
  function SetReferralCode(users: map<string, UserDoc>, uid: string, code: string): map<string, UserDoc> {
    users[uid := UserFields(users, uid).(referralCode := Some(code))]
  }

  /** A merge-write of `usedReferralCode` alone. */
  function SetUsedReferralCode(users: map<string, UserDoc>, uid: string, code: string): map<string, UserDoc> {
    users[uid := UserFields(users, uid).(usedReferralCode := Some(code))]
  }

  /** An atomic increment of `availableAnalyses`; an absent counter counts as zero. */
  function IncrementAnalyses(users: map<string, UserDoc>, uid: string, delta: int): map<string, UserDoc> {
    var fields := UserFields(users, uid);
    users[uid := fields.(availableAnalyses := Some(fields.availableAnalyses.GetOr(0) + delta))]
  }

  /** The lookup key for a typed-in code: upper-cased, then trimmed of whitespace. */
  function NormalizeCode(s: string): (r: string)
    ensures |r| <= |s|
    ensures NoLower(r)
    ensures |r| > 0 ==> !IsWhitespaceOrNewline(r[0]) && !IsWhitespaceOrNewline(r[|r| - 1])
    ensures (forall k :: 0 <= k < |s| ==> IsCodeChar(s[k])) ==> r == s
    ensures exists i: nat :: TrimmedAt(r, Upper(s), i, IsWhitespaceOrNewline)
  {
    KeyShape(s);
    KeyIsTrimmedUpper(s);
    CodeTextKey(s);
    Trim(Upper(s), IsWhitespaceOrNewline)
  }

  lemma KeyShape(s: string)
    ensures var r := Trim(Upper(s), IsWhitespaceOrNewline);
      && |r| <= |s| && NoLower(r)
      && (|r| > 0 ==> !IsWhitespaceOrNewline(r[0]) && !IsWhitespaceOrNewline(r[|r| - 1]))
  {
    UpperTrimNoLower(s, IsWhitespaceOrNewline);
    TrimEnds(Upper(s), IsWhitespaceOrNewline);
  }

  lemma KeyIsTrimmedUpper(s: string)
    ensures exists i: nat :: TrimmedAt(Trim(Upper(s), IsWhitespaceOrNewline), Upper(s), i, IsWhitespaceOrNewline)
  {
    var u := Upper(s);
    TrimIsInfix(u, IsWhitespaceOrNewline);
    assert TrimmedAt(Trim(u, IsWhitespaceOrNewline), u, TrimOffset(u, IsWhitespaceOrNewline), IsWhitespaceOrNewline);
  }

  lemma CodeTextKey(s: string)
    ensures (forall k :: 0 <= k < |s| ==> IsCodeChar(s[k])) ==> Trim(Upper(s), IsWhitespaceOrNewline) == s
  {
    if forall k :: 0 <= k < |s| ==> IsCodeChar(s[k]) {
      CodeTextIsItsOwnKey(s);
    }
  }

  /** Capital letters and digits are neither lower-case nor whitespace, so the
      normalisation leaves a text made of them alone. */
  lemma CodeTextIsItsOwnKey(s: string)
    requires forall k :: 0 <= k < |s| ==> IsCodeChar(s[k])
    ensures Trim(Upper(s), IsWhitespaceOrNewline) == s
  {
    UpperFixesNoLower(s);
    TrimStartFixes(s, IsWhitespaceOrNewline);
    TrimEndFixes(s, IsWhitespaceOrNewline);
  }

  /** A code document the app wrote itself reads back as the code it was written from. */
  lemma DecodeEncodeCode(rc: ReferralCode)
    ensures DecodeCode(EncodeCode(rc)) == rc
  {
    var d := DecodeCode(EncodeCode(rc));
    assert d.ownerId == rc.ownerId && d.usedBy == rc.usedBy;
  }

  /** Equality query on `code`, first document from position `from` on. */
  function FindCodeFrom(codes: seq<CodeDoc>, code: string, from: nat): (r: Option<nat>)
    requires from <= |codes|
    ensures r.Some? ==> from <= r.value < |codes| && codes[r.value].code == code
    ensures r.Some? ==> forall j :: from <= j < r.value ==> codes[j].code != code
    ensures r.None? ==> forall j :: from <= j < |codes| ==> codes[j].code != code
    decreases |codes| - from
  {
    if from == |codes| then None
    else if codes[from].code == code then Some(from)
    else FindCodeFrom(codes, code, from + 1)
  }

  /** The first document whose `code` field equals `code`. */
  function FindCode(codes: seq<CodeDoc>, code: string): Option<nat> {
    FindCodeFrom(codes, code, 0)
  }

  /** The document `generateReferralCode` writes for a code: every field present. */
  function EncodeCode(rc: ReferralCode): CodeDoc {
    CodeDoc(rc.id, Some(rc.ownerId), rc.code, Some(rc.usedBy), rc.createdAt)
  }

  /** The reader's view of a code document, with the defaults for absent fields. */
  function DecodeCode(doc: CodeDoc): (rc: ReferralCode)
    ensures rc.id == doc.id && rc.code == doc.code && rc.createdAt == doc.createdAt
    ensures doc.ownerId.Some? ==> rc.ownerId == doc.ownerId.value
    ensures doc.ownerId.None? ==> rc.ownerId == ""
    ensures doc.usedBy.Some? ==> rc.usedBy == doc.usedBy.value
    ensures doc.usedBy.None? ==> rc.usedBy == []
  {
    ReferralCode(doc.id, doc.ownerId.GetOr(""), doc.code, doc.usedBy.GetOr([]), doc.createdAt)
  }

  /** `FieldValue.arrayUnion([x])` applied to a possibly absent array field. */
  function ArrayUnion(field: Option<seq<string>>, x: string): (r: seq<string>)
    ensures var xs := field.GetOr([]);
      && |r| == (if x in xs then |xs| else |xs| + 1)
      && r[..|xs|] == xs
      && (forall y :: y in r <==> y in xs || y == x)
  {
    match field
    case None => [x]
    case Some(xs) => if x in xs then xs else xs + [x]
  }

  datatype RedeemError =
    | InvalidCode
    | AlreadyUsedFromOwner
    | OwnCode
    | FullyUsed
    | AlreadyUsedThisCode

  /** The message each rejection shows the user. */
  function Message(e: RedeemError): string {
    match e
    case InvalidCode => "Invalid referral code"
    case AlreadyUsedFromOwner => "You have already used a referral code from this user"
    case OwnCode => "You cannot use your own referral code"
    case FullyUsed => "This referral code has already been fully used"
    case AlreadyUsedThisCode => "You have already used this referral code"
  }

  /** Every rejection is told apart by its message; the five messages differ
      already in length. */
  lemma MessagesDistinct(a: RedeemError, b: RedeemError)
    ensures Message(a) == Message(b) <==> a == b
  {
    if a != b {
      assert MessageLength(a) != MessageLength(b);
      assert |Message(a)| != |Message(b)|;
    }
  }

  function MessageLength(e: RedeemError): (n: nat)
    ensures n == |Message(e)|
  {
    match e
    case InvalidCode => 21
    case AlreadyUsedFromOwner => 52
    case OwnCode => 37
    case FullyUsed => 46
    case AlreadyUsedThisCode => 40
  }

  /** The store after a redemption attempt, and whether it succeeded. */
  datatype Transition = Transition(store: Store, outcome: Outcome<RedeemError>)

  /** The redeemer's stored `usedReferralCode` names a code (first match of that
      text) whose stored owner is `ownerId`. */
  predicate UsedCodeOfOwner(s: Store, uid: string, ownerId: string)
    ensures UsedCodeOfOwner(s, uid, ownerId) <==>
      && UserFields(s.users, uid).usedReferralCode.Some?
      && var used := UserFields(s.users, uid).usedReferralCode.value;
         exists i :: 0 <= i < |s.codes| && s.codes[i].code == used && s.codes[i].ownerId == Some(ownerId)
           && forall j :: 0 <= j < i ==> s.codes[j].code != used
  {
    && uid in s.users
    && s.users[uid].usedReferralCode.Some?
    && var prev := FindCode(s.codes, s.users[uid].usedReferralCode.value);
       prev.Some? && s.codes[prev.value].ownerId == Some(ownerId)
  }

  /** `useReferralCode(code, by: uid)`: every rejection precedes the first write. */
  function Redeem(s: Store, code: string, uid: string): (r: Transition)
    ensures r.outcome.Fail? ==> r.store == s
  {
    var key := NormalizeCode(code);
    match FindCode(s.codes, key)
    case None => Transition(s, Fail(InvalidCode))
    case Some(i) =>
      var rc := DecodeCode(s.codes[i]);
      if UsedCodeOfOwner(s, uid, rc.ownerId) then Transition(s, Fail(AlreadyUsedFromOwner))
      else if rc.ownerId == uid then Transition(s, Fail(OwnCode))
      else if !IsValid(rc) then Transition(s, Fail(FullyUsed))
      else if uid in rc.usedBy then Transition(s, Fail(AlreadyUsedThisCode))
      else
        var codes := s.codes[i := s.codes[i].(usedBy := Some(ArrayUnion(s.codes[i].usedBy, uid)))];
        var users := SetUsedReferralCode(s.users, uid, key);
        var users' := if |rc.usedBy| == 1 then IncrementAnalyses(users, rc.ownerId, 1) else users;
        Transition(Store(users', codes), Pass)
  }

  /** The characters a generated code is drawn from. */
  const CodeAlphabet: string := "ABCDEFGHIJKLMNOPQRSTUVWXYZ0123456789"

  /** A character that can appear in a generated code. */
  predicate IsCodeChar(c: char) {
    IsAsciiUpper(c) || IsAsciiDigit(c)
  }

  /** The alphabet holds the 36 capital letters and digits. */
  lemma AlphabetIsCodeChars()
    ensures |CodeAlphabet| == 36
    ensures forall k :: 0 <= k < |CodeAlphabet| ==> IsCodeChar(CodeAlphabet[k])
  {
  }

  const CodeLength: nat := 6

  /** One random draw per character, each an index into `CodeAlphabet`. */
  predicate ValidDraws(draws: seq<nat>) {
    |draws| == CodeLength && forall k :: 0 <= k < |draws| ==> draws[k] < |CodeAlphabet|
  }

  /** A non-merge write of a whole code document under its id: it replaces the
      document with that id, or adds a new one. */
  function PutCodeDoc(codes: seq<CodeDoc>, doc: CodeDoc): (r: seq<CodeDoc>)
    ensures exists k :: 0 <= k < |r| && r[k] == doc
    ensures forall k :: 0 <= k < |codes| && codes[k].id != doc.id ==> k < |r| && r[k] == codes[k]
    ensures forall k :: 0 <= k < |r| && r[k].id == doc.id ==> r[k] == doc
    ensures forall k :: 0 <= k < |r| ==> r[k] == doc || r[k] in codes
    ensures |r| <= |codes| + 1
  {
    if exists k :: 0 <= k < |codes| && codes[k].id == doc.id then
      var j :| 0 <= j < |codes| && codes[j].id == doc.id;
      var r := seq(|codes|, k requires 0 <= k < |codes| => if codes[k].id == doc.id then doc else codes[k]);
      assert r[j] == doc;
      r
    else
      assert (codes + [doc])[|codes|] == doc;
      codes + [doc]
  }

  datatype Generated = Generated(store: Store, referralCode: ReferralCode)

  /** `generateReferralCode(for: uid)` with the random draws, the fresh document id
      and the clock reading passed in. */
  function GenerateReferralCode(s: Store, uid: string, draws: seq<nat>, id: string, now: Timestamp): (r: Generated)
    requires ValidDraws(draws)
    ensures |r.referralCode.code| == CodeLength
    ensures forall k :: 0 <= k < CodeLength ==> r.referralCode.code[k] in CodeAlphabet
    ensures forall k :: 0 <= k < CodeLength ==> IsCodeChar(r.referralCode.code[k])
    ensures r.referralCode.ownerId == uid && r.referralCode.usedBy == [] && IsValid(r.referralCode)
    ensures r.store.users.Keys == s.users.Keys + {uid}
    ensures r.store.users[uid] == UserFields(s.users, uid).(referralCode := Some(r.referralCode.code))
    ensures forall u :: u in s.users && u != uid ==> r.store.users[u] == s.users[u]
    ensures r.referralCode.id == id && r.referralCode.createdAt == now
    ensures exists k :: 0 <= k < |r.store.codes| && DecodeCode(r.store.codes[k]) == r.referralCode
    ensures forall k :: 0 <= k < |r.store.codes| && r.store.codes[k].id == id ==>
      r.store.codes[k] == CodeDoc(id, Some(uid), r.referralCode.code, Some([]), now)
    ensures forall k :: 0 <= k < |s.codes| && s.codes[k].id != id ==> k < |r.store.codes| && r.store.codes[k] == s.codes[k]
    ensures |r.store.codes| <= |s.codes| + 1
    ensures forall k :: 0 <= k < |r.store.codes| ==> r.store.codes[k].id == id || r.store.codes[k] in s.codes
  {
    AlphabetIsCodeChars();
    var code := seq(CodeLength, k requires 0 <= k < CodeLength => CodeAlphabet[draws[k]]);
    var rc := ReferralCode(id, uid, code, [], now);
    var doc := EncodeCode(rc);
    DecodeEncodeCode(rc);
    var codes := PutCodeDoc(s.codes, doc);
    Generated(Store(SetReferralCode(s.users, uid, code), codes), rc)
  }

  /** `updateAvailableAnalyses(userId:increment:)`. */
  function UpdateAvailableAnalyses(s: Store, uid: string, increment: int): (r: Store)
    ensures r.codes == s.codes
    ensures r.users.Keys == s.users.Keys + {uid}
    ensures r.users[uid].availableAnalyses == Some(UserFields(s.users, uid).availableAnalyses.GetOr(0) + increment)
    ensures r.users[uid].referralCode == UserFields(s.users, uid).referralCode
    ensures r.users[uid].usedReferralCode == UserFields(s.users, uid).usedReferralCode
    ensures forall u :: u in s.users && u != uid ==> r.users[u] == s.users[u]
  {
    Store(IncrementAnalyses(s.users, uid, increment), s.codes)
  }

  /** `decrementAvailableAnalyses(userId:)`: an increment by minus one, with no floor. */
  function DecrementAvailableAnalyses(s: Store, uid: string): (r: Store)
    ensures r.codes == s.codes
    ensures r.users.Keys == s.users.Keys + {uid}
    ensures r.users[uid].availableAnalyses == Some(UserFields(s.users, uid).availableAnalyses.GetOr(0) - 1)
    ensures r.users[uid].referralCode == UserFields(s.users, uid).referralCode
    ensures r.users[uid].usedReferralCode == UserFields(s.users, uid).usedReferralCode
    ensures forall u :: u in s.users && u != uid ==> r.users[u] == s.users[u]
  {
    Store(IncrementAnalyses(s.users, uid, -1), s.codes)
  }

  /** `getReferralStatus(userId:)`: a read of three fields, absent ones defaulted. */
  function GetReferralStatus(s: Store, uid: string): (r: UserReferralStatus)
    ensures uid !in s.users ==> r == UserReferralStatus(None, None, 0)
    ensures uid in s.users ==>
      && r.referralCode == s.users[uid].referralCode
      && r.usedReferralCode == s.users[uid].usedReferralCode
      && (s.users[uid].availableAnalyses.Some? ==> r.availableAnalyses == s.users[uid].availableAnalyses.value)
      && (s.users[uid].availableAnalyses.None? ==> r.availableAnalyses == 0)
  {
    var fields := UserFields(s.users, uid);
    UserReferralStatus(fields.referralCode, fields.usedReferralCode, fields.availableAnalyses.GetOr(0))
  }

  /** One client request against the ledger. */
  datatype Request =
    | GenerateRequest(owner: string, draws: seq<nat>, id: string, now: Timestamp)
    | RedeemRequest(code: string, redeemer: string)
    | UpdateRequest(user: string, increment: int)
    | DecrementRequest(user: string)

  /** A generate request whose random draws are not in range cannot come from the app; it leaves the store alone. */
  function Apply(s: Store, req: Request): Store {
    match req
    case GenerateRequest(owner, draws, id, now) =>
      if ValidDraws(draws) then GenerateReferralCode(s, owner, draws, id, now).store else s
    case RedeemRequest(code, redeemer) => Redeem(s, code, redeemer).store
    case UpdateRequest(user, increment) => UpdateAvailableAnalyses(s, user, increment)
    case DecrementRequest(user) => DecrementAvailableAnalyses(s, user)
  }

  /** The store after a sequence of requests, served one at a time. */
  function Run(s: Store, reqs: seq<Request>): Store
    decreases |reqs|
  {
    if reqs == [] then s else Run(Apply(s, reqs[0]), reqs[1..])
  }
}
