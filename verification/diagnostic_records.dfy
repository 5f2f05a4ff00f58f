/** The stored form of a finished questionnaire: `saveDiagnosticResults` and
    `fetchLatestDiagnosticResults`. */
module DiagnosticRecords {
  import opened Wrappers
  import opened Documents

  datatype DiagnosticResults = DiagnosticResults(answers: map<string, string>, date: int, userId: string)

  datatype FetchError = InvalidDocumentFormat

  /** The document `saveDiagnosticResults(_:)` writes; the date is stored as a timestamp. */
  function EncodeDiagnostic(r: DiagnosticResults): (doc: Document)
    ensures doc.Keys == {"answers", "date", "userId"}
    ensures doc["date"] == Stamp(r.date) && InQuery(doc, r.userId)
    ensures AsStringFields(doc["answers"]) == Some(r.answers)
  {
    var stored := map q | q in r.answers :: Str(r.answers[q]);
    assert AsStringFields(Fields(stored)).value == r.answers;
    map[
      "answers" := Fields(map q | q in r.answers :: Str(r.answers[q])),
      "date" := Stamp(r.date),
      "userId" := Str(r.userId)]
  }

  /** A new results document; it is the newest, so it comes first in date order. */
  function SaveDiagnosticResults(coll: seq<Document>, r: DiagnosticResults): (res: seq<Document>)
    ensures |res| == |coll| + 1
    ensures QueryByUser(res, r.userId) == [EncodeDiagnostic(r)] + QueryByUser(coll, r.userId)
    ensures forall other :: other != r.userId ==> QueryByUser(res, other) == QueryByUser(coll, other)
  {
    var doc := EncodeDiagnostic(r);
    assert ([doc] + coll)[1..] == coll;
    [doc] + coll
  }

  /** The reader: answers, date and owner present with their types, or
      `InvalidDocumentFormat`; other fields are ignored. */
  function DecodeDiagnostic(doc: Document): (res: Result<DiagnosticResults, FetchError>)
    ensures res.Success? <==>
      && "answers" in doc && AsStringFields(doc["answers"]).Some?
      && "date" in doc && doc["date"].Stamp?
      && "userId" in doc && doc["userId"].Str?
    ensures res.Success? ==>
      && AsStringFields(doc["answers"]) == Some(res.value.answers)
      && doc["date"] == Stamp(res.value.date)
      && doc["userId"] == Str(res.value.userId)
  {
    var answers := Get(doc, "answers");
    var date := Get(doc, "date");
    var uid := Get(doc, "userId");
    if || answers.None? || AsStringFields(answers.value).None?
       || date.None? || AsTimestamp(date.value).None?
       || uid.None? || AsString(uid.value).None?
    then Failure(InvalidDocumentFormat)
    else Success(DiagnosticResults(
      AsStringFields(answers.value).value, AsTimestamp(date.value).value, AsString(uid.value).value))
  }

  /** `fetchLatestDiagnosticResults(userId:)`: the newest matching document only
      (limit one), none when the user has no results. */
  function FetchLatestDiagnosticResults(coll: seq<Document>, uid: string): (res: Result<Option<DiagnosticResults>, FetchError>)
    ensures res == Success(None) <==> forall j :: 0 <= j < |coll| ==> !InQuery(coll[j], uid)
    ensures |MatchPositions(coll, uid)| > 0 ==>
      var first := coll[MatchPositions(coll, uid)[0]];
      && (res.Success? <==> DecodeDiagnostic(first).Success?)
      && (res.Success? ==> res.value == Some(DecodeDiagnostic(first).value))
  {
    var docs := QueryByUser(coll, uid);
    assert docs == [] <==> forall j :: 0 <= j < |coll| ==> !InQuery(coll[j], uid) by {
      if docs != [] {
        assert InQuery(coll[MatchPositions(coll, uid)[0]], uid);
      }
    }
    if docs == [] then Success(None)
    else
      match DecodeDiagnostic(docs[0])
      case Failure(e) => Failure(e)
      case Success(r) => Success(Some(r))
  }

  /** Reading back saved results yields them unchanged. */
  lemma DecodeEncodeDiagnostic(r: DiagnosticResults)
    ensures DecodeDiagnostic(EncodeDiagnostic(r)) == Success(r)
  {
    var m := AsStringFields(EncodeDiagnostic(r)["answers"]).value;
    assert m == r.answers;
  }

  /** Right after a save, the latest results of that user are the saved ones,
      whatever older documents hold (only one document is read). */
  lemma FetchLatestAfterSave(coll: seq<Document>, r: DiagnosticResults)
    ensures FetchLatestDiagnosticResults(SaveDiagnosticResults(coll, r), r.userId) == Success(Some(r))
  {
    var doc := EncodeDiagnostic(r);
    assert ([doc] + coll)[1..] == coll;
    assert QueryByUser([doc] + coll, r.userId)[0] == doc;
    DecodeEncodeDiagnostic(r);
  }

  /** A user with no stored results gets none, not an error. */
  lemma {:induction false} FetchLatestOfNewUser(coll: seq<Document>, uid: string)
    requires forall k :: 0 <= k < |coll| ==> Get(coll[k], "userId") != Some(Str(uid))
    ensures FetchLatestDiagnosticResults(coll, uid) == Success(None)
    decreases |coll|
  {
    if coll != [] {
      FetchLatestOfNewUser(coll[1..], uid);
      assert QueryByUser(coll, uid) == QueryByUser(coll[1..], uid);
    }
  }
}
