/** The reader inverts the writer, absent optional fields take their defaults,
    and a missing required field fails the whole read. */
module AnalysisProofs {
  import opened Wrappers
  import opened Documents
  import opened AnalysisRecords

  lemma DecodeEncodeScores(s: CategoryScores)
    ensures AsDoubleFields(Fields(EncodeScores(s))).Some?
    ensures DecodeScores(AsDoubleFields(Fields(EncodeScores(s))).value) == s
  {
  }

  lemma DecodeEncodeStrings(xs: seq<string>)
    ensures AsStringArray(EncodeStrings(xs)) == Some(xs)
  {
    var v := EncodeStrings(xs);
    assert forall k :: 0 <= k < |v.items| ==> v.items[k].Str?;
    var r := AsStringArray(v).value;
    assert |r| == |xs|;
    assert forall k :: 0 <= k < |r| ==> r[k] == xs[k];
    assert r == xs;
  }

  lemma DecodeEncodeProduct(p: ProductRecommendation)
    ensures AsStringFields(Fields(EncodeProduct(p))).Some?
    ensures DecodeProduct(AsStringFields(Fields(EncodeProduct(p))).value) == p
  {
    var e := EncodeProduct(p);
    assert e["category"] == Str(p.category) && e["name"] == Str(p.name) && e["reason"] == Str(p.reason);
    var m := AsStringFields(Fields(e)).value;
    assert m["category"] == p.category && m["name"] == p.name && m["reason"] == p.reason;
  }

  lemma DecodeEncodeProducts(ps: seq<ProductRecommendation>)
    ensures var v := Array(seq(|ps|, k requires 0 <= k < |ps| => Fields(EncodeProduct(ps[k]))));
      && AsStringFieldsArray(v).Some?
      && |AsStringFieldsArray(v).value| == |ps|
      && var pm := AsStringFieldsArray(v).value;
         seq(|pm|, k requires 0 <= k < |pm| => DecodeProduct(pm[k])) == ps
  {
    var v := Array(seq(|ps|, k requires 0 <= k < |ps| => Fields(EncodeProduct(ps[k]))));
    forall k | 0 <= k < |ps|
      ensures AsStringFields(v.items[k]).Some?
      ensures DecodeProduct(AsStringFields(v.items[k]).value) == ps[k]
    {
      DecodeEncodeProduct(ps[k]);
    }
    var pm := AsStringFieldsArray(v).value;
    assert |pm| == |ps|;
    var decoded := seq(|pm|, k requires 0 <= k < |pm| => DecodeProduct(pm[k]));
    forall k | 0 <= k < |ps|
      ensures decoded[k] == ps[k]
    {
      assert pm[k] == AsStringFields(v.items[k]).value;
    }
    assert decoded == ps;
  }

  /** Reading back a saved analysis yields it unchanged: labels, the seven scores,
      the overall score, every recommendation and the date. */
  lemma DecodeEncodeAnalysis(a: HairAnalysis, uid: string)
    ensures DecodeAnalysis(EncodeAnalysis(a, uid)) == Success(a)
  {
    DecodedRatings(a, uid);
    DecodedRecommendations(a, uid);
    var r := DecodeAnalysis(EncodeAnalysis(a, uid));
    assert r.value.overallScore == a.overallScore && r.value.date == a.date;
  }

  /** The labels and the seven scores of a saved analysis read back. */
  lemma DecodedRatings(a: HairAnalysis, uid: string)
    ensures DecodeAnalysis(EncodeAnalysis(a, uid)).Success?
    ensures DecodeAnalysis(EncodeAnalysis(a, uid)).value.ratings == a.ratings
  {
    EncodedIsWellFormed(a, uid);
    DecodeEncodeScores(a.ratings.scores);
  }

  /** The products, techniques and lifestyle tips of a saved analysis read back. */
  lemma DecodedRecommendations(a: HairAnalysis, uid: string)
    ensures DecodeAnalysis(EncodeAnalysis(a, uid)).Success?
    ensures DecodeAnalysis(EncodeAnalysis(a, uid)).value.recommendations == a.recommendations
  {
    EncodedIsWellFormed(a, uid);
    var r := DecodeAnalysis(EncodeAnalysis(a, uid));
    DecodeEncodeStrings(a.recommendations.techniques);
    DecodeEncodeStrings(a.recommendations.lifestyle);
    DecodeEncodeProducts(a.recommendations.products);
    assert r.value.recommendations.products == a.recommendations.products;
  }

  /** A saved analysis passes every cast of the reader's guard. */
  lemma EncodedIsWellFormed(a: HairAnalysis, uid: string)
    ensures WellFormedAnalysis(EncodeAnalysis(a, uid))
  {
    var doc := EncodeAnalysis(a, uid);
    var ratings, recs := doc["ratings"].fields, doc["recommendations"].fields;
    assert WellFormedRatings(ratings) by {
      assert ratings["scores"] == Fields(EncodeScores(a.ratings.scores));
      DecodeEncodeScores(a.ratings.scores);
    }
    assert WellFormedRecommendations(recs) by {
      DecodeEncodeStrings(a.recommendations.techniques);
      DecodeEncodeStrings(a.recommendations.lifestyle);
      DecodeEncodeProducts(a.recommendations.products);
    }
  }

  /** Saving an analysis puts it at the head of its owner's history and leaves the
      rest of the history as it read before; a history that failed to read still fails. */
  lemma FetchAfterSave(coll: seq<Document>, a: HairAnalysis, uid: string)
    ensures FetchHairAnalyses(SaveHairAnalysis(coll, a, uid), uid) ==
      match FetchHairAnalyses(coll, uid)
      case Success(history) => Success([a] + history)
      case Failure(e) => Failure(e)
  {
    var doc := EncodeAnalysis(a, uid);
    assert ([doc] + coll)[1..] == coll;
    assert QueryByUser([doc] + coll, uid) == [doc] + QueryByUser(coll, uid);
    assert ([doc] + QueryByUser(coll, uid))[1..] == QueryByUser(coll, uid);
    DecodeEncodeAnalysis(a, uid);
  }

  /** Another user's analysis never shows up in, or breaks, this user's history. */
  lemma FetchIgnoresOtherUsers(coll: seq<Document>, a: HairAnalysis, uid: string, other: string)
    requires other != uid
    ensures FetchHairAnalyses(SaveHairAnalysis(coll, a, other), uid) == FetchHairAnalyses(coll, uid)
  {
    assert ([EncodeAnalysis(a, other)] + coll)[1..] == coll;
  }

  /** A score key missing from the stored score map reads as zero; the other six
      scores are read as stored. */
  lemma MissingScoreReadsZero(s: CategoryScores, key: string)
    requires key in ScoreKeys
    ensures AsDoubleFields(Fields(EncodeScores(s) - {key})).Some?
    ensures DecodeScores(AsDoubleFields(Fields(EncodeScores(s) - {key})).value) == WithScore(s, key, 0.0)
  {
    var m := EncodeScores(s) - {key};
    assert forall k :: k in m ==> m[k].Double?;
    var d := AsDoubleFields(Fields(m)).value;
    assert d.Keys == m.Keys && key !in d;
    assert forall k :: k in d ==> Double(d[k]) == m[k];
  }

  /** The product fields. */
  const ProductKeys: seq<string> := ["category", "name", "reason"]

  /** `p` with the field under `key` replaced by `v`. */
  function WithProductField(p: ProductRecommendation, key: string, v: string): ProductRecommendation
    requires key in ProductKeys
  {
    match key
    case "category" => p.(category := v)
    case "name" => p.(name := v)
    case _ => p.(reason := v)
  }

  /** A product field missing from a stored product reads as the empty string. */
  lemma MissingProductFieldReadsEmpty(p: ProductRecommendation, key: string)
    requires key in ProductKeys
    ensures AsStringFields(Fields(EncodeProduct(p) - {key})).Some?
    ensures DecodeProduct(AsStringFields(Fields(EncodeProduct(p) - {key})).value) == WithProductField(p, key, "")
  {
  }

  /** Top-level fields without which a document is rejected. */
  const RequiredTopKeys: seq<string> := ["ratings", "recommendations", "overallScore"]

  /** The reader looks only at its four top-level fields: adding, changing or
      removing any other field (the owner's `userId`, say) leaves the result alone. */
  lemma OtherFieldsIgnored(doc: Document, key: string, v: Value)
    requires key !in {"ratings", "recommendations", "overallScore", "date"}
    ensures DecodeAnalysis(doc[key := v]) == DecodeAnalysis(doc)
    ensures DecodeAnalysis(doc - {key}) == DecodeAnalysis(doc)
  {
    var d1, d2 := doc[key := v], doc - {key};
    assert Get(d1, "ratings") == Get(doc, "ratings") && Get(d2, "ratings") == Get(doc, "ratings");
    assert Get(d1, "recommendations") == Get(doc, "recommendations") && Get(d2, "recommendations") == Get(doc, "recommendations");
    assert Get(d1, "overallScore") == Get(doc, "overallScore") && Get(d2, "overallScore") == Get(doc, "overallScore");
    assert Get(d1, "date") == Get(doc, "date") && Get(d2, "date") == Get(doc, "date");
  }

  /** A score stored as an integer is read as that number (the reader's
      `as? [String: Double]` accepts it), and the other scores are unaffected. */
  lemma IntegerScoreAccepted(s: CategoryScores, key: string, n: int)
    requires key in ScoreKeys
    ensures AsDoubleFields(Fields(EncodeScores(s)[key := Integer(n)])).Some?
    ensures DecodeScores(AsDoubleFields(Fields(EncodeScores(s)[key := Integer(n)])).value) == WithScore(s, key, n as real)
  {
    var m := EncodeScores(s)[key := Integer(n)];
    assert forall k :: k in m ==> AsDouble(m[k]).Some?;
    var dm := AsDoubleFields(Fields(m)).value;
    assert dm.Keys == EncodeScores(s).Keys;
    assert dm[key] == n as real;
    assert forall k :: k in dm && k != key ==> dm[k] == AsDouble(EncodeScores(s)[k]).value;
  }

  /** A saved document that lost a required top-level field is rejected. */
  lemma MissingTopFieldFails(a: HairAnalysis, uid: string, key: string)
    requires key in RequiredTopKeys
    ensures DecodeAnalysis(EncodeAnalysis(a, uid) - {key}) == Failure(InvalidDocumentFormat)
  {
    var doc := EncodeAnalysis(a, uid) - {key};
    assert key !in doc;
  }

  /** A saved document whose `ratings` lost `thickness`, `health` or `scores`, or
      whose `recommendations` lost `products`, `techniques` or `lifestyle`, is rejected. */
  lemma MissingNestedFieldFails(a: HairAnalysis, uid: string, key: string)
    requires key in ["thickness", "health", "scores", "products", "techniques", "lifestyle"]
    ensures var doc := EncodeAnalysis(a, uid);
      var parent := if key in ["thickness", "health", "scores"] then "ratings" else "recommendations";
      DecodeAnalysis(doc[parent := Fields(doc[parent].fields - {key})]) == Failure(InvalidDocumentFormat)
  {
  }

  /** A document without a `date` is not returned by the date-ordered query at all,
      so it neither appears in nor breaks the history. */
  lemma UndatedDocumentSkipped(coll: seq<Document>, doc: Document, uid: string)
    requires "date" !in doc
    ensures FetchHairAnalyses([doc] + coll, uid) == FetchHairAnalyses(coll, uid)
  {
    assert ([doc] + coll)[1..] == coll;
  }

  /** One matching document that the reader rejects makes the whole history
      read fail, rather than being skipped. */
  lemma BadDocumentFailsFetch(coll: seq<Document>, uid: string, j: nat)
    requires j < |coll|
    requires InQuery(coll[j], uid)
    requires DecodeAnalysis(coll[j]).Failure?
    ensures FetchHairAnalyses(coll, uid) == Failure(InvalidDocumentFormat)
  {
    var r := FetchHairAnalyses(coll, uid);
    assert !(0 <= j < |coll| && InQuery(coll[j], uid) ==> DecodeAnalysis(coll[j]).Success?);
    assert r.Failure?;
    assert r.error.InvalidDocumentFormat?;
    assert r == Failure(r.error);
  }
}
