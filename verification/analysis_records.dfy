/** The stored form of a hair analysis: the document `saveHairAnalysis` writes
    and the reader in `fetchHairAnalyses` that turns documents back into records. */
module AnalysisRecords {
  import opened Wrappers
  import opened Documents

  datatype CategoryScores = CategoryScores(
    moisture: real,
    damage: real,
    texture: real,
    frizz: real,
    shine: real,
    density: real,
    elasticity: real)

  datatype HairRatings = HairRatings(thickness: string, health: string, scores: CategoryScores)

  datatype ProductRecommendation = ProductRecommendation(category: string, name: string, reason: string)

  datatype Recommendations = Recommendations(
    products: seq<ProductRecommendation>,
    techniques: seq<string>,
    lifestyle: seq<string>)

  datatype HairAnalysis = HairAnalysis(
    ratings: HairRatings,
    overallScore: int,
    recommendations: Recommendations,
    date: int)

  /** The one error the reader raises, whatever field is missing or mistyped. */
  datatype FetchError = InvalidDocumentFormat

  /** The seven score keys, in the order the document lists them. */
  const ScoreKeys: seq<string> := ["moisture", "damage", "texture", "frizz", "shine", "density", "elasticity"]

  /** The score stored under `key`. */
  function ScoreOf(s: CategoryScores, key: string): real
    requires key in ScoreKeys
  {
    match key
    case "moisture" => s.moisture
    case "damage" => s.damage
    case "texture" => s.texture
    case "frizz" => s.frizz
    case "shine" => s.shine
    case "density" => s.density
    case _ => s.elasticity
  }

  /** `s` with the score under `key` replaced by `v`. */
  function WithScore(s: CategoryScores, key: string, v: real): CategoryScores
    requires key in ScoreKeys
  {
    match key
    case "moisture" => s.(moisture := v)
    case "damage" => s.(damage := v)
    case "texture" => s.(texture := v)
    case "frizz" => s.(frizz := v)
    case "shine" => s.(shine := v)
    case "density" => s.(density := v)
    case _ => s.(elasticity := v)
  }

  function EncodeScores(s: CategoryScores): map<string, Value> {
    map[
      "moisture" := Double(s.moisture),
      "damage" := Double(s.damage),
      "texture" := Double(s.texture),
      "frizz" := Double(s.frizz),
      "shine" := Double(s.shine),
      "density" := Double(s.density),
      "elasticity" := Double(s.elasticity)]
  }

  function EncodeProduct(p: ProductRecommendation): map<string, Value> {
    map["category" := Str(p.category), "name" := Str(p.name), "reason" := Str(p.reason)]
  }

  function EncodeStrings(xs: seq<string>): Value {
    Array(seq(|xs|, k requires 0 <= k < |xs| => Str(xs[k])))
  }

  /** The document `saveHairAnalysis(_:userId:)` writes: exactly five top-level
      fields, filed under its owner and dated, so the owner's query selects it. */
  function EncodeAnalysis(a: HairAnalysis, uid: string): (doc: Document)
    ensures doc.Keys == {"ratings", "overallScore", "recommendations", "date", "userId"}
    ensures doc["userId"] == Str(uid) && doc["date"] == Stamp(a.date)
    ensures InQuery(doc, uid)
    ensures forall other :: other != uid ==> !InQuery(doc, other)
  {
    var products := a.recommendations.products;
    map[
      "ratings" := Fields(map[
        "thickness" := Str(a.ratings.thickness),
        "health" := Str(a.ratings.health),
        "scores" := Fields(EncodeScores(a.ratings.scores))]),
      "overallScore" := Integer(a.overallScore),
      "recommendations" := Fields(map[
        "products" := Array(seq(|products|, k requires 0 <= k < |products| => Fields(EncodeProduct(products[k])))),
        "techniques" := EncodeStrings(a.recommendations.techniques),
        "lifestyle" := EncodeStrings(a.recommendations.lifestyle)]),
      "date" := Stamp(a.date),
      "userId" := Str(uid)]
  }

  /** A new analysis document; it is the newest, so it comes first in date order. */
  function SaveHairAnalysis(coll: seq<Document>, a: HairAnalysis, uid: string): (r: seq<Document>)
    ensures |r| == |coll| + 1
    ensures QueryByUser(r, uid) == [EncodeAnalysis(a, uid)] + QueryByUser(coll, uid)
    ensures forall other :: other != uid ==> QueryByUser(r, other) == QueryByUser(coll, other)
  {
    var doc := EncodeAnalysis(a, uid);
    assert ([doc] + coll)[1..] == coll;
    [doc] + coll
  }

  /** A score absent from the stored map reads as zero. */
  function ScoreOrZero(m: map<string, real>, key: string): real {
    if key in m then m[key] else 0.0
  }

  function DecodeScores(m: map<string, real>): CategoryScores {
    CategoryScores(
      ScoreOrZero(m, "moisture"),
      ScoreOrZero(m, "damage"),
      ScoreOrZero(m, "texture"),
      ScoreOrZero(m, "frizz"),
      ScoreOrZero(m, "shine"),
      ScoreOrZero(m, "density"),
      ScoreOrZero(m, "elasticity"))
  }

  /** A product field absent from the stored map reads as the empty string. */
  function TextOrEmpty(m: map<string, string>, key: string): string {
    if key in m then m[key] else ""
  }

  function DecodeProduct(m: map<string, string>): ProductRecommendation {
    ProductRecommendation(TextOrEmpty(m, "category"), TextOrEmpty(m, "name"), TextOrEmpty(m, "reason"))
  }

  /** The ten conditional casts of the reader's guard all succeed: the four
      top-level fields and the six nested ones, each present with its type. Other
      fields are not looked at, and numbers convert as the casts allow. */
  predicate WellFormedAnalysis(doc: Document) {
    && "ratings" in doc && AsFields(doc["ratings"]).Some?
    && "recommendations" in doc && AsFields(doc["recommendations"]).Some?
    && "overallScore" in doc && AsInt(doc["overallScore"]).Some?
    && "date" in doc && AsTimestamp(doc["date"]).Some?
    && WellFormedRatings(doc["ratings"].fields)
    && WellFormedRecommendations(doc["recommendations"].fields)
  }

  predicate WellFormedRatings(ratings: map<string, Value>) {
    && "thickness" in ratings && AsString(ratings["thickness"]).Some?
    && "health" in ratings && AsString(ratings["health"]).Some?
    && "scores" in ratings && AsDoubleFields(ratings["scores"]).Some?
  }

  predicate WellFormedRecommendations(recs: map<string, Value>) {
    && "products" in recs && AsStringFieldsArray(recs["products"]).Some?
    && "techniques" in recs && AsStringArray(recs["techniques"]).Some?
    && "lifestyle" in recs && AsStringArray(recs["lifestyle"]).Some?
  }

  /** The reader for one document: every required field present with its type,
      or `InvalidDocumentFormat`. */
  function DecodeAnalysis(doc: Document): (r: Result<HairAnalysis, FetchError>)
    ensures r.Success? <==> WellFormedAnalysis(doc)
    ensures r.Success? ==>
      && "ratings" in doc && "recommendations" in doc && "overallScore" in doc && "date" in doc
      && AsInt(doc["overallScore"]) == Some(r.value.overallScore)
      && doc["date"] == Stamp(r.value.date)
      && AsFields(doc["ratings"]).Some?
      && Get(AsFields(doc["ratings"]).value, "thickness") == Some(Str(r.value.ratings.thickness))
      && Get(AsFields(doc["ratings"]).value, "health") == Some(Str(r.value.ratings.health))
    ensures r.Success? ==>
      var ratings, recs := doc["ratings"].fields, doc["recommendations"].fields;
      && r.value.ratings.scores == DecodeScores(AsDoubleFields(ratings["scores"]).value)
      && r.value.recommendations.techniques == AsStringArray(recs["techniques"]).value
      && r.value.recommendations.lifestyle == AsStringArray(recs["lifestyle"]).value
      && var maps := AsStringFieldsArray(recs["products"]).value;
      && |r.value.recommendations.products| == |maps|
      && forall k :: 0 <= k < |maps| ==> r.value.recommendations.products[k] == DecodeProduct(maps[k])
  {
    var ratings := Get(doc, "ratings");
    if ratings.None? || AsFields(ratings.value).None? then Failure(InvalidDocumentFormat) else
    var r := AsFields(ratings.value).value;
    var thickness := Get(r, "thickness");
    var health := Get(r, "health");
    var scores := Get(r, "scores");
    var recs := Get(doc, "recommendations");
    var overall := Get(doc, "overallScore");
    var date := Get(doc, "date");
    if || thickness.None? || AsString(thickness.value).None?
       || health.None? || AsString(health.value).None?
       || scores.None? || AsDoubleFields(scores.value).None?
       || recs.None? || AsFields(recs.value).None?
    then Failure(InvalidDocumentFormat) else
    var rec := AsFields(recs.value).value;
    var products := Get(rec, "products");
    var techniques := Get(rec, "techniques");
    var lifestyle := Get(rec, "lifestyle");
    if || products.None? || AsStringFieldsArray(products.value).None?
       || techniques.None? || AsStringArray(techniques.value).None?
       || lifestyle.None? || AsStringArray(lifestyle.value).None?
       || overall.None? || AsInt(overall.value).None?
       || date.None? || AsTimestamp(date.value).None?
    then Failure(InvalidDocumentFormat) else
    var productMaps := AsStringFieldsArray(products.value).value;
    Success(HairAnalysis(
      HairRatings(
        AsString(thickness.value).value,
        AsString(health.value).value,
        DecodeScores(AsDoubleFields(scores.value).value)),
      AsInt(overall.value).value,
      Recommendations(
        seq(|productMaps|, k requires 0 <= k < |productMaps| => DecodeProduct(productMaps[k])),
        AsStringArray(techniques.value).value,
        AsStringArray(lifestyle.value).value),
      AsTimestamp(date.value).value))
  }

  /** A throwing `map`: applies `f` to every element in order and stops at the
      first failure. */
  function MapAll<A, B, E>(xs: seq<A>, f: A -> Result<B, E>): (r: Result<seq<B>, E>)
    ensures r.Success? <==> forall k :: 0 <= k < |xs| ==> f(xs[k]).Success?
    ensures r.Success? ==> |r.value| == |xs|
    ensures r.Success? ==> forall k :: 0 <= k < |xs| ==> f(xs[k]) == Success(r.value[k])
  {
    if xs == [] then Success([])
    else
      match f(xs[0])
      case Failure(e) => Failure(e)
      case Success(a) =>
        match MapAll(xs[1..], f)
        case Failure(e) => Failure(e)
        case Success(rest) => Success([a] + rest)
  }

  /** Decodes every document; one bad document makes the whole read fail. */
  function DecodeAll(docs: seq<Document>): (r: Result<seq<HairAnalysis>, FetchError>)
    ensures r.Success? <==> forall k :: 0 <= k < |docs| ==> DecodeAnalysis(docs[k]).Success?
    ensures r.Success? ==> |r.value| == |docs|
    ensures r.Success? ==> forall k :: 0 <= k < |docs| ==> DecodeAnalysis(docs[k]) == Success(r.value[k])
  {
    MapAll(docs, DecodeAnalysis)
  }

  /** `fetchHairAnalyses(userId:)`. */
  function FetchHairAnalyses(coll: seq<Document>, uid: string): (r: Result<seq<HairAnalysis>, FetchError>)
    ensures r.Success? <==> forall j :: 0 <= j < |coll| && InQuery(coll[j], uid) ==> DecodeAnalysis(coll[j]).Success?
    ensures r.Success? ==> |r.value| == |MatchPositions(coll, uid)|
    ensures r.Success? ==> forall k :: 0 <= k < |r.value| ==>
      DecodeAnalysis(coll[MatchPositions(coll, uid)[k]]) == Success(r.value[k])
  {
    QueryAll(coll, uid, d => DecodeAnalysis(d).Success?);
    var docs := QueryByUser(coll, uid);
    DecodeAll(docs)
  }
}
