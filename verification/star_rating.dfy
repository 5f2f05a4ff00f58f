/** The five-star row shown for a category score, and the lookup from category
    key to score that feeds it. */
module StarRating {
  import opened Wrappers

  datatype StarImage = HalfStar | FullStar | EmptyStar

  /** The system image each star is drawn with. */
  function SystemName(img: StarImage): string {
    match img
    case HalfStar => "star.leadinghalf.filled"
    case FullStar => "star.fill"
    case EmptyStar => "star"
  }

  /** Each star kind is drawn with its own image. */
  lemma SystemNamesDistinct(a: StarImage, b: StarImage)
    ensures SystemName(a) == SystemName(b) <==> a == b
  {
    assert SystemName(HalfStar)[4] == '.' && SystemName(FullStar)[4] == '.';
    assert SystemName(HalfStar)[5] != SystemName(FullStar)[5];
  }

  const StarCount: nat := 5

  /** `starImageName(for:at:)`: a half star only on an exact match with
      `index + 0.5`, otherwise full below the score and empty from it on. */
  function StarImageFor(score: real, index: int): (img: StarImage)
    ensures img == HalfStar <==> score == index as real + 0.5
    ensures img == FullStar <==> index as real < score && score != index as real + 0.5
    ensures img == EmptyStar <==> score <= index as real
  {
    if index as real + 0.5 == score then HalfStar
    else if (index as real) < score then FullStar
    else EmptyStar
  }

  /** The row of stars for `score`, indices 0 to 4. */
  function Stars(score: real): (row: seq<StarImage>)
    ensures |row| == StarCount
    ensures forall i :: 0 <= i < StarCount ==> row[i] == StarImageFor(score, i)
  {
    seq(StarCount, i requires 0 <= i < StarCount => StarImageFor(score, i))
  }

  /** A score of the form k + 0.5 with k one of the star indices 0 to 4. */
  predicate IsHalfStep(score: real) {
    var k := score - 0.5;
    k.Floor as real == k && 0 <= k.Floor < StarCount
  }

  /** A row never shows two half stars, and shows one exactly for a half-step score. */
  lemma AtMostOneHalfStar(score: real)
    ensures forall i, j :: 0 <= i < j < StarCount ==> !(Stars(score)[i] == HalfStar && Stars(score)[j] == HalfStar)
    ensures (exists i :: 0 <= i < StarCount && Stars(score)[i] == HalfStar) <==> IsHalfStep(score)
  {
    if IsHalfStep(score) {
      var i := (score - 0.5).Floor;
      assert Stars(score)[i] == HalfStar;
    }
  }

  /** A whole score k from 0 to 5 fills the first k stars and leaves the rest empty. */
  lemma WholeScoreStars(k: int)
    requires 0 <= k <= StarCount
    ensures var row := Stars(k as real);
      forall i :: 0 <= i < StarCount ==> row[i] == (if i < k then FullStar else EmptyStar)
  {
  }

  function Count(row: seq<StarImage>, img: StarImage): nat {
    if row == [] then 0 else (if row[0] == img then 1 else 0) + Count(row[1..], img)
  }

  /** How many of the indices below `n` lie strictly below `score`. */
  function IndicesBelow(score: real, n: nat): nat {
    if n == 0 then 0 else IndicesBelow(score, n - 1) + (if ((n - 1) as real) < score then 1 else 0)
  }

  lemma {:induction false} CountAppend(row: seq<StarImage>, img: StarImage, last: StarImage)
    ensures Count(row + [last], img) == Count(row, img) + (if last == img then 1 else 0)
    decreases |row|
  {
    if row == [] {
      assert [] + [last] == [last];
    } else {
      assert (row + [last])[1..] == row[1..] + [last];
      CountAppend(row[1..], img, last);
    }
  }

  /** Away from half steps, the full stars are exactly the indices below the score,
      so a score of 3.3 shows four full stars. */
  lemma {:induction false} FullStarsCountIndicesBelow(score: real, n: nat)
    requires n <= StarCount
    requires !IsHalfStep(score)
    ensures Count(Stars(score)[..n], FullStar) == IndicesBelow(score, n)
    decreases n
  {
    if n > 0 {
      FullStarsCountIndicesBelow(score, n - 1);
      assert Stars(score)[..n] == Stars(score)[..n - 1] + [Stars(score)[n - 1]];
      CountAppend(Stars(score)[..n - 1], FullStar, Stars(score)[n - 1]);
    }
  }

  lemma ThreePointThreeShowsFourStars()
    ensures Count(Stars(3.3), FullStar) == 4
  {
    FullStarsCountIndicesBelow(3.3, StarCount);
    assert Stars(3.3)[..StarCount] == Stars(3.3);
  }

  /** The scores of the star list, keyed as that list keys them. */
  datatype StarScores = StarScores(
    moisture: real,
    damage: real,
    scalp: real,
    breakage: real,
    shine: real,
    porosity: real,
    elasticity: real)

  /** The categories the star list shows, in display order. */
  const Categories: seq<string> := ["moisture", "damage", "scalp", "breakage", "shine", "porosity", "elasticity"]

  /** `scoreFor(_:)`: every listed category has a score, so every row of the
      list is shown, and any other key has none. */
  function ScoreFor(scores: StarScores, category: string): (r: Option<real>)
    ensures r.Some? <==> category in Categories
  {
    match category
    case "moisture" => Some(scores.moisture)
    case "damage" => Some(scores.damage)
    case "scalp" => Some(scores.scalp)
    case "breakage" => Some(scores.breakage)
    case "shine" => Some(scores.shine)
    case "porosity" => Some(scores.porosity)
    case "elasticity" => Some(scores.elasticity)
    case _ => None
  }

  /** The seven rows read seven different fields. */
  lemma ScoreForReadsEachField(scores: StarScores)
    ensures var values := seq(|Categories|, k requires 0 <= k < |Categories| => ScoreFor(scores, Categories[k]));
      values == [Some(scores.moisture), Some(scores.damage), Some(scores.scalp), Some(scores.breakage),
                 Some(scores.shine), Some(scores.porosity), Some(scores.elasticity)]
  {
  }
}
