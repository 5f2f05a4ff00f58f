/** The ring shown for one category score: the score brought onto 0..100 (with
    damage and frizz turned around so that higher is better) and the colour band
    the ring is drawn in. */
module ScoreDisplay {
  import opened Text

  /** `min(100, max(0, x))`. */
  function Clamp(x: real): (r: real)
    ensures 0.0 <= r <= 100.0
    ensures 0.0 <= x <= 100.0 ==> r == x
    ensures x < 0.0 ==> r == 0.0
    ensures x > 100.0 ==> r == 100.0
  {
    var low := if x > 0.0 then x else 0.0;
    if low < 100.0 then low else 100.0
  }

  /** Labels whose scores count higher-is-worse, compared after lower-casing. */
  predicate IsInvertedLabel(labelText: string) {
    Lower(labelText) == "damage" || Lower(labelText) == "frizz"
  }

  /** The score turned so that higher is better. */
  function Oriented(labelText: string, score: real): real {
    if IsInvertedLabel(labelText) then 100.0 - score else score
  }

  /** `normalizedScore`: the oriented score clamped to 0..100 and converted to an
      integer, which for a value in that range is its floor. */
  function NormalizedScore(labelText: string, score: real): (r: int)
    ensures 0 <= r <= 100
    ensures r as real <= Clamp(Oriented(labelText, score)) < r as real + 1.0
  {
    Clamp(Oriented(labelText, score)).Floor
  }

  datatype Gradient = RedOrange | OrangeYellow | GreenMint

  /** `scoreGradient`: 0..<40, 40..<70, everything else; a negative value, which
      the normalised score never is, falls to the default band. */
  function ScoreGradient(n: int): (g: Gradient)
    ensures g == RedOrange <==> 0 <= n < 40
    ensures g == OrangeYellow <==> 40 <= n < 70
    ensures g == GreenMint <==> n < 0 || n >= 70
  {
    if 0 <= n < 40 then RedOrange
    else if 40 <= n < 70 then OrangeYellow
    else GreenMint
  }

  /** Labels that agree after lower-casing are treated alike. */
  lemma LabelCaseIrrelevant(a: string, b: string, score: real)
    requires Lower(a) == Lower(b)
    ensures NormalizedScore(a, score) == NormalizedScore(b, score)
  {
  }

  lemma DamageInAnyCase(score: real)
    ensures NormalizedScore("Damage", score) == NormalizedScore("damage", score)
    ensures NormalizedScore("DAMAGE", score) == NormalizedScore("damage", score)
    ensures NormalizedScore("Frizz", score) == NormalizedScore("frizz", score)
  {
    assert Lower("Damage") == "damage";
    assert Lower("DAMAGE") == "damage";
    assert Lower("Frizz") == "frizz";
  }

  /** Floor is monotone. */
  lemma FloorMonotone(x: real, y: real)
    requires x <= y
    ensures x.Floor <= y.Floor
  {
  }

  /** The displayed score follows the raw score for ordinary labels and moves
      against it for damage and frizz. */
  lemma NormalizedScoreMonotone(labelText: string, s: real, t: real)
    requires s <= t
    ensures !IsInvertedLabel(labelText) ==> NormalizedScore(labelText, s) <= NormalizedScore(labelText, t)
    ensures IsInvertedLabel(labelText) ==> NormalizedScore(labelText, s) >= NormalizedScore(labelText, t)
  {
    if IsInvertedLabel(labelText) {
      FloorMonotone(Clamp(Oriented(labelText, t)), Clamp(Oriented(labelText, s)));
    } else {
      FloorMonotone(Clamp(Oriented(labelText, s)), Clamp(Oriented(labelText, t)));
    }
  }

  /** A whole-number score in range is shown as is, or as its complement to 100
      for damage and frizz. */
  lemma WholeScoresShownExactly(labelText: string, k: int)
    requires 0 <= k <= 100
    ensures NormalizedScore(labelText, k as real) == if IsInvertedLabel(labelText) then 100 - k else k
  {
  }

  /** Out-of-range scores stick to the ends of the ring. */
  lemma OutOfRangeScores(labelText: string, score: real)
    requires !IsInvertedLabel(labelText)
    ensures score < 0.0 ==> NormalizedScore(labelText, score) == 0
    ensures score > 100.0 ==> NormalizedScore(labelText, score) == 100
  {
  }

  /** On the displayed range the three colour bands split 0..100 at 40 and 70. */
  lemma GradientBands(labelText: string, score: real)
    ensures var n := NormalizedScore(labelText, score);
      && (ScoreGradient(n) == RedOrange <==> n < 40)
      && (ScoreGradient(n) == OrangeYellow <==> 40 <= n < 70)
      && (ScoreGradient(n) == GreenMint <==> 70 <= n)
  {
  }
}
