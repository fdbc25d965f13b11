/**
 * The scoring helpers: the score a rank earns and the colour tier a rank is
 * shown with. Both are pure integer functions.
 */
module Score {
  import opened Wrappers

  /** Points granted per place between a rank and the last rank. */
  const PointsPerPlace := 20

  /**
   * `getScoreForRank`: no rank (undefined, or the falsy rank 0) scores
   * nothing; any other rank k scores 20 per place it lies above the last
   * rank, and rank 1 earns a further 20 points on top.
   */
  function ScoreForRank(rankPosition: Option<int>, totalCountries: int): (r: int)
    ensures rankPosition == None || rankPosition == Some(0) ==> r == 0
    ensures rankPosition == Some(1) ==> r == PointsPerPlace * totalCountries
    ensures rankPosition == Some(totalCountries) && totalCountries > 1 ==> r == 0
    ensures forall k :: rankPosition == Some(k) && 1 <= k <= totalCountries ==>
      r >= 0 && r % PointsPerPlace == 0
  {
    if rankPosition.None? || rankPosition.value == 0 then 0
    else if rankPosition.value == 1 then PointsPerPlace + PointsPerPlace * (totalCountries - rankPosition.value)
    else PointsPerPlace * (totalCountries - rankPosition.value)
  }

  /** A rank between 2 and the total scores 20 per place above the last rank. */
  lemma ScoreBelowFirst(k: int, total: int)
    requires 1 < k <= total
    ensures ScoreForRank(Some(k), total) == PointsPerPlace * (total - k)
  {
  }

  /** A better (smaller) rank always earns strictly more. */
  lemma ScoreStrictlyDecreasing(k: int, m: int, total: int)
    requires 1 <= k < m <= total
    ensures ScoreForRank(Some(k), total) > ScoreForRank(Some(m), total)
  {
  }

  /** The four colour tiers, best first: 🟩, 🟨, 🟧, 🟥. */
  datatype Tier = Green | Yellow | Orange | Red {
    /** The tier's place in the order best to worst. */
    function Index(): nat {
      match this
      case Green => 0
      case Yellow => 1
      case Orange => 2
      case Red => 3
    }

    /** The glyph `rankToColor` returns for this tier. */
    function Glyph(): string {
      match this
      case Green => "🟩"
      case Yellow => "🟨"
      case Orange => "🟧"
      case Red => "🟥"
    }
  }

  /**
   * `rankToColor`: the tier of the rank's relative position
   * `(rank - 1) / (total - 1)` with the cut points 0.2, 0.5 and 0.8. Because
   * `total - 1` is positive once `total >= 2`, each comparison is made by
   * cross-multiplying in integers.
   */
  function RankToColor(rank: int, total: int): (t: Tier)
    ensures total < 2 ==> t == Green
    ensures total >= 2 && rank == 1 ==> t == Green
    ensures total >= 2 && rank == total ==> t == Red
  {
    if total < 2 then Green
    else if 5 * (rank - 1) <= total - 1 then Green
    else if 2 * (rank - 1) <= total - 1 then Yellow
    else if 5 * (rank - 1) <= 4 * (total - 1) then Orange
    else Red
  }

  /** The same classification read over the real numbers, with the fraction written out. */
  function RankToColorReal(rank: int, total: int): Tier {
    if total < 2 then Green
    else
      var percent := (rank - 1) as real / (total - 1) as real;
      if percent <= 0.2 then Green
      else if percent <= 0.5 then Yellow
      else if percent <= 0.8 then Orange
      else Red
  }

  /** For a positive denominator, `x / d <= q` is `x <= q * d`. */
  lemma QuotientAtMost(x: real, d: real, q: real)
    requires d > 0.0
    ensures x / d <= q <==> x <= q * d
  {
    assert x == (x / d) * d;
    if x / d <= q {
      assert (x / d) * d <= q * d;
    } else {
      assert (x / d) * d > q * d;
    }
  }

  /** The integer classifier agrees with the fraction-based one on every input. */
  lemma RankToColorMatchesFraction(rank: int, total: int)
    ensures RankToColor(rank, total) == RankToColorReal(rank, total)
  {
    if total >= 2 {
      var x := (rank - 1) as real;
      var d := (total - 1) as real;
      QuotientAtMost(x, d, 0.2);
      QuotientAtMost(x, d, 0.5);
      QuotientAtMost(x, d, 0.8);
    }
  }

  /** At a fixed total, a larger rank is never shown with a better tier. */
  lemma RankToColorMonotone(rank1: int, rank2: int, total: int)
    requires rank1 <= rank2
    ensures RankToColor(rank1, total).Index() <= RankToColor(rank2, total).Index()
  {
  }

  /** The tiers, each as the condition that selects it. */
  lemma RankToColorTiers(rank: int, total: int)
    requires total >= 2
    ensures RankToColor(rank, total) == Green <==> 5 * (rank - 1) <= total - 1
    ensures RankToColor(rank, total) == Yellow <==> !(5 * (rank - 1) <= total - 1) && 2 * (rank - 1) <= total - 1
    ensures RankToColor(rank, total) == Orange <==>
      !(2 * (rank - 1) <= total - 1) && 5 * (rank - 1) <= 4 * (total - 1)
    ensures RankToColor(rank, total) == Red <==> 5 * (rank - 1) > 4 * (total - 1)
  {
  }
}
