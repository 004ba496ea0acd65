/** The tap anomaly-threshold pair: the warning and alarm levels two and
    three population standard deviations above the mean of the scores. */
module TapThreshold {
  import opened Common
  import opened Stats

  /** The `anomaly_threshold` setter applied to a non-empty score vector. */
  function AnomalyThreshold(scores: seq<real>, std: seq<real> -> real): (t: (real, real))
    requires |scores| > 0 && IsPopulationStd(std)
    ensures Mean(scores) <= t.0 <= t.1
    ensures (t.0 - Mean(scores)) * (t.0 - Mean(scores)) == 4.0 * Variance(scores)
    ensures 2.0 * (t.1 - t.0) == t.0 - Mean(scores)
  {
    StdOf(scores, std);
    var mean := Mean(scores);
    var deviation := std(scores);
    (mean + 2.0 * deviation, mean + 3.0 * deviation)
  }

  /** Identical scores leave no margin: both levels are the common score. */
  lemma IdenticalScores(scores: seq<real>, c: real, std: seq<real> -> real)
    requires |scores| > 0 && Constant(scores, c) && IsPopulationStd(std)
    ensures AnomalyThreshold(scores, std) == (c, c)
  {
    MeanConstant(scores, c);
    StdConstant(scores, c, std);
  }

  /** A pair of values given to the setter is summarised again: its midpoint
      plus two and three half-distances. */
  lemma PairThreshold(a: real, b: real, std: seq<real> -> real)
    requires IsPopulationStd(std)
    ensures AnomalyThreshold([a, b], std) == ((a + b) / 2.0 + Abs(a - b), (a + b) / 2.0 + 1.5 * Abs(a - b))
  {
    VariancePair(a, b);
    StdPair(a, b, std);
  }

  /** Consequently a stored pair of distinct levels does not survive being
      assigned back through the setter: both levels move up. */
  lemma StoredPairMoves(lo: real, hi: real, std: seq<real> -> real)
    requires IsPopulationStd(std) && lo < hi
    ensures AnomalyThreshold([lo, hi], std).0 > hi
    ensures AnomalyThreshold([lo, hi], std).1 > AnomalyThreshold([lo, hi], std).0
  {
    PairThreshold(lo, hi, std);
  }
}
