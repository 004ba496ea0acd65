/** The rub workflow's score arithmetic: the two-stage standardisation with a
    floored standard deviation, the zero-anchored online anomaly, the sigma
    band offsets, the bounded score history and its colour banding. */
module RubScores {
  import opened Common

  /** Pretrain and train score statistics and the three sigma bands. */
  datatype Calibration = Calibration(
    pretrainMean: real,
    pretrainStd: real,
    trainMean: real,
    trainStd: real,
    bands: (real, real, real))

  /** The values the model starts with. */
  const Initial: Calibration := Calibration(0.0, 1.0, 0.0, 1.0, (0.0, 0.0, 0.0))

  /** 1e-8: the smallest magnitude a divisor may have. */
  const StdFloor: real := 0.00000001

  /** Default length of the score history, and of the plotted tail. */
  const HistorySize: int := 50
  const DisplayCount: int := 20

  /** `_safe_std`: a standard deviation too close to zero is replaced by 1e-8,
      so the result is never zero and never smaller in magnitude than 1e-8. */
  function SafeStd(std: real): (r: real)
    ensures r != 0.0 && Abs(r) >= StdFloor
    ensures std >= 0.0 ==> r > 0.0
    ensures Abs(std) > StdFloor ==> r == std
    ensures Abs(std) <= StdFloor ==> r == StdFloor
  {
    if Abs(std) > StdFloor then std else StdFloor
  }

  /** `standardize_pretrain`: the score in units of the (floored) pretrain
      deviation from the pretrain mean. Scaling back recovers the score, and
      a score above the mean stays above zero. */
  function StandardizePretrain(c: Calibration, score: real): (z: real)
    ensures z * SafeStd(c.pretrainStd) + c.pretrainMean == score
    ensures c.pretrainStd >= 0.0 ==> (z >= 0.0 <==> score >= c.pretrainMean)
  {
    (score - c.pretrainMean) / SafeStd(c.pretrainStd)
  }

  /** `standardize_training`: the same against the training statistics. */
  function StandardizeTraining(c: Calibration, score: real): (z: real)
    ensures z * SafeStd(c.trainStd) + c.trainMean == score
    ensures c.trainStd >= 0.0 ==> (z >= 0.0 <==> score >= c.trainMean)
  {
    (score - c.trainMean) / SafeStd(c.trainStd)
  }

  /** `denormalize_training`: back from training units to a raw score;
      standardising against an unfloored deviation undoes it. */
  function DenormalizeTraining(c: Calibration, z: real): (score: real)
    ensures c.trainStd != 0.0 ==> (score - c.trainMean) / c.trainStd == z
  {
    z * c.trainStd + c.trainMean
  }

  /** Denormalising undoes training standardisation, and the other way round,
      whenever the train standard deviation is not floored. */
  lemma TrainingRoundTrip(c: Calibration, x: real, z: real)
    requires Abs(c.trainStd) > StdFloor
    ensures DenormalizeTraining(c, StandardizeTraining(c, x)) == x
    ensures StandardizeTraining(c, DenormalizeTraining(c, z)) == z
  {
  }

  /** The online rub anomaly: raw score, pretrain standardisation, training
      standardisation, denormalisation, minus the train mean, floored at 0. */
  function RubAnomaly(c: Calibration, raw: real): (a: real)
    ensures a >= 0.0
    ensures Abs(c.trainStd) > StdFloor ==>
              a == MaxReal(StandardizePretrain(c, raw) - c.trainMean, 0.0)
  {
    var standardized := StandardizePretrain(c, raw);
    var normalized := StandardizeTraining(c, standardized);
    var absolute := DenormalizeTraining(c, normalized);
    if Abs(c.trainStd) > StdFloor then
      TrainingRoundTrip(c, standardized, 0.0);
      MaxReal(absolute - c.trainMean, 0.0)
    else
      MaxReal(absolute - c.trainMean, 0.0)
  }

  lemma DivideMonotone(x: real, y: real, d: real)
    requires x <= y && d > 0.0
    ensures x / d <= y / d
  {
  }

  lemma ScaleMonotone(x: real, y: real, k: real)
    requires x <= y && k >= 0.0
    ensures x * k <= y * k
  {
  }

  /** The anomaly unfolded: the chain of RubAnomaly, step by step. */
  lemma RubAnomalyChain(c: Calibration, raw: real)
    ensures RubAnomaly(c, raw)
            == MaxReal(DenormalizeTraining(c, StandardizeTraining(c, StandardizePretrain(c, raw))) - c.trainMean, 0.0)
  {
  }

  lemma MaxRealMonotone(x: real, y: real, floor: real)
    requires x <= y
    ensures MaxReal(x, floor) <= MaxReal(y, floor)
  {
  }

  lemma StandardizePretrainMonotone(c: Calibration, x: real, y: real)
    requires c.pretrainStd >= 0.0 && x <= y
    ensures StandardizePretrain(c, x) <= StandardizePretrain(c, y)
  {
    DivideMonotone(x - c.pretrainMean, y - c.pretrainMean, SafeStd(c.pretrainStd));
  }

  lemma StandardizeTrainingMonotone(c: Calibration, x: real, y: real)
    requires c.trainStd >= 0.0 && x <= y
    ensures StandardizeTraining(c, x) <= StandardizeTraining(c, y)
  {
    DivideMonotone(x - c.trainMean, y - c.trainMean, SafeStd(c.trainStd));
  }

  lemma DenormalizeTrainingMonotone(c: Calibration, x: real, y: real)
    requires c.trainStd >= 0.0 && x <= y
    ensures DenormalizeTraining(c, x) <= DenormalizeTraining(c, y)
  {
    ScaleMonotone(x, y, c.trainStd);
  }

  /** With non-negative standard deviations (as numpy produces them) the
      anomaly never decreases as the raw score grows. */
  lemma RubAnomalyMonotone(c: Calibration, raw1: real, raw2: real)
    requires c.pretrainStd >= 0.0 && c.trainStd >= 0.0
    requires raw1 <= raw2
    ensures RubAnomaly(c, raw1) <= RubAnomaly(c, raw2)
  {
    var p1 := StandardizePretrain(c, raw1);
    var p2 := StandardizePretrain(c, raw2);
    StandardizePretrainMonotone(c, raw1, raw2);
    var z1 := StandardizeTraining(c, p1);
    var z2 := StandardizeTraining(c, p2);
    StandardizeTrainingMonotone(c, p1, p2);
    var d1 := DenormalizeTraining(c, z1);
    var d2 := DenormalizeTraining(c, z2);
    DenormalizeTrainingMonotone(c, z1, z2);
    MaxRealMonotone(d1 - c.trainMean, d2 - c.trainMean, 0.0);
    RubAnomalyChain(c, raw1);
    RubAnomalyChain(c, raw2);
  }

  /** `rub_threshold_offsets`: the second and third bands measured from the
      train mean, floored at 0; the third value repeats the second offset. */
  function ThresholdOffsets(c: Calibration): (o: (real, real, real))
    ensures o.0 >= 0.0 && o.1 >= 0.0 && o.2 == o.1
    ensures c.bands.1 >= c.trainMean ==> o.0 == c.bands.1 - c.trainMean
    ensures c.bands.1 < c.trainMean ==> o.0 == 0.0
    ensures c.bands.2 >= c.trainMean ==> o.1 == c.bands.2 - c.trainMean
    ensures c.bands.2 < c.trainMean ==> o.1 == 0.0
  {
    var zeroPoint := c.trainMean;
    var low := MaxReal(c.bands.1 - zeroPoint, 0.0);
    var medium := MaxReal(c.bands.2 - zeroPoint, 0.0);
    (low, medium, medium)
  }

  /** When the bands are the train mean plus one, two and three standard
      deviations, the offsets are two and three standard deviations. */
  lemma SigmaBandOffsets(c: Calibration)
    requires c.trainStd >= 0.0
    requires c.bands == (c.trainMean + c.trainStd, c.trainMean + 2.0 * c.trainStd,
                         c.trainMean + 3.0 * c.trainStd)
    ensures ThresholdOffsets(c) == (2.0 * c.trainStd, 3.0 * c.trainStd, 3.0 * c.trainStd)
    ensures ThresholdOffsets(c).0 <= ThresholdOffsets(c).1
  {
  }

  /** `record_rub_anomaly_score`: append, then keep only the last
      `historySize` scores once there are more than that. A size of 0 keeps
      everything, because Python's `s[-0:]` is the whole list. */
  function RecordScore(history: seq<real>, score: real, historySize: int): (r: seq<real>)
    ensures historySize >= 1 ==> r == (history + [score])[Max(0, |history| + 1 - historySize)..]
    ensures historySize == 0 ==> r == history + [score]
  {
    var appended := history + [score];
    if |appended| > historySize then PySliceFrom(appended, -historySize) else appended
  }

  function RecordScores(history: seq<real>, scores: seq<real>, historySize: int): seq<real>
    decreases |scores|
  {
    if |scores| == 0 then history
    else RecordScores(RecordScore(history, scores[0], historySize), scores[1..], historySize)
  }

  /** A history that respects its bound holds, after any run of scores, the
      most recent `historySize` of everything recorded, in order. */
  lemma {:induction false} RecordScoresKeepsMostRecent(history: seq<real>, scores: seq<real>, historySize: int)
    requires historySize >= 1 && |history| <= historySize
    ensures RecordScores(history, scores, historySize)
            == (history + scores)[Max(0, |history| + |scores| - historySize)..]
    decreases |scores|
  {
    if |scores| > 0 {
      var h1 := RecordScore(history, scores[0], historySize);
      assert RecordScores(history, scores, historySize) == RecordScores(h1, scores[1..], historySize);
      RecordScoresKeepsMostRecent(h1, scores[1..], historySize);
      SlideWindow(history, scores, historySize);
    }
  }

  /** `latest_rub_anomaly_scores`: nothing for a non-positive count or an
      empty history, otherwise the last `count` scores (all of them when
      there are fewer). A missing count means the history size. */
  function LatestScores(history: seq<real>, count: Option<int>, historySize: int): (r: seq<real>)
    ensures |r| <= |history| && r == history[|history| - |r|..]
    ensures var n := count.GetOr(historySize);
            && (n <= 0 ==> r == [])
            && (n > 0 ==> r == history[|history| - Min(n, |history|)..])
  {
    var n := count.GetOr(historySize);
    if n <= 0 || |history| == 0 then [] else PySliceFrom(history, -n)
  }

  datatype Colour = Blue | Yellow | Red

  /** The plotted colour of each band, distinct per band. */
  function Hex(c: Colour): (h: string)
    ensures |h| == 7 && h[0] == '#'
  {
    match c
    case Blue => "#2196F3"
    case Yellow => "#FFEB3B"
    case Red => "#F44336"
  }

  /** Different bands are plotted in different colours. */
  lemma HexInjective(a: Colour, b: Colour)
    requires Hex(a) == Hex(b)
    ensures a == b
  {
  }

  function Band(score: real, low: real, medium: real): Colour
  {
    if score < low then Blue else if score < medium then Yellow else Red
  }

  /** `_colorize_rub_scores`: one colour per score, using the first two
      threshold offsets. */
  function Colorize(c: Calibration, scores: seq<real>): (r: seq<Colour>)
    ensures |r| == |scores|
    ensures forall k :: 0 <= k < |scores| ==>
              && (r[k] == Blue <==> scores[k] < ThresholdOffsets(c).0)
              && (r[k] == Yellow <==> ThresholdOffsets(c).0 <= scores[k] < ThresholdOffsets(c).1)
              && (r[k] == Red <==> ThresholdOffsets(c).0 <= scores[k] && ThresholdOffsets(c).1 <= scores[k])
  {
    if |scores| == 0 then []
    else
      var (low, medium, _) := ThresholdOffsets(c);
      seq(|scores|, k requires 0 <= k < |scores| => Band(scores[k], low, medium))
  }

  /** What the plot shows: the latest scores, each with its position in the
      whole history and its colour as a hex string. */
  datatype Series = Series(indices: seq<int>, scores: seq<real>, colours: seq<string>)

  /** `latest_rub_anomaly_series`: the indices count up from the first
      plotted score's position in the history, and each colour is the hex
      code of the score's band. */
  function LatestSeries(c: Calibration, history: seq<real>, count: Option<int>, historySize: int): (s: Series)
    ensures |s.indices| == |s.scores| == |s.colours|
    ensures s.scores == LatestScores(history, count, historySize)
    ensures forall k :: 0 <= k < |s.indices| ==> s.indices[k] == |history| - |s.scores| + k
    ensures forall k :: 0 <= k < |s.indices| ==>
              0 <= s.indices[k] < |history| && history[s.indices[k]] == s.scores[k]
    ensures forall k :: 0 <= k < |s.colours| ==> s.colours[k] == Hex(Colorize(c, s.scores)[k])
  {
    var scores := LatestScores(history, count, historySize);
    var start := Max(0, |history| - |scores|);
    SuffixPositions(history, scores);
    var colours := Colorize(c, scores);
    var hexes := seq(|scores|, k requires 0 <= k < |scores| => Hex(colours[k]));
    Series(seq(|scores|, k => start + k), scores, hexes)
  }

  /** A suffix's k-th element sits at position len(all) - len(suffix) + k. */
  lemma SuffixPositions(all: seq<real>, suffix: seq<real>)
    requires |suffix| <= |all| && suffix == all[|all| - |suffix|..]
    ensures forall k :: 0 <= k < |suffix| ==> all[|all| - |suffix| + k] == suffix[k]
  {
  }
}
