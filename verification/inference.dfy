/** The test screen's online scoring. In rub mode every timer tick scores
    the latest audio block through the calibrated chain, records the score
    and asks for a snapshot when it exceeds the high band; in tap mode every
    triggered sample is scored by the tap pipeline and compared with the
    alarm level of the anomaly-threshold pair. */
module Inference {
  import opened Common
  import opened Accumulator
  import opened RubScores

  /** The screen and model flags the rub handler checks, in order. */
  datatype RubGuards = RubGuards(
    audioStream: bool,
    inTestWindow: bool,
    tappingMode: bool,
    inferring: bool,
    rubTrained: bool)

  /** What a rub tick did: nothing, an error shown (the GMM scoring raised),
      or a recorded score with the snapshot decision. */
  datatype RubOutcome = Skipped | Failed | Scored(anomaly: real, snapshot: bool)

  predicate RubReady(g: RubGuards)
  {
    g.audioStream && g.inTestWindow && !g.tappingMode && g.inferring && g.rubTrained
  }

  /** `handle_rub_inference`. `block` is the latest audio block (None when
      there is none); `raw` is what `compute_rub_anomaly` returned for it
      (None when it raised). Returns the outcome and the score history. */
  function HandleRubInference(g: RubGuards, c: Calibration, history: seq<real>, historySize: int,
                              block: Option<seq<real>>, raw: Option<real>): (r: (RubOutcome, seq<real>))
    ensures r.0.Scored? <==> RubReady(g) && block.Some? && |block.value| > 0 && raw.Some?
    ensures r.0.Failed? <==> RubReady(g) && block.Some? && |block.value| > 0 && raw.None?
    ensures !r.0.Scored? ==> r.1 == history
    ensures r.0.Scored? ==>
              && r.0.anomaly >= 0.0
              && r.0.anomaly == RubAnomaly(c, raw.value)
              && r.1 == RecordScore(history, r.0.anomaly, historySize)
              && (r.0.snapshot <==> r.0.anomaly > ThresholdOffsets(c).2)
  {
    if !(g.audioStream && g.inTestWindow) then (Skipped, history)
    else if g.tappingMode || !g.inferring || !g.rubTrained then (Skipped, history)
    else if block.None? || |block.value| == 0 then (Skipped, history)
    else
      match raw
      case None => (Failed, history)
      case Some(score) =>
        var anomaly := RubAnomaly(c, score);
        var high := ThresholdOffsets(c).2;
        (Scored(anomaly, anomaly > high), RecordScore(history, anomaly, historySize))
  }

  /** With the floor out of play, a rub snapshot is taken exactly when the
      pretrain-standardised raw score exceeds the train mean by more than the
      high offset. */
  lemma RubSnapshotRule(g: RubGuards, c: Calibration, history: seq<real>, historySize: int,
                        block: seq<real>, raw: real)
    requires RubReady(g) && |block| > 0 && Abs(c.trainStd) > StdFloor
    ensures HandleRubInference(g, c, history, historySize, Some(block), Some(raw)).0.snapshot
            <==> StandardizePretrain(c, raw) - c.trainMean > ThresholdOffsets(c).2
  {
  }

  /** A higher raw score never turns a rub snapshot off. */
  lemma RubSnapshotMonotone(g: RubGuards, c: Calibration, history: seq<real>, historySize: int,
                            block: seq<real>, raw1: real, raw2: real)
    requires RubReady(g) && |block| > 0
    requires c.pretrainStd >= 0.0 && c.trainStd >= 0.0 && raw1 <= raw2
    requires HandleRubInference(g, c, history, historySize, Some(block), Some(raw1)).0.snapshot
    ensures HandleRubInference(g, c, history, historySize, Some(block), Some(raw2)).0.snapshot
  {
    RubAnomalyMonotone(c, raw1, raw2);
  }

  /** The screen flags the tap handler checks. */
  datatype TapGuards = TapGuards(tappingMode: bool, audioStream: bool, inTestWindow: bool)

  /** What a triggered sample did: nothing; an exception (the pipeline was
      never fitted, or the anomaly pair is None after the score was stored);
      or a score with the snapshot decision. */
  datatype TapOutcome = TapSkipped | TapFailed(stored: Option<real>) | TapScored(score: real, snapshot: bool)

  /** `handle_test_data`. The sample is scored as one row by the tap
      pipeline fitted on `fittedOn`; the snapshot compares with the last
      element of the pair, strictly. */
  function HandleTestData(g: TapGuards, sample: seq<real>, fittedOn: Option<Matrix>,
                          transform: (Matrix, Matrix) -> seq<real>,
                          anomalyThreshold: Option<(real, real)>): (o: TapOutcome)
    ensures !g.tappingMode || !(g.audioStream && g.inTestWindow) <==> o.TapSkipped?
    ensures o.TapScored? <==>
              g.tappingMode && g.audioStream && g.inTestWindow && fittedOn.Some?
              && |transform(fittedOn.value, [sample])| > 0 && anomalyThreshold.Some?
    ensures o.TapScored? ==>
              && o.score == transform(fittedOn.value, [sample])[0]
              && (o.snapshot <==> o.score > anomalyThreshold.value.1)
    ensures o.TapFailed? && o.stored.Some? ==> anomalyThreshold.None?
  {
    if !g.tappingMode then TapSkipped
    else if !(g.audioStream && g.inTestWindow) then TapSkipped
    else
      match fittedOn
      case None => TapFailed(None)
      case Some(f) =>
        var scores := transform(f, [sample]);
        if |scores| == 0 then TapFailed(None)
        else
          var anomaly := scores[0];
          match anomalyThreshold
          case None => TapFailed(Some(anomaly))
          case Some(pair) => TapScored(anomaly, anomaly > pair.1)
  }

  /** A score equal to the alarm level is not an anomaly; anything above it
      is. */
  lemma TapSnapshotIsStrict(g: TapGuards, sample: seq<real>, f: Matrix,
                            transform: (Matrix, Matrix) -> seq<real>, low: real, high: real)
    requires g.tappingMode && g.audioStream && g.inTestWindow
    requires |transform(f, [sample])| > 0
    ensures transform(f, [sample])[0] == high ==>
              !HandleTestData(g, sample, Some(f), transform, Some((low, high))).snapshot
    ensures transform(f, [sample])[0] > high ==>
              HandleTestData(g, sample, Some(f), transform, Some((low, high))).snapshot
  {
  }
}
