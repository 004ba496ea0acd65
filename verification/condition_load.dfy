/** Restoring a saved tap calibration from the menu: after the user
    confirms and a record is read, both data sets are replaced, the trigger
    threshold and anomaly pair are taken from the record (or kept), the
    slider level is recomputed, and the trained/thresholded flags are
    re-derived from the loaded counts. */
module ConditionLoad {
  import opened Common
  import opened Stats
  import opened Accumulator
  import opened TapTraining
  import opened Registry
  import TapThreshold
  import Slider

  /** The stored anomaly threshold: the key may be missing, hold None (a
      calibration saved before thresholds existed), or hold a pair. */
  datatype StoredPair = Missing | NoneStored | Pair(low: real, high: real)

  /** The dictionary read from the file; None marks a missing key. */
  datatype Record = Record(
    trainData: Option<Matrix>,
    thresholdData: Option<Matrix>,
    triggerThreshold: Option<real>,
    anomalyThreshold: StoredPair)

  /** What the confirmation, the file dialog and the read produced. */
  datatype LoadInput = Declined | NoFile | ReadFailed | Read(record: Record)

  /** The state the load touches: the tap workflow, the trigger threshold
      and the slider level. */
  datatype Screen = Screen(tap: TapState, triggerThreshold: real, trigLevel: int)

  /** `loaded` is the method's return value; `errorShown` whether an error
      reached the view; `raised` whether an exception escaped midway. */
  datatype LoadResult = LoadResult(screen: Screen, loaded: bool, errorShown: bool, raised: bool)

  /** `numpy.atleast_2d` of the stored rows; a missing key is `[]`, which
      becomes one empty row. */
  function LoadedRows(stored: Option<Matrix>): (m: Matrix)
    ensures stored.None? ==> m == [[]] && Size(m) == 0
    ensures stored.Some? ==> m == stored.value
  {
    match stored
    case None => [[]]
    case Some(rows) => rows
  }

  /** The pair given to the anomaly setter: the stored one, else the
      current one, else (0, 0); a stored None reaches numpy and raises. */
  function PairToSet(stored: StoredPair, current: Option<(real, real)>): (p: Option<(real, real)>)
    ensures stored.NoneStored? <==> p.None?
    ensures stored.Pair? ==> p == Some((stored.low, stored.high))
    ensures stored.Missing? && current.Some? ==> p == current
    ensures stored.Missing? && current.None? ==> p == Some((0.0, 0.0))
  {
    match stored
    case Pair(lo, hi) => Some((lo, hi))
    case NoneStored => None
    case Missing => Some(current.GetOr((0.0, 0.0)))
  }

  /** `_load_condition`. */
  function LoadCondition(sc: Screen, input: LoadInput, trainTarget: nat, thresholdTarget: nat,
                         transform: (Matrix, Matrix) -> seq<real>, std: seq<real> -> real): (r: LoadResult)
    requires thresholdTarget >= 1 && OneScorePerRow(transform) && IsPopulationStd(std)
    ensures !input.Read? ==> r == LoadResult(sc, false, input != Declined, false)
    ensures r.loaded ==> input.Read? && !r.raised && !r.errorShown
    ensures input.Read? ==> (r.raised <==> !r.loaded) && (r.errorShown <==> r.raised)
    ensures input.Read? ==> r.screen.tap.detector == sc.tap.detector && r.screen.tap.listeners == sc.tap.listeners
    ensures r.loaded ==>
              var rec := input.record;
              var t := r.screen.tap;
              && t.trainData == LoadedRows(rec.trainData)
              && t.thresholdData == LoadedRows(rec.thresholdData)
              && r.screen.triggerThreshold == rec.triggerThreshold.GetOr(sc.triggerThreshold)
              && r.screen.trigLevel == Slider.ThresholdToLevel(Slider.Default, r.screen.triggerThreshold)
              && (t.trained <==> |t.trainData| == trainTarget)
              && (t.thresholded <==> |t.thresholdData| == thresholdTarget)
              && (t.trained ==> t.fittedOn == Some(t.trainData))
              && (!t.trained ==> t.fittedOn == sc.tap.fittedOn)
              && (t.thresholded ==> t.fittedOn.Some?)
              && !rec.anomalyThreshold.NoneStored?
              && (t.thresholded ==>
                    t.anomalyThreshold == Some(TapThreshold.AnomalyThreshold(transform(t.fittedOn.value, t.thresholdData), std)))
              && (!t.thresholded ==>
                    var p := PairToSet(rec.anomalyThreshold, sc.tap.anomalyThreshold).value;
                    t.anomalyThreshold == Some(TapThreshold.AnomalyThreshold([p.0, p.1], std)))
    ensures input.Read? && r.raised ==>
              var rec := input.record;
              || !Rectangular(LoadedRows(rec.trainData))
              || !Rectangular(LoadedRows(rec.thresholdData))
              || rec.anomalyThreshold.NoneStored?
              || (|LoadedRows(rec.thresholdData)| == thresholdTarget && r.screen.tap.fittedOn.None?)
  {
    match input
    case Declined => LoadResult(sc, false, false, false)
    case NoFile => LoadResult(sc, false, true, false)
    case ReadFailed => LoadResult(sc, false, true, false)
    case Read(rec) =>
      var t0 := DeleteTrain(DeleteThreshold(sc.tap));
      var train := LoadedRows(rec.trainData);
      var threshold := LoadedRows(rec.thresholdData);
      if !Rectangular(train) then LoadResult(sc.(tap := t0), false, true, true)
      else
        var t1 := t0.(trainData := train);
        if !Rectangular(threshold) then LoadResult(sc.(tap := t1), false, true, true)
        else
          var t2 := t1.(thresholdData := threshold);
          var trig := rec.triggerThreshold.GetOr(sc.triggerThreshold);
          match PairToSet(rec.anomalyThreshold, sc.tap.anomalyThreshold)
          case None => LoadResult(Screen(t2, trig, sc.trigLevel), false, true, true)
          case Some(p) =>
            var t3 := t2.(anomalyThreshold := Some(TapThreshold.AnomalyThreshold([p.0, p.1], std)));
            var level := Slider.ThresholdToLevel(Slider.Default, trig);
            var t4 := if |train| == trainTarget then t3.(fittedOn := Some(train), trained := true) else t3;
            if |threshold| == thresholdTarget then
              var t5 := t4.(thresholded := true);
              match t5.fittedOn
              case None => LoadResult(Screen(t5, trig, level), false, true, true)
              case Some(f) =>
                var scores := transform(f, threshold);
                assert |scores| == |threshold| > 0;
                var t6 := t5.(anomalyThreshold := Some(TapThreshold.AnomalyThreshold(scores, std)));
                LoadResult(Screen(t6, trig, level), true, false, false)
            else LoadResult(Screen(t4, trig, level), true, false, false)
  }

  /** Whatever was collected before, a successful load leaves the workflow
      consistent with the loaded counts. */
  lemma LoadConsistent(sc: Screen, input: LoadInput, trainTarget: nat, thresholdTarget: nat,
                       transform: (Matrix, Matrix) -> seq<real>, std: seq<real> -> real)
    requires thresholdTarget >= 1 && OneScorePerRow(transform) && IsPopulationStd(std)
    requires NoDuplicates(sc.tap.listeners)
    ensures var r := LoadCondition(sc, input, trainTarget, thresholdTarget, transform, std);
            r.loaded ==> Consistent(r.screen.tap, trainTarget, thresholdTarget)
  {
    var r := LoadCondition(sc, input, trainTarget, thresholdTarget, transform, std);
    if r.loaded {
      var rec := input.record;
      assert Rectangular(LoadedRows(rec.trainData)) && Rectangular(LoadedRows(rec.thresholdData));
    }
  }

  /** Prior data is discarded: two screens that differ only in their
      collected sets and flags load the same record into the same sets and
      flags. */
  lemma LoadDiscardsPriorData(sc1: Screen, sc2: Screen, rec: Record, trainTarget: nat, thresholdTarget: nat,
                              transform: (Matrix, Matrix) -> seq<real>, std: seq<real> -> real)
    requires thresholdTarget >= 1 && OneScorePerRow(transform) && IsPopulationStd(std)
    requires sc1.triggerThreshold == sc2.triggerThreshold && sc1.tap.fittedOn == sc2.tap.fittedOn
    requires sc1.tap.anomalyThreshold == sc2.tap.anomalyThreshold
    ensures var r1 := LoadCondition(sc1, Read(rec), trainTarget, thresholdTarget, transform, std);
            var r2 := LoadCondition(sc2, Read(rec), trainTarget, thresholdTarget, transform, std);
            && r1.loaded == r2.loaded
            && r1.screen.tap.trainData == r2.screen.tap.trainData
            && r1.screen.tap.thresholdData == r2.screen.tap.thresholdData
            && r1.screen.tap.trained == r2.screen.tap.trained
            && r1.screen.tap.thresholded == r2.screen.tap.thresholded
            && r1.screen.tap.anomalyThreshold == r2.screen.tap.anomalyThreshold
  {
    // Once both data sets are deleted, the two workflows differ at most in
    // the detector and the listeners, which the load passes through.
    var t1 := DeleteTrain(DeleteThreshold(sc1.tap));
    var t2 := DeleteTrain(DeleteThreshold(sc2.tap));
    assert t1.(detector := t2.detector, listeners := t2.listeners) == t2;
  }

  /** A record without threshold rows, or with too few, keeps a stored pair
      only after re-summarising it: a stored (lo, hi) with lo < hi comes back
      with both levels above hi. */
  lemma StoredPairIsResummarised(sc: Screen, rec: Record, trainTarget: nat, thresholdTarget: nat,
                                 transform: (Matrix, Matrix) -> seq<real>, std: seq<real> -> real)
    requires thresholdTarget >= 1 && OneScorePerRow(transform) && IsPopulationStd(std)
    requires rec.anomalyThreshold.Pair? && rec.anomalyThreshold.low < rec.anomalyThreshold.high
    ensures var r := LoadCondition(sc, Read(rec), trainTarget, thresholdTarget, transform, std);
            r.loaded && !r.screen.tap.thresholded ==>
              r.screen.tap.anomalyThreshold.value.0 > rec.anomalyThreshold.high
  {
    TapThreshold.StoredPairMoves(rec.anomalyThreshold.low, rec.anomalyThreshold.high, std);
  }

  /** A record holding exactly the target numbers of rows restores a fully
      calibrated workflow. */
  lemma CompleteRecordRestoresCalibration(sc: Screen, rec: Record, trainTarget: nat, thresholdTarget: nat,
                                          transform: (Matrix, Matrix) -> seq<real>, std: seq<real> -> real)
    requires thresholdTarget >= 1 && OneScorePerRow(transform) && IsPopulationStd(std)
    requires rec.trainData.Some? && Rectangular(rec.trainData.value) && |rec.trainData.value| == trainTarget
    requires rec.thresholdData.Some? && Rectangular(rec.thresholdData.value)
    requires |rec.thresholdData.value| == thresholdTarget
    requires !rec.anomalyThreshold.NoneStored?
    ensures var r := LoadCondition(sc, Read(rec), trainTarget, thresholdTarget, transform, std);
            && r.loaded && r.screen.tap.trained && r.screen.tap.thresholded
            && r.screen.tap.fittedOn == Some(rec.trainData.value)
  {
  }
}
