/** The tap calibration workflow of the training screen: triggered samples
    accumulate into the train set until its target count is reached (then
    the pipeline is fitted), and then into the threshold set until its
    target (then the anomaly-threshold pair is derived from the fitted
    pipeline's scores). The state is one immutable record; each handler
    returns the next record and whether it raised. */
module TapTraining {
  import opened Common
  import opened Stats
  import opened Accumulator
  import opened Registry
  import Trigger
  import TapThreshold

  /** The two trigger methods the training screen registers. */
  datatype Listener = TrainListener | ThresholdListener

  /** The part of the shared model the workflow reads and writes.
      `fittedOn` is the train matrix the tap pipeline was last fitted on
      (None while it was never fitted); the pipeline stays fitted when the
      train data is deleted. */
  datatype TapState = TapState(
    trained: bool,
    thresholded: bool,
    trainData: Matrix,
    thresholdData: Matrix,
    fittedOn: Option<Matrix>,
    anomalyThreshold: Option<(real, real)>,
    detector: Trigger.Detector,
    listeners: seq<Listener>)

  /** A handler's result: the next state, and whether an exception escaped
      (the state then holds whatever was assigned before it). */
  datatype Step = Step(state: TapState, raised: bool)

  /** The tap pipeline's `transform(fitted, X)` yields one score per row. */
  ghost predicate OneScorePerRow(transform: (Matrix, Matrix) -> seq<real>)
  {
    forall f, x {:trigger transform(f, x)} :: |transform(f, x)| == |x|
  }

  /** What holds of the workflow at every step: the flags only stand when
      their sets are complete, a trained model is fitted on its train set,
      and no trigger method is registered twice. */
  predicate Consistent(s: TapState, trainTarget: nat, thresholdTarget: nat)
  {
    && Rectangular(s.trainData) && Rectangular(s.thresholdData)
    && (s.trained ==> |s.trainData| == trainTarget && s.fittedOn == Some(s.trainData))
    && (s.thresholded ==> |s.thresholdData| == thresholdTarget)
    && NoDuplicates(s.listeners)
  }

  /** `trigger.start()` plus `add_trigger_method`. */
  function StartCollection(s: TapState, l: Listener): (r: TapState)
    ensures r.detector.active && l in r.listeners
    ensures r.listeners == Add(s.listeners, l)
    ensures r.(detector := s.detector, listeners := s.listeners) == s
  {
    s.(detector := Trigger.Start(s.detector), listeners := Add(s.listeners, l))
  }

  /** `_tap_train_sample_stop` / `_tap_th_sample_stop`: `trigger.stop()` plus
      `remove_trigger_method`. */
  function StopCollection(s: TapState, l: Listener): (r: TapState)
    ensures !r.detector.active && r.listeners == Remove(s.listeners, l)
    ensures NoDuplicates(s.listeners) ==> l !in r.listeners
    ensures r.(detector := s.detector, listeners := s.listeners) == s
  {
    s.(detector := Trigger.Stop(s.detector), listeners := Remove(s.listeners, l))
  }

  /** `_delete_train_data`: not trained, no train rows. */
  function DeleteTrain(s: TapState): (r: TapState)
    ensures !r.trained && |r.trainData| == 0
    ensures r.(trained := s.trained, trainData := s.trainData) == s
  {
    s.(trained := false, trainData := Empty)
  }

  /** `_delete_threshold_data`: not thresholded, no threshold rows. */
  function DeleteThreshold(s: TapState): (r: TapState)
    ensures !r.thresholded && |r.thresholdData| == 0
    ensures r.(thresholded := s.thresholded, thresholdData := s.thresholdData) == s
  {
    s.(thresholded := false, thresholdData := Empty)
  }

  /** `handle_train_data`: while not trained, the triggered sample is
      assigned to the train set; when the count reaches the target, the
      pipeline is fitted, `trained` is set and collection stops. A sample of
      the wrong width makes vstack raise. */
  function HandleTrainData(s: TapState, sample: seq<real>, target: nat): (r: Step)
    requires Rectangular(s.trainData)
    ensures s.trained ==> r == Step(s, false)
    ensures !s.trained ==> (r.raised <==> Assign(s.trainData, Row(sample)).None?)
    ensures r.raised ==> r.state == s
    ensures !s.trained && !r.raised ==>
              r.state.trainData == Assign(s.trainData, Row(sample)).value
              && (r.state.trained <==> |r.state.trainData| == target)
    ensures !s.trained && r.state.trained ==>
              && r.state.fittedOn == Some(r.state.trainData)
              && !r.state.detector.active && r.state.listeners == Remove(s.listeners, TrainListener)
    ensures !r.state.trained ==> r.state.fittedOn == s.fittedOn && r.state.detector == s.detector
                                 && r.state.listeners == s.listeners
    ensures Rectangular(r.state.trainData)
    ensures r.state.thresholded == s.thresholded && r.state.thresholdData == s.thresholdData
    ensures r.state.anomalyThreshold == s.anomalyThreshold
  {
    if s.trained then Step(s, false)
    else
      match Assign(s.trainData, Row(sample))
      case None => Step(s, true)
      case Some(m) =>
        var s1 := s.(trainData := m);
        if |m| == target then
          var fitted := s1.(fittedOn := Some(m), trained := true);
          Step(StopCollection(fitted, TrainListener), false)
        else Step(s1, false)
  }

  /** `handle_threshold_data`: while not thresholded, the sample is assigned
      to the threshold set; at the target count `thresholded` is set first,
      then the threshold set is scored by the fitted pipeline and the
      anomaly pair derived from those scores, and collection stops. An
      unfitted pipeline raises after the flag was set. */
  function HandleThresholdData(s: TapState, sample: seq<real>, target: nat,
                               transform: (Matrix, Matrix) -> seq<real>,
                               std: seq<real> -> real): (r: Step)
    requires Rectangular(s.thresholdData) && OneScorePerRow(transform) && IsPopulationStd(std)
    ensures s.thresholded ==> r == Step(s, false)
    ensures !s.thresholded && Assign(s.thresholdData, Row(sample)).None? ==> r == Step(s, true)
    ensures !s.thresholded && Assign(s.thresholdData, Row(sample)).Some? ==>
              && r.state.thresholdData == Assign(s.thresholdData, Row(sample)).value
              && (r.state.thresholded <==> |r.state.thresholdData| == target)
              && (r.raised <==> r.state.thresholded && s.fittedOn.None?)
    ensures !s.thresholded && r.state.thresholded && s.fittedOn.Some? ==>
              && |r.state.thresholdData| > 0
              && r.state.anomalyThreshold
                 == Some(TapThreshold.AnomalyThreshold(transform(s.fittedOn.value, r.state.thresholdData), std))
              && !r.state.detector.active && r.state.listeners == Remove(s.listeners, ThresholdListener)
    ensures r.raised || !r.state.thresholded ==>
              r.state.anomalyThreshold == s.anomalyThreshold && r.state.detector == s.detector
              && r.state.listeners == s.listeners
    ensures Rectangular(r.state.thresholdData)
    ensures r.state.trained == s.trained && r.state.trainData == s.trainData
    ensures r.state.fittedOn == s.fittedOn
  {
    if s.thresholded then Step(s, false)
    else
      match Assign(s.thresholdData, Row(sample))
      case None => Step(s, true)
      case Some(m) =>
        var s1 := s.(thresholdData := m);
        if |m| == target then
          var s2 := s1.(thresholded := true);
          match s.fittedOn
          case None => Step(s2, true)
          case Some(f) =>
            var scores := transform(f, m);
            assert |scores| == |m| > 0;
            var s3 := s2.(anomalyThreshold := Some(TapThreshold.AnomalyThreshold(scores, std)));
            Step(StopCollection(s3, ThresholdListener), false)
        else Step(s1, false)
  }

  /** `on_pushButton_TapTrainSampleStart_clicked`. When already trained, a
      confirmed reset deletes both sets and stops threshold collection; a
      declined one stops train collection. Either way the trigger is then
      started and the train handler registered. */
  function TapTrainSampleStart(s: TapState, confirmed: bool): (r: TapState)
    ensures r.detector.active && TrainListener in r.listeners
    ensures s.trained && confirmed ==>
              && !r.trained && !r.thresholded && |r.trainData| == 0 && |r.thresholdData| == 0
              && (NoDuplicates(s.listeners) ==> ThresholdListener !in r.listeners)
    ensures !(s.trained && confirmed) ==>
              r.trained == s.trained && r.thresholded == s.thresholded
              && r.trainData == s.trainData && r.thresholdData == s.thresholdData
    ensures r.fittedOn == s.fittedOn && r.anomalyThreshold == s.anomalyThreshold
  {
    var s1 :=
      if s.trained then
        if confirmed then StopCollection(DeleteThreshold(DeleteTrain(s)), ThresholdListener)
        else StopCollection(s, TrainListener)
      else s;
    StartCollection(s1, TrainListener)
  }

  /** `on_pushButton_TapTHSampleStart_clicked`: the same pattern for the
      threshold set, leaving the train set alone. */
  function TapThresholdSampleStart(s: TapState, confirmed: bool): (r: TapState)
    ensures r.detector.active && ThresholdListener in r.listeners
    ensures s.thresholded && confirmed ==> !r.thresholded && |r.thresholdData| == 0
    ensures !(s.thresholded && confirmed) ==>
              r.thresholded == s.thresholded && r.thresholdData == s.thresholdData
    ensures r.trained == s.trained && r.trainData == s.trainData
    ensures r.fittedOn == s.fittedOn && r.anomalyThreshold == s.anomalyThreshold
  {
    var s1 :=
      if s.thresholded then
        if confirmed then DeleteThreshold(s)
        else StopCollection(s, ThresholdListener)
      else s;
    StartCollection(s1, ThresholdListener)
  }

  /** `_set_start_test`: the test screen may be entered once either workflow
      has its thresholds. */
  function StartTestEnabled(rubThresholded: bool, thresholded: bool): (enabled: bool)
    ensures rubThresholded ==> enabled
    ensures !rubThresholded ==> (enabled <==> thresholded)
  {
    rubThresholded || thresholded
  }

  /** After a confirmed train reset only a rub calibration can enable the
      test screen. */
  lemma ResetDisablesTapTest(s: TapState, rubThresholded: bool)
    requires s.trained
    ensures StartTestEnabled(rubThresholded, TapTrainSampleStart(s, true).thresholded) == rubThresholded
  {
  }

  /** Every handler and button of the workflow keeps it consistent. */
  lemma StepsKeepConsistent(s: TapState, sample: seq<real>, confirmed: bool,
                            trainTarget: nat, thresholdTarget: nat,
                            transform: (Matrix, Matrix) -> seq<real>, std: seq<real> -> real)
    requires Consistent(s, trainTarget, thresholdTarget)
    requires OneScorePerRow(transform) && IsPopulationStd(std)
    ensures Consistent(HandleTrainData(s, sample, trainTarget).state, trainTarget, thresholdTarget)
    ensures Consistent(HandleThresholdData(s, sample, thresholdTarget, transform, std).state,
                       trainTarget, thresholdTarget)
    ensures Consistent(DeleteTrain(s), trainTarget, thresholdTarget)
    ensures Consistent(DeleteThreshold(s), trainTarget, thresholdTarget)
    ensures Consistent(TapTrainSampleStart(s, confirmed), trainTarget, thresholdTarget)
    ensures Consistent(TapThresholdSampleStart(s, confirmed), trainTarget, thresholdTarget)
  {
  }

  /** A run of triggered samples delivered to the train handler; the first
      exception ends the run. */
  function HandleTrainAll(s: TapState, samples: seq<seq<real>>, target: nat): (r: Step)
    requires Rectangular(s.trainData)
    ensures Rectangular(r.state.trainData)
    decreases |samples|
  {
    if |samples| == 0 then Step(s, false)
    else
      var r := HandleTrainData(s, samples[0], target);
      if r.raised then r else HandleTrainAll(r.state, samples[1..], target)
  }

  /** Feeding exactly the missing number of equal-width samples to an
      untrained workflow trains it on precisely the collected rows, fitted
      on them, with collection stopped. */
  lemma {:induction false} CollectToTarget(s: TapState, samples: seq<seq<real>>, w: nat, target: nat)
    requires !s.trained && w > 0 && |samples| > 0
    requires forall i :: 0 <= i < |samples| ==> |samples[i]| == w
    requires s.trainData == [] || (Rectangular(s.trainData) && Width(s.trainData) == w)
    requires |s.trainData| + |samples| == target
    ensures var r := HandleTrainAll(s, samples, target);
            && !r.raised && r.state.trained
            && r.state.trainData == s.trainData + samples
            && r.state.fittedOn == Some(s.trainData + samples)
            && !r.state.detector.active
    decreases |samples|
  {
    var v := samples[0];
    AssignRow(s.trainData, v);
    if s.trainData != [] {
      assert Size(s.trainData) > 0 by {
        assert |s.trainData| > 0 && Width(s.trainData) > 0;
      }
    }
    var r1 := HandleTrainData(s, v, target);
    assert !r1.raised && r1.state.trainData == s.trainData + [v];
    if |samples| > 1 {
      assert !r1.state.trained;
      var rest := samples[1..];
      assert forall i :: 0 <= i < |rest| ==> |rest[i]| == w;
      assert Rectangular(r1.state.trainData) && Width(r1.state.trainData) == w;
      CollectToTarget(r1.state, rest, w, target);
      assert s.trainData + [v] + rest == s.trainData + samples;
    } else {
      assert samples == [v];
    }
  }
}
