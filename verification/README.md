# Tap/rub acoustic anomaly detector — Dafny model

This project models the decision logic of a tile-hammering inspection
application, which listens for taps and rubs on a surface and flags
anomalous sounds.

- **Tap mode.** A trigger watches the rolling audio buffer. Each time a block crosses the trigger height, it cuts a fixed window around the first crossing. Those windows are collected into a train set and then a threshold set. The train set fits a feature pipeline whose last stage is a per-column z-score. The threshold set yields an anomaly-threshold pair: two and three population standard deviations above the mean score. During a test, each triggered sample is scored, and a snapshot is taken when its score exceeds the alarm level.
- **Rub mode.** Audio frames are captured for a timed session. During a test, each block's raw score goes through a two-stage standardisation with a floored standard deviation. It is then anchored at the train mean, floored at zero, recorded in a bounded history, coloured by sigma band, and compared with the high band.

Each module follows one part of the program:

| module | file | models |
|---|---|---|
| `Common` | common.dfy | Python indexing and slicing, `int()`, numpy concatenation |
| `Stats` | stats.dfy | numpy mean and variance; `std` as a caller-supplied square root |
| `Trigger` | trigger.dfy | `app/util/trigger.py` |
| `RingBuffer` | ring_buffer.dfy | the `_buffer_data` deque of `app/model/model.py` |
| `Accumulator` | accumulator.dfy | the `train_data` / `threshold_data` properties |
| `Slider` | slider.dfy | `trig_level2th` / `trig_th2level` |
| `RubScores` | rub_scores.dfy | rub standardisation, offsets, score history, colours |
| `TapThreshold` | tap_threshold.dfy | the `anomaly_threshold` setter |
| `RubSession` | rub_session.dfy | `app/model/rub.py` |
| `ModelState` | model_state.dfy | `block_data` setter, the audio callback's clock, `time_reset`, `start_rub_collection` |
| `ZScore` | zscore.dfy | `app/pipeline/zscore.py` |
| `Registry` | registry.dfy | `app/base/controller.py` |
| `TapTraining` | tap_training.dfy | the tap workflow of `app/train/controller.py` |
| `ConditionLoad` | condition_load.dfy | `_load_condition` of `app/menu/controller.py` |
| `Inference` | inference.dfy | `handle_rub_inference`, `handle_test_data` |
| `UniquePath` | unique_path.dfy | `get_unique_filepath` |

Samples are `real`, and arithmetic is exact. Every state is an immutable
record, and every handler is a function from the old record to the new one.
A handler that raises returns a flag together with the partial state it
leaves behind. The following outside inputs become parameters:
- the audio clock and incoming blocks;
- the tap pipeline's `transform(fitted, X)`;
- the GMM's raw score;
- the user's confirmations;
- the file system's set of existing paths.

A real square root cannot be defined here. numpy's `std` is therefore a
function parameter constrained by `Stats.IsPopulationStd`: it is
non-negative, and its square is the population variance.

## Model

| member | source | states |
|---|---|---|
| Trigger.BufferSegments | app/util/trigger.py:41-49 | the last `min(n, 1 - bufferIndex)` blocks, in order, and none for an empty buffer |
| Trigger.Start | app/util/trigger.py:32-33 | the detector becomes active, keeps its height, and then fires exactly when the height is set, the block crosses it and the hold time has passed |
| Trigger.Stop | app/util/trigger.py:35-36 | the detector becomes inactive, keeps its height, and never fires |
| Trigger.IsThresholdExceeded | app/util/trigger.py:59-70 | false when the look-back index is outside the buffer; otherwise true iff the indexed block holds a sample ≥ height |
| Trigger.ShouldTrigger | app/util/trigger.py:51-57 | a tick fires only when active with a height set, after the hold time, and with the look-back index inside the buffer |
| Trigger.FirstCrossing | app/util/trigger.py:73-76 | the first index whose sample is ≥ height; None iff no sample reaches it |
| Trigger.ExtractTriggerData | app/util/trigger.py:72-79 | empty when no sample crosses; otherwise the window from `max(0, i + offset)`, clipped to the data and at most `length` long; with `offset ≤ 0 < offset + length` it holds the crossing at `i - start`, with every earlier sample below the height |
| Trigger.TriggerTick | app/util/trigger.py:20-30 | a tick that does not fire changes nothing; firing resets the clock and, for a non-positive look-back index, always yields a window cut from the concatenated last blocks |
| Trigger.InspectedBlockInWindow | app/util/trigger.py:41-70 | the inspected block lies inside the concatenated window, so its crossing is a crossing of the window |
| Trigger.FiredSegmentHoldsCrossing | app/util/trigger.py:20-30 | when the detector fires, the extracted window is non-empty and contains a sample at or above the height |
| Trigger.StartStop | app/util/trigger.py:32-57 | a stopped detector never fires; a started one yields a window iff the height is set, the block crosses it and `readTime ≥ hold` |
| RingBuffer.Capacity | app/model/model.py:271-277 | the deque length is `buffer_time * sample_rate / block_size`, truncated |
| RingBuffer.DefaultCapacity | app/model/model.py:271-277 | one second at 48 kHz in 2048-sample blocks is 23 blocks |
| RingBuffer.Make | app/model/model.py:271-277 | capacity-many zero blocks, full from the start |
| RingBuffer.Append | app/model/model.py:181-183 | the most recent `capacity` blocks of old + new, ending with the new block; a full buffer stays full |
| RingBuffer.Snapshot | app/model/model.py:175-179 | the concatenation is as long as all blocks together and ends with the newest block |
| RingBuffer.SnapshotLength | app/model/model.py:175-183 | a full buffer of equal blocks snapshots to `capacity * blockSize` samples, before and after an append |
| RingBuffer.AppendSnapshot | app/model/model.py:175-183 | after an append, the snapshot is the kept blocks in their old order followed by the new block |
| RingBuffer.AppendAllKeepsMostRecent | app/model/model.py:181-183 | after any run of appends, the buffer holds the most recent `capacity` blocks seen, oldest first |
| Accumulator.Size | app/model/model.py:333-337 | numpy `size` is zero iff there are no rows or no columns |
| Accumulator.Assign | app/model/model.py:331-337 | a size-0 matrix is replaced; otherwise the rows are stacked after the old ones, which stay unchanged, and a width mismatch is an error |
| Accumulator.AssignRow | app/model/model.py:331-337 | one sample is stored alone in an empty matrix, appended as the last row otherwise, and rejected on a width mismatch |
| Accumulator.EmptyRowIsReplaced | app/model/model.py:331-341 | an empty sample counts as a row but is overwritten by the next assignment |
| Accumulator.CollectFromEmpty | app/model/model.py:331-337 | n equal-width samples collected from empty are exactly the n rows, in order |
| Slider.LevelToThresholdLinear | app/model/model.py:131-136 | the level range's end points map to the threshold range's end points, and the map is increasing |
| Slider.LevelToThreshold | app/model/model.py:131-136 | on increasing scales, a level inside the level range gives a threshold inside the threshold range |
| Slider.ThresholdToLevel | app/model/model.py:138-143 | on increasing scales, a threshold inside the threshold range gives a level inside the level range, despite int() truncation |
| Slider.LevelToThresholdIncreasing | app/model/model.py:131-136 | a higher level gives a strictly higher threshold when both ranges increase |
| Slider.LevelRoundTrip | app/model/model.py:131-143 | converting a level to a threshold and back returns the level |
| Slider.DefaultMidpoint | app/model/model.py:131-143 | on the default slider, level 50 corresponds to threshold 10.0 and back |
| RubScores.SafeStd | app/model/model.py:244-246 | never 0 and never smaller than 1e-8 in magnitude: the input itself when its magnitude is above 1e-8, and exactly 1e-8 otherwise |
| RubScores.StandardizePretrain | app/model/model.py:233-236 | scaling back by the floored pretrain std recovers the score, and the result is ≥ 0 iff the score is at or above the pretrain mean |
| RubScores.StandardizeTraining | app/model/model.py:238-239 | scaling back by the floored train std recovers the score, and the result is ≥ 0 iff the score is at or above the train mean |
| RubScores.DenormalizeTraining | app/model/model.py:241-242 | standardising the result against a non-zero train std gives the z-value back |
| RubScores.TrainingRoundTrip | app/model/model.py:238-242 | denormalising undoes training standardisation both ways when the train std is not floored |
| RubScores.RubAnomaly | app/test/controller.py:216-220 | the online anomaly is ≥ 0, and equals `max(standardize_pretrain(raw) - trainMean, 0)` when the train std is above 1e-8 |
| RubScores.RubAnomalyMonotone | app/test/controller.py:216-220 | with non-negative standard deviations, the anomaly never decreases as the raw score grows |
| RubScores.ThresholdOffsets | app/model/model.py:255-260 | low and medium are ≥ 0, the third equals the second; each is the band's distance above the train mean when the band is at or above the mean, and exactly 0 when it is below |
| RubScores.SigmaBandOffsets | app/model/model.py:255-260 | bands at mean + 1, 2, 3 σ give offsets 2σ, 3σ, 3σ |
| RubScores.RecordScore | app/model/model.py:197-202 | the history keeps the most recent `historySize` scores, in order; a size of 0 keeps everything |
| RubScores.RecordScoresKeepsMostRecent | app/model/model.py:197-202 | after any run of scores, a bounded history holds the latest `historySize` of all scores recorded |
| RubScores.LatestScores | app/model/model.py:204-209 | nothing for a count ≤ 0; otherwise the last `min(count, len)` scores, with a missing count meaning the history size |
| RubScores.Colorize | app/model/model.py:219-231 | one colour per score: blue iff below low, yellow iff in [low, medium), red iff at or above both |
| RubScores.LatestSeries | app/model/model.py:211-217 | the plotted scores are the latest ones; the indices count up from len(history) - len(scores) and locate each score in the history; each colour is the hex code of the score's band |
| TapThreshold.AnomalyThreshold | app/model/model.py:375-379 | mean ≤ warning ≤ alarm; the warning's squared margin is four variances, and the alarm's margin is 1.5 times the warning's |
| TapThreshold.IdenticalScores | app/model/model.py:375-379 | identical scores give the pair (score, score) |
| TapThreshold.PairThreshold | app/model/model.py:375-379 | a pair (a, b) is summarised as its midpoint plus one and one-and-a-half times \|a - b\| |
| TapThreshold.StoredPairMoves | app/menu/controller.py:56-58 | a stored pair of distinct levels, set again, moves above its own high level |
| RubSession.Start | app/model/rub.py:27-34 | clears the frames and the counted time, and keeps the capture length |
| RubSession.Stop | app/model/rub.py:36-40 | keeps the frames, the phase and the capture length |
| RubSession.AppendFrame | app/model/rub.py:42-46 | appends exactly one frame, advances the time by frames / rate, returns the new total, and leaves the other fields unchanged |
| RubSession.IsActive | app/model/rub.py:48-49 | true exactly while frames are being collected |
| RubSession.Elapsed | app/model/rub.py:51-54 | never negative, 0 when not started, and the time since start afterwards |
| RubSession.Completed | app/model/rub.py:56-57 | never complete without an end time; for a session started with a positive length, complete iff the elapsed time has reached that length |
| RubSession.Buffer | app/model/rub.py:59-63 | the frames concatenated, as long as all of them together, and empty with no frames |
| RubSession.Frames | app/model/rub.py:65-67 | the frames in append order, whose concatenation is the buffer |
| RubSession.StartThenPoll | app/model/rub.py:27-57 | after a start at `now`: active, with the phase recorded, and complete exactly from `now + trainTime` |
| RubSession.StopThenPoll | app/model/rub.py:36-67 | after a stop: inactive, no elapsed time, never complete, frames and buffer kept |
| RubSession.AppendFramesLog | app/model/rub.py:42-46 | a run of appends logs every frame, in order |
| RubSession.AppendFramesTime | app/model/rub.py:42-46 | the counted time grows by the total sample count over the rate |
| RubSession.AppendFramesBuffer | app/model/rub.py:42-63 | the buffer becomes the old buffer followed by the new frames' samples |
| RubSession.AppendFramesKeepTimes | app/model/rub.py:42-46 | appends leave the start and end times and the collecting flag alone |
| RubSession.ExampleCapture | app/model/rub.py:27-57 | a 10 s capture from 0 with nine 2048-sample frames at 48 kHz counts 0.384 s, is not complete at 3 s and is complete at 11 s |
| ModelState.SetBlockData | app/model/model.py:165-173 | the block always enters the ring buffer; it enters the rub session, with progress reported, only while the session is collecting |
| ModelState.AudioCallback | app/model/read.py:48-52 | both clocks advance by frames / rate, and the block is stored |
| ModelState.TimeReset | app/model/model.py:265-269 | both clocks are 0, and nothing else changes |
| ModelState.TriggerStep | app/util/trigger.py:20-30 | not firing changes nothing; firing resets the clocks, and the signal goes out iff a window was cut, which then becomes the trigger data |
| ModelState.StartRubCollection | app/model/model.py:279-281 | the session collects for the given phase from empty, and completes exactly `duration` after `now` |
| ModelState.IngestTime | app/model/read.py:48-51 | after a run of callbacks, the clocks have advanced by the total frame count over the rate |
| ModelState.IngestFeeds | app/model/model.py:165-183 | the ring buffer receives every block; a collecting rub session receives exactly what its own appends would |
| ModelState.NoRetriggerWithinHold | app/util/trigger.py:20-24 | after firing, no tick fires until `hold` seconds of audio have been read |
| ZScore.FlooredStd | app/pipeline/zscore.py:12-13 | positive; the floor exactly when numpy's std is 0, and otherwise the square root of the variance |
| ZScore.Fit | app/pipeline/zscore.py:10-13 | one mean and one positive std per column; the means are the column means |
| ZScore.Score | app/pipeline/zscore.py:17-18 | a row's score is ≥ 0, and is 0 iff the row equals the fitted mean |
| ZScore.AllZeroIffMean | app/pipeline/zscore.py:17-18 | the mean absolute z-score vanishes iff the row is the fitted mean |
| ZScore.Transform | app/pipeline/zscore.py:16-19 | one score per row, in order, each ≥ 0 and 0 exactly for rows equal to the mean |
| ZScore.IdenticalRows | app/pipeline/zscore.py:10-19 | identical training rows are their own mean with floored stds, and transforming that row scores 0 |
| ZScore.FitTransformAsWritten | app/pipeline/zscore.py:21-22 | the as-written `fit_transform` yields no scores (the AttributeError) for every input |
| ZScore.FitTransformAlwaysFails | app/pipeline/zscore.py:21-22 | the as-written `fit_transform` fails on every input |
| ZScore.FitTransform | app/pipeline/zscore.py:21-22 | the intended `fit_transform`: one non-negative score per row |
| ZScore.FitTransformIdentical | app/pipeline/zscore.py:21-22 | the intended `fit_transform` scores every row of identical rows as 0 |
| Registry.Add | app/base/controller.py:67-69 | idempotent; a new method goes at the end; the list stays duplicate-free |
| Registry.Remove | app/base/controller.py:71-73 | removing an absent method is a no-op; a present one shortens the list by one and leaves a duplicate-free list without it |
| Registry.Reset | app/base/controller.py:75-76 | the list is empty |
| Registry.RemoveKeepsOrder | app/base/controller.py:71-73 | on a duplicate-free list, removal equals filtering the method out, so the others keep their order |
| Registry.AddRemove | app/base/controller.py:67-73 | adding a new method and removing it restores the list |
| Registry.Dispatch | app/base/controller.py:60-65 | methods are called in list order; the first that raises ends the loop with exactly one error, and with no raise all are called and no error is reported |
| Registry.DispatchOnce | app/base/controller.py:60-69 | a duplicate-free list calls each method at most once |
| Registry.HandleTimerSignal | app/base/controller.py:79-85 | nothing runs while the view is hidden; otherwise the same in-order dispatch as for triggers |
| Registry.Candidates | app/base/controller.py:29-34 | four candidate names, ending with `on_any` |
| Registry.FirstDefined | app/base/controller.py:35-40 | the first defined candidate, with all earlier ones undefined; None iff none is defined |
| Registry.InvokeArgs | app/base/controller.py:44-57 | the first `min(n, 4)` of (name, widget, event, payload) |
| Registry.HandleViewSignal | app/base/controller.py:23-42 | invokes the first defined candidate with its arity-prefix arguments; reports an error iff none exists or the handler raises |
| Registry.HandlerPriority | app/base/controller.py:28-40 | `on_{name}_{event}` wins whenever it exists, and `on_any` catches everything else |
| TapTraining.StartCollection | app/train/controller.py:125-127 | the trigger is active and the handler is registered; nothing else changes |
| TapTraining.StopCollection | app/train/controller.py:133-135 | the trigger is stopped and the handler unregistered; nothing else changes |
| TapTraining.DeleteTrain | app/train/controller.py:304-307 | not trained, zero train rows, nothing else changed |
| TapTraining.DeleteThreshold | app/train/controller.py:310-313 | not thresholded, zero threshold rows, nothing else changed |
| TapTraining.HandleTrainData | app/train/controller.py:263-275 | ignored once trained; otherwise the sample is assigned, and `trained` becomes true iff the count reaches the target, with the pipeline then fitted on the train set and collection stopped |
| TapTraining.HandleThresholdData | app/train/controller.py:277-290 | ignored once thresholded; otherwise `thresholded` becomes true iff the count reaches the target, the pair then comes from the fitted pipeline's scores and collection stops, and an unfitted pipeline raises with the flag already set |
| TapTraining.TapTrainSampleStart | app/train/controller.py:111-127 | a confirmed reset of a trained workflow empties both sets and clears both flags; the trigger always ends started with the train handler registered |
| TapTraining.TapThresholdSampleStart | app/train/controller.py:139-150 | a confirmed reset empties the threshold set only; the trigger ends started with the threshold handler registered |
| TapTraining.StartTestEnabled | app/train/controller.py:244-250 | enabled whenever the rub side has thresholds; otherwise enabled iff the tap side has them |
| TapTraining.ResetDisablesTapTest | app/train/controller.py:244-250 | after a confirmed train reset, only a rub calibration enables the test |
| TapTraining.StepsKeepConsistent | app/train/controller.py:263-313 | every handler and button keeps the flags tied to complete sets and a trained model fitted on its train set |
| TapTraining.CollectToTarget | app/train/controller.py:263-275 | feeding the missing number of equal-width samples trains on exactly those rows and stops collection |
| ConditionLoad.LoadedRows | app/menu/controller.py:51-52 | a missing key loads one empty row of size 0 |
| ConditionLoad.PairToSet | app/menu/controller.py:56-58 | the stored pair, else the current one, else (0, 0); a stored None is the error case |
| ConditionLoad.LoadCondition | app/menu/controller.py:32-70 | declined, no file and read errors change nothing; a load replaces both sets, keeps a missing trigger threshold, recomputes the slider level, and re-derives both flags from the counts |
| ConditionLoad.LoadConsistent | app/menu/controller.py:48-68 | a successful load leaves the workflow consistent with its targets |
| ConditionLoad.LoadDiscardsPriorData | app/menu/controller.py:48-52 | what was collected before has no influence on the loaded sets and flags |
| ConditionLoad.StoredPairIsResummarised | app/menu/controller.py:56-58 | without a complete threshold set, a stored pair comes back above its own high level |
| ConditionLoad.CompleteRecordRestoresCalibration | app/menu/controller.py:61-68 | a record with target-sized sets restores a trained, thresholded workflow fitted on the loaded train rows |
| Inference.HandleRubInference | app/test/controller.py:203-227 | a score is recorded iff every guard passes and scoring succeeds; it is ≥ 0, and a snapshot is taken iff it exceeds the high offset |
| Inference.RubSnapshotRule | app/test/controller.py:216-227 | when the train std is not floored, a snapshot is taken iff the pretrain-standardised score exceeds the train mean by more than the high offset |
| Inference.RubSnapshotMonotone | app/test/controller.py:216-227 | a higher raw score never turns a rub snapshot off |
| Inference.HandleTestData | app/test/controller.py:122-141 | skipped outside tap mode or without a live test stream; otherwise one score is produced, with a snapshot iff it strictly exceeds the last element of the pair |
| Inference.TapSnapshotIsStrict | app/test/controller.py:138-141 | a score equal to the alarm level is not an anomaly; a greater one is |
| UniquePath.CandidateInjective | app/test/controller.py:298-303 | different indices give different candidate names |
| UniquePath.UniqueFilepath | app/test/controller.py:288-303 | never names an existing file; the unchanged path when it is free, otherwise the first free numbered candidate |

## Left out

- Audio and camera I/O, the sounddevice stream, the camera, QImage saving and pickling: the blocks, the clock, the file contents and the set of existing paths are inputs. The channel selection and `eu` scaling in the audio callback happen before the block reaches the model.
- The feature numerics: the band-pass filter, FFT, STFT, mel and GMM stages. The tap pipeline appears only as `transform(fitted, X)`, which yields one score per row, and the GMM appears only as a raw score or an exception.
- The square root: `std` is a parameter constrained to be the non-negative root of the population variance.
- Floating point: all arithmetic is exact over `real`.
- Slider.LevelRoundTrip: holds under exact arithmetic only; with binary floats, `int()` can truncate a value just below an integer.
- Views, styling, dialogs, plotting and Qt signal plumbing. Each handler runs synchronously within one tick.
- Registry.Dispatch: runs over a snapshot of the listener list; Python's behaviour when a handler removes itself during iteration is not modelled.
- The rub train/threshold button handlers of the training screen, which only print.
- TapTraining: the training screen reads `tap_train_sample_all_number`, `tap_th_sample_all_number` and `rub_thresholded`, which the shared model does not define. The train and threshold targets and the rub-thresholded flag are therefore parameters, and the AttributeErrors those reads would raise are not modelled.
- TapTraining.HandleTrainData: the pipeline's own `fit` is assumed not to raise.
- ConditionLoad.LoadCondition: requires a threshold target of at least 1; with target 0 and no rows, numpy's mean of no scores is NaN. A stored pair is modelled as exactly two numbers.
- ZScore.Fit: requires at least one row (numpy's mean over no rows is NaN); ZScore.Transform requires the row width to match the fitted width, so numpy's broadcasting of a width-1 row is left out.
- TapThreshold.AnomalyThreshold: requires at least one score (numpy gives NaN for none).
- Path parsing: `get_unique_filepath` receives the parent, stem and suffix already split, joined with `/`.
- The rub calibration flags (`rub_trained`, `rub_thresholded`, `gmm_is_infering`) are inputs: the handlers that read them take them as parameters (`Inference.RubGuards`, `TapTraining.StartTestEnabled`). `gmm_is_infering` is set by the test screen's inference toggle (app/test/controller.py:199), which is not modelled as a separate step. No core file sets `rub_trained`, `rub_thresholded` or the rub calibration statistics, so the GMM fitting workflow that produces them is not modelled.

Nine 2048-sample frames at 48 kHz count 0.384 s of audio, because each frame
adds 2048 / 48000 s; `RubSession.ExampleCapture` states that value.

## Findings

| source | as written | input that shows it | evidently intended | confidence | as-written member | corrected member |
|---|---|---|---|---|---|---|
| app/pipeline/zscore.py:21-22 | `fit_transform` calls `.transform` on the return value of `fit`, which has no return statement and so returns None | any matrix, e.g. `[[1.0]]`: AttributeError | fit on X, then transform X | high, not executed | ZScore.FitTransformAsWritten | ZScore.FitTransform |
