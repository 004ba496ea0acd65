/** A timed rub capture: frames accumulate while the session is collecting,
    and the session is complete once the clock reaches its end time. */
module RubSession {
  import opened Common

  datatype Phase = Pretrain | Train

  /** `trainTime` is the nominal capture length in seconds; `data` the frames
      appended since the last start, oldest first; `countingTime` the audio
      time they cover. */
  datatype Session = Session(
    trainTime: real,
    data: seq<seq<real>>,
    countingTime: real,
    collecting: bool,
    startTs: Option<real>,
    endTs: Option<real>,
    phase: Option<Phase>)

  /** A fresh session, as the dataclass defaults make it. */
  function New(trainTime: real): Session
  {
    Session(trainTime, [], 0.0, false, None, None, None)
  }

  /** Begin collecting for `phase`: the frame log is cleared and the session
      ends `trainTime` seconds after `now`. */
  function Start(s: Session, now: real, phase: Phase): (r: Session)
    ensures r.data == [] && r.countingTime == 0.0
    ensures r.trainTime == s.trainTime
  {
    Session(s.trainTime, [], 0.0, true, Some(now), Some(now + s.trainTime), Some(phase))
  }

  /** Stop collecting; the frames and the phase stay readable. */
  function Stop(s: Session): (r: Session)
    ensures r.data == s.data && r.phase == s.phase && r.trainTime == s.trainTime
  {
    s.(collecting := false, startTs := None, endTs := None)
  }

  /** Store one frame of `frames` samples and advance the captured time by
      frames / sampleRate; the second component is the new total. */
  function AppendFrame(s: Session, frame: seq<real>, frames: nat, sampleRate: nat): (r: (Session, real))
    requires sampleRate > 0
    ensures r.0.data == s.data + [frame]
    ensures r.1 == r.0.countingTime == s.countingTime + frames as real / sampleRate as real
    ensures r.0.collecting == s.collecting && r.0.startTs == s.startTs && r.0.endTs == s.endTs
    ensures r.0.phase == s.phase && r.0.trainTime == s.trainTime
  {
    var t := s.countingTime + frames as real / sampleRate as real;
    (s.(data := s.data + [frame], countingTime := t), t)
  }

  /** `is_active`: whether frames are being collected. */
  function IsActive(s: Session): (r: bool)
    ensures r <==> s.collecting
  {
    s.collecting
  }

  /** Seconds since the start, never negative, and 0 when not started. */
  function Elapsed(s: Session, now: real): (e: real)
    ensures e >= 0.0
    ensures s.startTs.None? ==> e == 0.0
    ensures s.startTs.Some? && now >= s.startTs.value ==> e == now - s.startTs.value
  {
    match s.startTs
    case None => 0.0
    case Some(t) => MaxReal(0.0, now - t)
  }

  /** Whether the nominal capture time is over; never without an end time.
      For a session started with a positive capture length, completion is
      exactly the elapsed time reaching that length. */
  function Completed(s: Session, now: real): (r: bool)
    ensures s.endTs.None? ==> !r
    ensures s.trainTime > 0.0 && s.startTs.Some? && s.endTs == Some(s.startTs.value + s.trainTime) ==>
              (r <==> Elapsed(s, now) >= s.trainTime)
  {
    s.endTs.Some? && now >= s.endTs.value
  }

  /** All frames concatenated in order. */
  function Buffer(s: Session): (b: seq<real>)
    ensures |b| == TotalLength(s.data)
    ensures s.data == [] ==> b == []
  {
    FlattenLength(s.data);
    Flatten(s.data)
  }

  /** The frames in append order; concatenated they are the buffer. */
  function Frames(s: Session): (r: seq<seq<real>>)
    ensures |r| == |s.data| && Flatten(r) == Buffer(s)
    ensures forall k :: 0 <= k < |r| ==> r[k] == s.data[k]
  {
    s.data
  }

  /** After a start at `now`, the session is active, its elapsed time is the
      time since `now`, and it is complete exactly from now + trainTime on. */
  lemma StartThenPoll(s: Session, now: real, phase: Phase, t: real)
    ensures var r := Start(s, now, phase);
            && IsActive(r) && r.phase == Some(phase)
            && Elapsed(r, t) == MaxReal(0.0, t - now)
            && (Completed(r, t) <==> t >= now + s.trainTime)
  {
  }

  /** A stopped session is inactive, reports no elapsed time, is never
      complete, and still holds the frames it collected. */
  lemma StopThenPoll(s: Session, t: real)
    ensures var r := Stop(s);
            && !IsActive(r) && Elapsed(r, t) == 0.0 && !Completed(r, t)
            && Frames(r) == Frames(s) && Buffer(r) == Buffer(s)
  {
  }

  /** Appending frames one after another. */
  function AppendFrames(s: Session, frames: seq<seq<real>>, sampleRate: nat): Session
    requires sampleRate > 0
    decreases |frames|
  {
    if |frames| == 0 then s
    else AppendFrames(AppendFrame(s, frames[0], |frames[0]|, sampleRate).0, frames[1..], sampleRate)
  }

  /** A run of appends logs every frame, in order. */
  lemma {:induction false} AppendFramesLog(s: Session, frames: seq<seq<real>>, sampleRate: nat)
    requires sampleRate > 0
    ensures AppendFrames(s, frames, sampleRate).data == s.data + frames
    decreases |frames|
  {
    if |frames| == 0 {
      assert s.data + frames == s.data;
    } else {
      var s1 := AppendFrame(s, frames[0], |frames[0]|, sampleRate).0;
      AppendFramesLog(s1, frames[1..], sampleRate);
      assert s.data + [frames[0]] + frames[1..] == s.data + frames;
    }
  }

  lemma DivideSum(a: real, b: real, d: real)
    requires d > 0.0
    ensures (a + b) / d == a / d + b / d
  {
  }

  /** The captured time grows by the total sample count over the sample rate. */
  lemma {:induction false} AppendFramesTime(s: Session, frames: seq<seq<real>>, sampleRate: nat)
    requires sampleRate > 0
    ensures AppendFrames(s, frames, sampleRate).countingTime
            == s.countingTime + TotalLength(frames) as real / sampleRate as real
    decreases |frames|
  {
    if |frames| > 0 {
      var s1 := AppendFrame(s, frames[0], |frames[0]|, sampleRate).0;
      AppendFramesTime(s1, frames[1..], sampleRate);
      assert frames == [frames[0]] + frames[1..];
      TotalLengthConcat([frames[0]], frames[1..]);
      assert [frames[0]][..0] == [];
      assert TotalLength([frames[0]]) == |frames[0]|;
      DivideSum(|frames[0]| as real, TotalLength(frames[1..]) as real, sampleRate as real);
    }
  }

  /** The buffer after a run of appends is the old buffer followed by the new
      frames' samples. */
  lemma AppendFramesBuffer(s: Session, frames: seq<seq<real>>, sampleRate: nat)
    requires sampleRate > 0
    ensures Buffer(AppendFrames(s, frames, sampleRate)) == Buffer(s) + Flatten(frames)
  {
    AppendFramesLog(s, frames, sampleRate);
    FlattenConcat(s.data, frames);
  }

  /** A worked example: ten seconds of capture started at 0, then nine frames
      of 2048 samples at 48 kHz, which is 0.384 s of audio — not complete at
      3 s, complete at 11 s. Completion follows the clock, not the audio. */
  lemma ExampleCapture(frame: seq<real>)
    requires |frame| == 2048
    ensures var r := AppendFrames(Start(New(10.0), 0.0, Train), seq(9, _ => frame), 48000);
            && r.countingTime == 0.384
            && !Completed(r, 3.0) && Completed(r, 11.0)
  {
    var frames := seq(9, _ => frame);
    var s0 := Start(New(10.0), 0.0, Train);
    AppendFramesTime(s0, frames, 48000);
    TotalLengthUniform(frames, 2048);
    assert TotalLength(frames) == 18432;
    assert 18432 as real / 48000 as real == 0.384;
    AppendFramesKeepTimes(s0, frames, 48000);
  }

  /** Appending frames never touches the start and end times. */
  lemma {:induction false} AppendFramesKeepTimes(s: Session, frames: seq<seq<real>>, sampleRate: nat)
    requires sampleRate > 0
    ensures var r := AppendFrames(s, frames, sampleRate);
            r.startTs == s.startTs && r.endTs == s.endTs && r.collecting == s.collecting
    decreases |frames|
  {
    if |frames| > 0 {
      AppendFramesKeepTimes(AppendFrame(s, frames[0], |frames[0]|, sampleRate).0, frames[1..], sampleRate);
    }
  }
}
