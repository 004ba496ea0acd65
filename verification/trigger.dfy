/** The tap trigger: watches one look-back block of the rolling audio buffer
    for a sample at or above the trigger height and, when it fires, cuts a
    fixed-length window around the first crossing out of the last few blocks. */
module Trigger {
  import opened Common

  /** Detector parameters: which block to inspect (a negative Python index),
      the hold time in seconds, and the offset and length of the extracted
      window in samples. */
  datatype Config = Config(bufferIndex: int, hold: real, offset: int, length: nat)

  /** The constants the detector is constructed with. */
  const Default: Config := Config(-5, 0.05, -1024, 4096)

  /** The detector's view of the shared model: whether it is active, and the
      trigger height (None when unset). */
  datatype Detector = Detector(active: bool, height: Option<real>)

  /** `start`: the detector keeps its height and from now on fires exactly
      when the height is set, the look-back block crosses it and the hold
      time has passed. */
  function Start(d: Detector): (r: Detector)
    ensures r.active && r.height == d.height
    ensures forall cfg, segments, readTime :: ShouldTrigger(r, cfg, segments, readTime) <==>
              d.height.Some? && IsThresholdExceeded(segments, cfg.bufferIndex, d.height.value)
              && readTime >= cfg.hold
  {
    d.(active := true)
  }

  /** `stop`: the detector keeps its height and never fires. */
  function Stop(d: Detector): (r: Detector)
    ensures !r.active && r.height == d.height
    ensures forall cfg, segments, readTime :: !ShouldTrigger(r, cfg, segments, readTime)
  {
    d.(active := false)
  }

  /** The blocks concatenated on a trigger: the last `1 - bufferIndex` of them,
      or all of them when the buffer is shorter. */
  function BufferSegments(segments: seq<seq<real>>, bufferIndex: int): (r: seq<seq<real>>)
    ensures |r| <= |segments| && r == segments[|segments| - |r|..]
    ensures bufferIndex <= 1 ==> |r| == Min(|segments|, 1 - bufferIndex)
    ensures bufferIndex > 1 ==> r == []
  {
    if |segments| == 0 then []
    else segments[Min(Max(0, |segments| + bufferIndex - 1), |segments|)..]
  }

  /** numpy's `any(block >= height)`. */
  predicate Exceeds(block: seq<real>, height: real)
  {
    exists k | 0 <= k < |block| :: block[k] >= height
  }

  /** Whether the look-back block holds a sample at or above the height; an
      index outside the buffer (Python's IndexError) counts as no. */
  function IsThresholdExceeded(segments: seq<seq<real>>, bufferIndex: int, height: real): (r: bool)
    ensures bufferIndex < 0 && |segments| < -bufferIndex ==> !r
    ensures bufferIndex < 0 && |segments| >= -bufferIndex ==>
              (r <==> Exceeds(segments[|segments| + bufferIndex], height))
    ensures bufferIndex >= 0 ==>
              (r <==> bufferIndex < |segments| && Exceeds(segments[bufferIndex], height))
  {
    if |segments| == 0 then false
    else
      match PyIndex(segments, bufferIndex)
      case None => false
      case Some(block) => Exceeds(block, height)
  }

  /** The four conditions under which a tick fires. A tick fires only once
      the hold time has passed and only when the look-back index lies inside
      the buffer. */
  function ShouldTrigger(d: Detector, cfg: Config, segments: seq<seq<real>>, readTime: real): (r: bool)
    ensures r ==> d.active && d.height.Some? && readTime >= cfg.hold
    ensures r && cfg.bufferIndex < 0 ==> |segments| >= -cfg.bufferIndex
    ensures r && cfg.bufferIndex >= 0 ==> cfg.bufferIndex < |segments|
  {
    && d.active
    && d.height.Some?
    && IsThresholdExceeded(segments, cfg.bufferIndex, d.height.value)
    && readTime >= cfg.hold
  }

  function FirstCrossingFrom(data: seq<real>, height: real, from: nat): (r: Option<nat>)
    requires from <= |data|
    ensures r.Some? ==> from <= r.value < |data| && data[r.value] >= height
    ensures r.Some? ==> forall k :: from <= k < r.value ==> data[k] < height
    ensures r.None? ==> forall k :: from <= k < |data| ==> data[k] < height
    decreases |data| - from
  {
    if from == |data| then None
    else if data[from] >= height then Some(from)
    else FirstCrossingFrom(data, height, from + 1)
  }

  /** The index of the first sample at or above the height (numpy's
      `where(data >= height)[0][0]`), or None when there is none. */
  function FirstCrossing(data: seq<real>, height: real): (r: Option<nat>)
    ensures r.None? <==> !Exceeds(data, height)
    ensures r.Some? ==> r.value < |data| && data[r.value] >= height
    ensures r.Some? ==> forall k :: 0 <= k < r.value ==> data[k] < height
  {
    FirstCrossingFrom(data, height, 0)
  }

  /** The window `data[start : start + length]` with
      `start = max(0, first crossing + offset)`, clipped at the end of data;
      empty when no sample reaches the height. */
  function ExtractTriggerData(data: seq<real>, height: real, offset: int, length: nat): (r: seq<real>)
    ensures !Exceeds(data, height) ==> r == []
    ensures |r| <= length
    ensures Exceeds(data, height) ==>
              var start := Max(0, FirstCrossing(data, height).value + offset);
              r == data[Min(start, |data|)..Min(start + length, |data|)]
    ensures Exceeds(data, height) && offset <= 0 && -offset < length ==>
              var i := FirstCrossing(data, height).value;
              var start := Max(0, i + offset);
              && 0 <= i - start < |r|
              && r[i - start] == data[i] >= height
              && forall k :: 0 <= k < i - start ==> r[k] < height
  {
    match FirstCrossing(data, height)
    case None => []
    case Some(i) =>
      var start := Max(0, i + offset);
      var end := start + length;
      data[Min(start, |data|)..Min(end, |data|)]
  }

  /** The result of one tick: the (possibly reset) audio clock, and the
      extracted window when the detector fired. */
  datatype Tick = Tick(readTime: real, segment: Option<seq<real>>)

  /** One tick of the detector. When it fires it resets the clock, and when
      the buffer has blocks it extracts the window from their concatenation. */
  function TriggerTick(d: Detector, cfg: Config, segments: seq<seq<real>>, readTime: real): (t: Tick)
    ensures !ShouldTrigger(d, cfg, segments, readTime) ==> t == Tick(readTime, None)
    ensures ShouldTrigger(d, cfg, segments, readTime) ==> t.readTime == 0.0
    ensures ShouldTrigger(d, cfg, segments, readTime) && cfg.bufferIndex <= 0 ==> t.segment.Some?
    ensures t.segment.Some? ==> |t.segment.value| <= cfg.length
    ensures t.segment.Some? ==>
              t.segment.value == ExtractTriggerData(Flatten(BufferSegments(segments, cfg.bufferIndex)),
                                                    d.height.value, cfg.offset, cfg.length)
  {
    if !ShouldTrigger(d, cfg, segments, readTime) then Tick(readTime, None)
    else
      var window := BufferSegments(segments, cfg.bufferIndex);
      if |window| == 0 then Tick(0.0, None)
      else Tick(0.0, Some(ExtractTriggerData(Flatten(window), d.height.value, cfg.offset, cfg.length)))
  }

  /** The inspected block `segments[bufferIndex]` is one of the concatenated
      blocks, so a crossing in it is a crossing in the concatenation. */
  lemma {:induction false} InspectedBlockInWindow(segments: seq<seq<real>>, bufferIndex: int, height: real)
    requires bufferIndex < 0
    requires IsThresholdExceeded(segments, bufferIndex, height)
    ensures Exceeds(Flatten(BufferSegments(segments, bufferIndex)), height)
  {
    var window := BufferSegments(segments, bufferIndex);
    var n := |segments|;
    var j := n + bufferIndex;
    var first := n - |window|;
    assert first <= j;
    assert window[j - first] == segments[j];
    var k :| 0 <= k < |segments[j]| && segments[j][k] >= height;
    FlattenContains(window, j - first, k);
  }

  /** When the detector fires with a negative look-back index and a window
      that starts at or before the crossing, the extracted segment is never
      empty and contains the first crossing. */
  lemma FiredSegmentHoldsCrossing(d: Detector, cfg: Config, segments: seq<seq<real>>, readTime: real)
    requires ShouldTrigger(d, cfg, segments, readTime)
    requires cfg.bufferIndex < 0 && cfg.offset <= 0 && -cfg.offset < cfg.length
    ensures var t := TriggerTick(d, cfg, segments, readTime);
            t.segment.Some? && t.segment.value != [] && Exceeds(t.segment.value, d.height.value)
  {
    var h := d.height.value;
    InspectedBlockInWindow(segments, cfg.bufferIndex, h);
    var data := Flatten(BufferSegments(segments, cfg.bufferIndex));
    var seg := ExtractTriggerData(data, h, cfg.offset, cfg.length);
    var i := FirstCrossing(data, h).value;
    assert seg[i - Max(0, i + cfg.offset)] >= h;
  }

  /** A stopped detector never fires; a started one fires exactly when the
      height is set, the look-back block crosses it and the hold time is over. */
  lemma StartStop(d: Detector, cfg: Config, segments: seq<seq<real>>, readTime: real)
    ensures TriggerTick(Stop(d), cfg, segments, readTime) == Tick(readTime, None)
    ensures cfg.bufferIndex <= 0 ==>
              (TriggerTick(Start(d), cfg, segments, readTime).segment.Some? <==>
                 d.height.Some? && IsThresholdExceeded(segments, cfg.bufferIndex, d.height.value)
                 && readTime >= cfg.hold)
  {
  }
}
