/** The shared model's audio-facing state: each audio callback advances the
    audio clock and stores the block, which goes into the rolling buffer and,
    while a rub capture is running, into the rub session; the trigger tick
    reads the buffer and resets the clock when it fires. */
module ModelState {
  import opened Common
  import RingBuffer
  import RubSession
  import Trigger

  /** `audioTime` is the reader's own clock and `readTime` the model's copy
      of it; `triggerData` is the last extracted window. */
  datatype Model = Model(
    audioTime: real,
    readTime: real,
    block: seq<real>,
    ring: RingBuffer.Ring,
    rub: RubSession.Session,
    sampleRate: nat,
    detector: Trigger.Detector,
    triggerData: seq<real>)
  {
    ghost predicate Valid() { ring.Valid() && sampleRate > 0 }
  }

  /** The `block_data` setter: the block always goes into the rolling
      buffer, and into the rub session only while it is collecting; the
      second component is the rub progress it reports (None when idle). */
  function SetBlockData(m: Model, data: seq<real>): (r: (Model, Option<real>))
    requires m.Valid()
    ensures r.0.Valid() && r.0.block == data
    ensures r.0.ring == RingBuffer.Append(m.ring, data)
    ensures RubSession.IsActive(m.rub) ==>
              && r.0.rub.data == m.rub.data + [data]
              && r.1 == Some(r.0.rub.countingTime)
              && r.0.rub.countingTime == m.rub.countingTime + |data| as real / m.sampleRate as real
    ensures !RubSession.IsActive(m.rub) ==> r.0.rub == m.rub && r.1 == None
    ensures RubSession.IsActive(r.0.rub) == RubSession.IsActive(m.rub)
    ensures r.0.(block := m.block, ring := m.ring, rub := m.rub) == m
  {
    var m1 := m.(block := data, ring := RingBuffer.Append(m.ring, data));
    if RubSession.IsActive(m.rub) then
      var (session, progress) := RubSession.AppendFrame(m.rub, data, |data|, m.sampleRate);
      (m1.(rub := session), Some(progress))
    else (m1, None)
  }

  /** The reader's callback for one block of `|data|` frames (the selected,
      scaled channel): the clock advances by |data| / sampleRate, the model
      copies it, and the block is stored. */
  function AudioCallback(m: Model, data: seq<real>): (r: Model)
    requires m.Valid()
    ensures r.Valid()
    ensures r.audioTime == r.readTime == m.audioTime + |data| as real / m.sampleRate as real
    ensures r.ring == RingBuffer.Append(m.ring, data)
    ensures r.detector == m.detector && r.sampleRate == m.sampleRate
  {
    var t := m.audioTime + |data| as real / m.sampleRate as real;
    SetBlockData(m.(audioTime := t, readTime := t), data).0
  }

  /** `time_reset`: both clocks back to zero. */
  function TimeReset(m: Model): (r: Model)
    ensures r.audioTime == 0.0 && r.readTime == 0.0
    ensures r.(audioTime := m.audioTime, readTime := m.readTime) == m
  {
    m.(audioTime := 0.0, readTime := 0.0)
  }

  /** `Trigger.trigger` against the model: when the detector fires the
      clocks are reset and, if a window was cut, it becomes the trigger
      data. The flag says whether the trigger signal was emitted. */
  function TriggerStep(m: Model, cfg: Trigger.Config): (r: (Model, bool))
    ensures !Trigger.ShouldTrigger(m.detector, cfg, m.ring.blocks, m.readTime) ==> r == (m, false)
    ensures Trigger.ShouldTrigger(m.detector, cfg, m.ring.blocks, m.readTime) ==>
              r.0.readTime == 0.0 && r.0.audioTime == 0.0
    ensures r.1 <==> Trigger.TriggerTick(m.detector, cfg, m.ring.blocks, m.readTime).segment.Some?
    ensures r.1 ==>
              r.0.triggerData
              == Trigger.TriggerTick(m.detector, cfg, m.ring.blocks, m.readTime).segment.value
    ensures r.0.ring == m.ring && r.0.detector == m.detector && r.0.sampleRate == m.sampleRate
    ensures m.Valid() ==> r.0.Valid()
  {
    var t := Trigger.TriggerTick(m.detector, cfg, m.ring.blocks, m.readTime);
    if !Trigger.ShouldTrigger(m.detector, cfg, m.ring.blocks, m.readTime) then (m, false)
    else
      var reset := TimeReset(m);
      match t.segment
      case None => (reset, false)
      case Some(seg) => (reset.(triggerData := seg), true)
  }

  /** `start_rub_collection`: set the capture length, then start. */
  function StartRubCollection(m: Model, now: real, phase: RubSession.Phase, duration: real): (r: Model)
    ensures RubSession.IsActive(r.rub) && r.rub.phase == Some(phase) && r.rub.data == []
    ensures forall t :: RubSession.Completed(r.rub, t) <==> t >= now + duration
    ensures r.(rub := m.rub) == m
  {
    var s := m.rub.(trainTime := duration);
    RubSession.StartThenPoll(s, now, phase, now);
    m.(rub := RubSession.Start(s, now, phase))
  }

  /** Audio callbacks for a run of blocks. */
  function Ingest(m: Model, blocks: seq<seq<real>>): (r: Model)
    requires m.Valid()
    ensures r.Valid() && r.detector == m.detector && r.sampleRate == m.sampleRate
    decreases |blocks|
  {
    if |blocks| == 0 then m else Ingest(AudioCallback(m, blocks[0]), blocks[1..])
  }

  /** The clocks after a run of callbacks have advanced by the total frame
      count over the sample rate. */
  lemma {:induction false} IngestTime(m: Model, blocks: seq<seq<real>>)
    requires m.Valid() && m.readTime == m.audioTime
    ensures Ingest(m, blocks).readTime == Ingest(m, blocks).audioTime
            == m.audioTime + TotalLength(blocks) as real / m.sampleRate as real
    decreases |blocks|
  {
    if |blocks| > 0 {
      var m1 := AudioCallback(m, blocks[0]);
      IngestTime(m1, blocks[1..]);
      assert blocks == [blocks[0]] + blocks[1..];
      TotalLengthConcat([blocks[0]], blocks[1..]);
      assert [blocks[0]][..0] == [];
      assert TotalLength([blocks[0]]) == |blocks[0]|;
      RubSession.DivideSum(|blocks[0]| as real, TotalLength(blocks[1..]) as real, m.sampleRate as real);
    }
  }

  /** The rolling buffer sees every ingested block, and a collecting rub
      session receives exactly the frames its own append would. */
  lemma {:induction false} IngestFeeds(m: Model, blocks: seq<seq<real>>)
    requires m.Valid()
    ensures Ingest(m, blocks).ring == RingBuffer.AppendAll(m.ring, blocks)
    ensures RubSession.IsActive(m.rub) ==>
              Ingest(m, blocks).rub == RubSession.AppendFrames(m.rub, blocks, m.sampleRate)
    ensures !RubSession.IsActive(m.rub) ==> Ingest(m, blocks).rub == m.rub
    decreases |blocks|
  {
    if |blocks| > 0 {
      IngestFeeds(AudioCallback(m, blocks[0]), blocks[1..]);
    }
  }

  /** After the trigger fires, it cannot fire again until at least `hold`
      seconds of audio have been read: any run of blocks shorter than that
      leaves the next tick silent. */
  lemma NoRetriggerWithinHold(m: Model, cfg: Trigger.Config, blocks: seq<seq<real>>)
    requires m.Valid()
    requires Trigger.ShouldTrigger(m.detector, cfg, m.ring.blocks, m.readTime)
    requires TotalLength(blocks) as real / m.sampleRate as real < cfg.hold
    ensures var fired := TriggerStep(m, cfg).0;
            var later := Ingest(fired, blocks);
            TriggerStep(later, cfg) == (later, false)
  {
    var fired := TriggerStep(m, cfg).0;
    IngestTime(fired, blocks);
  }
}
