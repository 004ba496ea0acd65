/** The rolling audio history: a deque of blocks with a fixed maximum length,
    zero-filled at start, whose oldest block is evicted on every append once
    it is full. */
module RingBuffer {
  import opened Common

  /** `blocks` oldest first; `capacity` is the deque's maxlen. */
  datatype Ring = Ring(blocks: seq<seq<real>>, capacity: nat)
  {
    ghost predicate Valid() { |blocks| <= capacity }
  }

  /** `int(buffer_time * (sample_rate / block_size))`. */
  function Capacity(bufferTime: real, sampleRate: nat, blockSize: nat): (n: nat)
    requires bufferTime >= 0.0 && blockSize > 0
    ensures n as real <= bufferTime * (sampleRate as real / blockSize as real) < n as real + 1.0
  {
    TruncToInt(bufferTime * (sampleRate as real / blockSize as real))
  }

  /** One second of 48 kHz audio in blocks of 2048 samples holds 23 blocks
      (the fraction 0.4375 of a block is truncated away). */
  lemma DefaultCapacity()
    ensures Capacity(1.0, 48000, 2048) == 23
  {
    assert 1.0 * (48000 as real / 2048 as real) == 23.4375;
  }

  function Zeros(n: nat): (z: seq<real>)
    ensures |z| == n && forall i :: 0 <= i < n ==> z[i] == 0.0
  {
    seq(n, _ => 0.0)
  }

  /** The initial buffer: `capacity` zero blocks of `blockSize` samples. */
  function Make(bufferTime: real, sampleRate: nat, blockSize: nat): (r: Ring)
    requires bufferTime >= 0.0 && blockSize > 0
    ensures r.Valid() && |r.blocks| == r.capacity == Capacity(bufferTime, sampleRate, blockSize)
    ensures forall i :: 0 <= i < |r.blocks| ==> r.blocks[i] == Zeros(blockSize)
  {
    var n := Capacity(bufferTime, sampleRate, blockSize);
    Ring(seq(n, _ => Zeros(blockSize)), n)
  }

  /** deque.append on a bounded deque: a full deque drops its oldest block
      first, and a deque of capacity 0 stores nothing. */
  function Append(r: Ring, b: seq<real>): (r': Ring)
    requires r.Valid()
    ensures r'.Valid() && r'.capacity == r.capacity
    ensures r'.blocks == (r.blocks + [b])[Max(0, |r.blocks| + 1 - r.capacity)..]
    ensures r.capacity > 0 ==> |r'.blocks| > 0 && r'.blocks[|r'.blocks| - 1] == b
    ensures |r.blocks| == r.capacity ==> |r'.blocks| == r.capacity
  {
    if |r.blocks| < r.capacity then r.(blocks := r.blocks + [b])
    else if r.capacity == 0 then r
    else r.(blocks := r.blocks[1..] + [b])
  }

  /** The `buffer_data` getter: all blocks concatenated, oldest first. */
  function Snapshot(r: Ring): (s: seq<real>)
    ensures |s| == TotalLength(r.blocks)
    ensures |r.blocks| > 0 ==> |s| >= |r.blocks[|r.blocks| - 1]|
    ensures |r.blocks| > 0 ==> s[|s| - |r.blocks[|r.blocks| - 1]|..] == r.blocks[|r.blocks| - 1]
  {
    FlattenLength(r.blocks);
    Flatten(r.blocks)
  }

  /** A full buffer of `blockSize`-sample blocks always snapshots to
      capacity * blockSize samples, and appending another such block keeps
      it that way. */
  lemma SnapshotLength(r: Ring, blockSize: nat, b: seq<real>)
    requires r.Valid() && |r.blocks| == r.capacity
    requires forall i :: 0 <= i < |r.blocks| ==> |r.blocks[i]| == blockSize
    requires |b| == blockSize
    ensures |Snapshot(r)| == r.capacity * blockSize
    ensures |Snapshot(Append(r, b))| == r.capacity * blockSize
  {
    FlattenLength(r.blocks);
    TotalLengthUniform(r.blocks, blockSize);
    var r' := Append(r, b);
    FlattenLength(r'.blocks);
    TotalLengthUniform(r'.blocks, blockSize);
  }

  /** After an append the snapshot ends with the new block, preceded by the
      blocks that were kept, in their old order. */
  lemma AppendSnapshot(r: Ring, b: seq<real>)
    requires r.Valid() && r.capacity > 0
    ensures var kept := r.blocks[Max(0, |r.blocks| + 1 - r.capacity)..];
            Snapshot(Append(r, b)) == Flatten(kept) + b
    ensures |Snapshot(Append(r, b))| >= |b|
    ensures Snapshot(Append(r, b))[|Snapshot(Append(r, b))| - |b|..] == b
  {
    var kept := r.blocks[Max(0, |r.blocks| + 1 - r.capacity)..];
    assert Append(r, b).blocks == kept + [b];
    assert (kept + [b])[..|kept|] == kept;
  }

  /** Appending blocks one after another. */
  function AppendAll(r: Ring, bs: seq<seq<real>>): (r': Ring)
    requires r.Valid()
    ensures r'.Valid() && r'.capacity == r.capacity
    decreases |bs|
  {
    if |bs| == 0 then r else AppendAll(Append(r, bs[0]), bs[1..])
  }

  /** After any number of appends the buffer holds the most recent
      `capacity` blocks of everything it has seen, oldest first. */
  lemma {:induction false} AppendAllKeepsMostRecent(r: Ring, bs: seq<seq<real>>)
    requires r.Valid()
    ensures AppendAll(r, bs).blocks == (r.blocks + bs)[Max(0, |r.blocks| + |bs| - r.capacity)..]
    decreases |bs|
  {
    if |bs| > 0 {
      var r1 := Append(r, bs[0]);
      AppendAllKeepsMostRecent(r1, bs[1..]);
      SlideWindow(r.blocks, bs, r.capacity);
    }
  }
}
