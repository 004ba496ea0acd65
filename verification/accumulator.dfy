/** The growable train/threshold matrices behind the `train_data` and
    `threshold_data` properties: assignment stacks rows (numpy atleast_2d then
    vstack), deletion empties the matrix, and the sample count is its number
    of rows. */
module Accumulator {
  import opened Common

  /** A 2-D numpy array as its rows. */
  type Matrix = seq<seq<real>>

  predicate Rectangular(m: Matrix)
  {
    forall i :: 0 <= i < |m| ==> |m[i]| == |m[0]|
  }

  /** Number of columns (0 for a matrix with no rows). */
  function Width(m: Matrix): nat
  {
    if |m| == 0 then 0 else |m[0]|
  }

  /** numpy's `size`: zero exactly when there are no rows or no columns. */
  function Size(m: Matrix): (n: nat)
    requires Rectangular(m)
    ensures n == 0 <==> |m| == 0 || Width(m) == 0
  {
    TotalLengthUniform(m, Width(m));
    assert |m| > 0 && Width(m) > 0 ==> |m| * Width(m) >= Width(m) > 0;
    TotalLength(m)
  }

  /** numpy.atleast_2d of a 1-D array: one row. An empty array becomes one
      empty row, whose size is still 0. */
  function Row(v: seq<real>): (m: Matrix)
    ensures |m| == 1 && Rectangular(m) && m[0] == v
  {
    [v]
  }

  /** The setter. Assigning to a matrix of size 0 replaces it; otherwise the
      rows are stacked below the stored ones, and a column mismatch is
      vstack's ValueError (None). */
  function Assign(stored: Matrix, value: Matrix): (r: Option<Matrix>)
    requires Rectangular(stored) && Rectangular(value)
    ensures Size(stored) == 0 ==> r == Some(value)
    ensures Size(stored) > 0 ==> (r.Some? <==> Width(value) == Width(stored))
    ensures Size(stored) > 0 && r.Some? ==>
              && |r.value| == |stored| + |value|
              && r.value[..|stored|] == stored
              && r.value[|stored|..] == value
    ensures r.Some? ==> Rectangular(r.value)
  {
    if Size(stored) == 0 then Some(value)
    else if Width(value) == Width(stored) then Some(stored + value)
    else None
  }

  /** The deleter: back to an empty matrix. */
  const Empty: Matrix := []

  /** Assigning one 1-D sample to a non-empty accumulator of the same width
      adds exactly one row at the end and leaves the earlier rows alone;
      assigning it to an empty accumulator stores just that row. */
  lemma AssignRow(stored: Matrix, v: seq<real>)
    requires Rectangular(stored)
    ensures Size(stored) == 0 ==> Assign(stored, Row(v)) == Some([v])
    ensures Size(stored) > 0 && |v| == Width(stored) ==>
              Assign(stored, Row(v)) == Some(stored + [v])
    ensures Size(stored) > 0 && |v| != Width(stored) ==> Assign(stored, Row(v)) == None
  {
  }

  /** An empty sample is counted as one row but is overwritten by the next
      assignment. */
  lemma EmptyRowIsReplaced(v: seq<real>)
    ensures Assign(Empty, Row([])) == Some([[]])
    ensures Assign([[]], Row(v)) == Some([v])
  {
    assert Size([[]]) == 0;
  }

  /** Collecting samples of one non-zero width into an empty accumulator, one
      after another. */
  function Collect(stored: Matrix, samples: seq<seq<real>>): Option<Matrix>
    requires Rectangular(stored)
    decreases |samples|
  {
    if |samples| == 0 then Some(stored)
    else
      match Assign(stored, Row(samples[0]))
      case None => None
      case Some(m) => Collect(m, samples[1..])
  }

  /** Starting from an empty accumulator, n samples of one non-zero width
      leave exactly those n samples as the rows, in order. */
  lemma {:induction false} CollectFromEmpty(stored: Matrix, samples: seq<seq<real>>, w: nat)
    requires w > 0
    requires forall i :: 0 <= i < |samples| ==> |samples[i]| == w
    requires stored == [] || (Rectangular(stored) && Width(stored) == w)
    ensures Collect(stored, samples) == Some(stored + samples)
    decreases |samples|
  {
    if |samples| == 0 {
      assert stored + samples == stored;
    } else {
      var m := Assign(stored, Row(samples[0]));
      if stored == [] {
        assert m == Some([samples[0]]);
      } else {
        assert Size(stored) > 0;
        assert m == Some(stored + [samples[0]]);
      }
      var next := m.value;
      assert Rectangular(next) && Width(next) == w;
      CollectFromEmpty(next, samples[1..], w);
      assert next + samples[1..] == stored + samples;
    }
  }
}
