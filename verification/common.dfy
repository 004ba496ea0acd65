/** Small shared vocabulary: optional values, Python-style indexing and
    slicing, numpy-style concatenation of blocks, and Python's int(). */
module Common {

  /** Python's None, or a value. */
  datatype Option<+T> = None | Some(value: T) {
    /** The value, or a default when None. */
    function GetOr(default: T): T {
      match this
      case Some(v) => v
      case None => default
    }
  }

  function Min(a: int, b: int): int { if a <= b then a else b }
  function Max(a: int, b: int): int { if a >= b then a else b }
  function MaxReal(a: real, b: real): real { if a >= b then a else b }
  function Abs(x: real): real { if x >= 0.0 then x else -x }

  /** Python's `s[i]`, with negative indices counted from the end;
      None stands for the IndexError. */
  function PyIndex<T>(s: seq<T>, i: int): (r: Option<T>)
    ensures r.Some? <==> -|s| <= i < |s|
    ensures 0 <= i < |s| ==> r == Some(s[i])
    ensures -|s| <= i < 0 ==> r == Some(s[|s| + i])
  {
    if 0 <= i < |s| then Some(s[i])
    else if -|s| <= i < 0 then Some(s[|s| + i])
    else None
  }

  /** Python's `s[k:]`: a negative k counts from the end, and k is clipped to
      the bounds of s. */
  function PySliceFrom<T>(s: seq<T>, k: int): (r: seq<T>)
    ensures |r| <= |s| && r == s[|s| - |r|..]
    ensures k < 0 ==> |r| == Min(-k, |s|)
    ensures k >= 0 ==> |r| == Max(|s| - k, 0)
  {
    if k < 0 then s[Max(|s| + k, 0)..] else s[Min(k, |s|)..]
  }

  /** numpy.concatenate over a list of 1-D blocks. */
  function Flatten<T>(blocks: seq<seq<T>>): seq<T>
  {
    if |blocks| == 0 then [] else Flatten(blocks[..|blocks| - 1]) + blocks[|blocks| - 1]
  }

  /** Total number of elements over all blocks (numpy's `size`). */
  function TotalLength<T>(blocks: seq<seq<T>>): nat
  {
    if |blocks| == 0 then 0 else TotalLength(blocks[..|blocks| - 1]) + |blocks[|blocks| - 1]|
  }

  lemma {:induction false} FlattenLength<T>(blocks: seq<seq<T>>)
    ensures |Flatten(blocks)| == TotalLength(blocks)
    decreases |blocks|
  {
    if |blocks| > 0 {
      FlattenLength(blocks[..|blocks| - 1]);
    }
  }

  lemma {:induction false} FlattenConcat<T>(a: seq<seq<T>>, b: seq<seq<T>>)
    ensures Flatten(a + b) == Flatten(a) + Flatten(b)
    decreases |b|
  {
    if |b| == 0 {
      assert a + b == a;
    } else {
      var front := b[..|b| - 1];
      assert (a + b)[..|a + b| - 1] == a + front;
      assert (a + b)[|a + b| - 1] == b[|b| - 1];
      FlattenConcat(a, front);
    }
  }

  lemma {:induction false} TotalLengthConcat<T>(a: seq<seq<T>>, b: seq<seq<T>>)
    ensures TotalLength(a + b) == TotalLength(a) + TotalLength(b)
    decreases |b|
  {
    if |b| > 0 {
      assert (a + b)[..|a + b| - 1] == a + b[..|b| - 1];
      TotalLengthConcat(a, b[..|b| - 1]);
    } else {
      assert a + b == a;
    }
  }

  /** Every block lies, in order, inside the concatenation: block j starts at
      the total length of the blocks before it. */
  lemma {:induction false} FlattenContains<T>(blocks: seq<seq<T>>, j: nat, k: nat)
    requires j < |blocks| && k < |blocks[j]|
    ensures TotalLength(blocks[..j]) + k < |Flatten(blocks)|
    ensures Flatten(blocks)[TotalLength(blocks[..j]) + k] == blocks[j][k]
  {
    var before := blocks[..j];
    var rest := blocks[j..];
    assert blocks == before + rest;
    FlattenConcat(before, rest);
    assert rest == [blocks[j]] + rest[1..];
    FlattenConcat([blocks[j]], rest[1..]);
    assert [blocks[j]][..0] == [];
    assert Flatten([blocks[j]]) == blocks[j];
    FlattenLength(before);
  }

  /** When every block has length n, the concatenation has |blocks| * n elements. */
  lemma {:induction false} TotalLengthUniform<T>(blocks: seq<seq<T>>, n: nat)
    requires forall i :: 0 <= i < |blocks| ==> |blocks[i]| == n
    ensures TotalLength(blocks) == |blocks| * n
    decreases |blocks|
  {
    if |blocks| > 0 {
      TotalLengthUniform(blocks[..|blocks| - 1], n);
    }
  }

  /** Python's int() on a float: truncation toward zero. */
  function TruncToInt(x: real): (r: int)
    ensures x >= 0.0 ==> r as real <= x < r as real + 1.0
    ensures x < 0.0 ==> r as real - 1.0 < x <= r as real
  {
    if x >= 0.0 then x.Floor else -((-x).Floor)
  }

  /** One step of a bounded window: keeping the last `size` items after one
      more, then the last `size` of that followed by the remaining items, is
      the last `size` of everything. */
  lemma SlideWindow<T>(kept: seq<T>, rest: seq<T>, size: int)
    requires 0 <= size && |kept| <= size && |rest| > 0
    ensures var h1 := (kept + [rest[0]])[Max(0, |kept| + 1 - size)..];
            && |h1| <= size
            && (h1 + rest[1..])[Max(0, |h1| + |rest| - 1 - size)..]
               == (kept + rest)[Max(0, |kept| + |rest| - size)..]
  {
    var all := kept + rest;
    var d1 := Max(0, |kept| + 1 - size);
    assert kept + [rest[0]] == all[..|kept| + 1];
    var h1 := all[..|kept| + 1][d1..];
    assert h1 == all[d1..|kept| + 1];
    assert h1 + rest[1..] == all[d1..];
    var m := Max(0, |h1| + |rest| - 1 - size);
    assert d1 + m == Max(0, |kept| + |rest| - size);
    assert all[d1..][m..] == all[d1 + m..];
  }
}
