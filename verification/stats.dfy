/** Population statistics over real samples, as numpy's mean and std compute
    them (ddof = 0). A real square root cannot be defined here, so the standard
    deviation is a function the caller supplies, characterised by
    IsPopulationStd: non-negative, and its square is the population variance. */
module Stats {
  import opened Common

  function Sum(xs: seq<real>): real
  {
    if |xs| == 0 then 0.0 else Sum(xs[..|xs| - 1]) + xs[|xs| - 1]
  }

  /** numpy.mean. */
  function Mean(xs: seq<real>): real
    requires |xs| > 0
  {
    Sum(xs) / |xs| as real
  }

  /** Squared deviations from a centre c. */
  function SquaredDeviations(xs: seq<real>, c: real): (r: seq<real>)
    ensures |r| == |xs|
    ensures forall i :: 0 <= i < |xs| ==> r[i] == (xs[i] - c) * (xs[i] - c)
  {
    seq(|xs|, i requires 0 <= i < |xs| => (xs[i] - c) * (xs[i] - c))
  }

  /** numpy.var with ddof = 0. */
  function Variance(xs: seq<real>): real
    requires |xs| > 0
  {
    Mean(SquaredDeviations(xs, Mean(xs)))
  }

  /** The caller's numpy.std: the non-negative square root of the variance. */
  ghost predicate IsPopulationStd(std: seq<real> -> real)
  {
    forall xs {:trigger std(xs)} :: |xs| > 0 ==> std(xs) >= 0.0 && std(xs) * std(xs) == Variance(xs)
  }

  predicate Constant(xs: seq<real>, c: real)
  {
    forall i :: 0 <= i < |xs| ==> xs[i] == c
  }

  lemma {:induction false} SumConstant(xs: seq<real>, c: real)
    requires Constant(xs, c)
    ensures Sum(xs) == |xs| as real * c
    decreases |xs|
  {
    if |xs| > 0 {
      SumConstant(xs[..|xs| - 1], c);
    }
  }

  /** The mean of identical samples is that sample. */
  lemma MeanConstant(xs: seq<real>, c: real)
    requires |xs| > 0 && Constant(xs, c)
    ensures Mean(xs) == c
  {
    SumConstant(xs, c);
  }

  lemma {:induction false} SumNonNegative(xs: seq<real>)
    requires forall i :: 0 <= i < |xs| ==> xs[i] >= 0.0
    ensures Sum(xs) >= 0.0
    decreases |xs|
  {
    if |xs| > 0 {
      SumNonNegative(xs[..|xs| - 1]);
    }
  }

  /** A sum of non-negative values is zero exactly when every value is. */
  lemma {:induction false} SumZeroIff(xs: seq<real>)
    requires forall i :: 0 <= i < |xs| ==> xs[i] >= 0.0
    ensures Sum(xs) == 0.0 <==> Constant(xs, 0.0)
    decreases |xs|
  {
    if |xs| > 0 {
      var front := xs[..|xs| - 1];
      SumZeroIff(front);
      SumNonNegative(front);
      if Constant(xs, 0.0) {
        assert Constant(front, 0.0);
      }
      if Sum(xs) == 0.0 {
        assert Sum(front) == 0.0 && xs[|xs| - 1] == 0.0;
        forall i | 0 <= i < |xs|
          ensures xs[i] == 0.0
        {
          if i < |xs| - 1 {
            assert xs[i] == front[i];
          }
        }
      }
    }
  }

  /** A mean of non-negative values is non-negative. */
  lemma MeanNonNegative(xs: seq<real>)
    requires |xs| > 0
    requires forall i :: 0 <= i < |xs| ==> xs[i] >= 0.0
    ensures Mean(xs) >= 0.0
  {
    SumNonNegative(xs);
  }

  /** The one fact IsPopulationStd gives about a particular sample. */
  lemma StdOf(xs: seq<real>, std: seq<real> -> real)
    requires |xs| > 0 && IsPopulationStd(std)
    ensures std(xs) >= 0.0 && std(xs) * std(xs) == Variance(xs)
  {
  }

  lemma MulPositive(a: real, b: real)
    requires a > 0.0 && b > 0.0
    ensures a * b > 0.0
  {
  }

  lemma SquareMonotone(x: real, y: real)
    requires 0.0 <= x < y
    ensures x * x < y * y
  {
    MulPositive(y - x, y + x);
    assert y * y - x * x == (y - x) * (y + x);
  }

  /** Non-negative square roots are unique. */
  lemma SqrtUnique(s: real, h: real)
    requires s >= 0.0 && h >= 0.0 && s * s == h * h
    ensures s == h
  {
    if s < h {
      SquareMonotone(s, h);
    } else if h < s {
      SquareMonotone(h, s);
    }
  }

  lemma VarianceConstant(xs: seq<real>, c: real)
    requires |xs| > 0 && Constant(xs, c)
    ensures Variance(xs) == 0.0
  {
    MeanConstant(xs, c);
    var d := SquaredDeviations(xs, c);
    forall i | 0 <= i < |d|
      ensures d[i] == 0.0
    {
      assert xs[i] == c;
      assert d[i] == (xs[i] - c) * (xs[i] - c);
      assert d[i] == 0.0 * 0.0;
    }
    MeanConstant(d, 0.0);
  }

  /** Identical samples have zero variance and therefore zero standard deviation. */
  lemma StdConstant(xs: seq<real>, c: real, std: seq<real> -> real)
    requires |xs| > 0 && Constant(xs, c) && IsPopulationStd(std)
    ensures std(xs) == 0.0
  {
    VarianceConstant(xs, c);
    StdOf(xs, std);
    SqrtUnique(std(xs), 0.0);
  }

  lemma VariancePair(a: real, b: real)
    ensures Mean([a, b]) == (a + b) / 2.0
    ensures Variance([a, b]) == (Abs(a - b) / 2.0) * (Abs(a - b) / 2.0)
  {
    var xs := [a, b];
    assert xs[..1] == [a] && [a][..0] == [];
    assert Sum([a]) == a;
    assert Sum(xs) == a + b;
    var m := (a + b) / 2.0;
    var d := SquaredDeviations(xs, m);
    assert d[..1] == [d[0]] && [d[0]][..0] == [];
    assert Sum(d) == d[0] + d[1];
    var h := Abs(a - b) / 2.0;
    assert d[0] == h * h && d[1] == h * h;
  }

  /** The standard deviation of a pair (a, b) is |a - b| / 2. */
  lemma StdPair(a: real, b: real, std: seq<real> -> real)
    requires IsPopulationStd(std)
    ensures std([a, b]) == Abs(a - b) / 2.0
  {
    VariancePair(a, b);
    StdOf([a, b], std);
    SqrtUnique(std([a, b]), Abs(a - b) / 2.0);
  }
}
