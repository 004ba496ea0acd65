/** The tap pipeline's last stage: a per-column z-score model. `fit` learns
    each feature column's mean and population standard deviation (a zero
    deviation is floored to 1e-8); `transform` scores each row by the mean
    absolute z-score of its features. */
module ZScore {
  import opened Common
  import opened Stats
  import opened Accumulator

  /** The value that replaces a zero column deviation. */
  const ZeroStdFloor: real := 0.00000001

  /** The fitted parameters, one entry per feature column. */
  datatype Fitted = Fitted(mean: seq<real>, std: seq<real>)
  {
    /** What `fit` guarantees: matching lengths and no zero divisor. */
    predicate Valid()
    {
      |mean| == |std| && forall j :: 0 <= j < |std| ==> std[j] > 0.0
    }
  }

  /** Column j of a rectangular matrix. */
  function Column(x: Matrix, j: nat): (c: seq<real>)
    requires Rectangular(x) && j < Width(x)
    ensures |c| == |x| && forall i :: 0 <= i < |x| ==> c[i] == x[i][j]
  {
    seq(|x|, i requires 0 <= i < |x| => x[i][j])
  }

  /** numpy.std(axis=0) with exact zeros replaced by the floor. */
  function FlooredStd(c: seq<real>, std: seq<real> -> real): (s: real)
    requires |c| > 0 && IsPopulationStd(std)
    ensures s > 0.0
    ensures std(c) == 0.0 ==> s == ZeroStdFloor
    ensures std(c) != 0.0 ==> s * s == Variance(c)
  {
    StdOf(c, std);
    if std(c) == 0.0 then ZeroStdFloor else std(c)
  }

  /** `ZScore.fit` on a non-empty matrix of rows. */
  function Fit(x: Matrix, std: seq<real> -> real): (f: Fitted)
    requires |x| > 0 && Rectangular(x) && IsPopulationStd(std)
    ensures f.Valid() && |f.mean| == Width(x)
    ensures forall j :: 0 <= j < Width(x) ==> f.mean[j] == Mean(Column(x, j))
    ensures forall j :: 0 <= j < Width(x) ==>
              (std(Column(x, j)) == 0.0 ==> f.std[j] == ZeroStdFloor)
              && (std(Column(x, j)) != 0.0 ==> f.std[j] * f.std[j] == Variance(Column(x, j)))
  {
    var w := Width(x);
    Fitted(seq(w, j requires 0 <= j < w => Mean(Column(x, j))),
           seq(w, j requires 0 <= j < w => FlooredStd(Column(x, j), std)))
  }

  /** The absolute z-scores of one row. */
  function AbsZ(f: Fitted, row: seq<real>): (z: seq<real>)
    requires f.Valid() && |row| == |f.mean|
    ensures |z| == |row|
    ensures forall j :: 0 <= j < |row| ==> z[j] == Abs((row[j] - f.mean[j]) / f.std[j])
  {
    seq(|row|, j requires 0 <= j < |row| => Abs((row[j] - f.mean[j]) / f.std[j]))
  }

  /** The anomaly score of one row: the mean of its absolute z-scores. It is
      never negative, and it is zero exactly when the row is the fitted mean. */
  function Score(f: Fitted, row: seq<real>): (s: real)
    requires f.Valid() && |row| == |f.mean| > 0
    ensures s >= 0.0
    ensures s == 0.0 <==> row == f.mean
  {
    var z := AbsZ(f, row);
    MeanNonNegative(z);
    AllZeroIffMean(f, row);
    Mean(z)
  }

  /** The absolute z-scores are all zero exactly when the row is the mean,
      and their sum is zero exactly when they all are. */
  lemma AllZeroIffMean(f: Fitted, row: seq<real>)
    requires f.Valid() && |row| == |f.mean| > 0
    ensures Mean(AbsZ(f, row)) == 0.0 <==> row == f.mean
  {
    var z := AbsZ(f, row);
    SumZeroIff(z);
    if row == f.mean {
      assert Constant(z, 0.0);
    }
    if Constant(z, 0.0) {
      forall j | 0 <= j < |row|
        ensures row[j] == f.mean[j]
      {
        ZeroQuotient(row[j] - f.mean[j], f.std[j]);
      }
    }
  }

  lemma ZeroQuotient(a: real, d: real)
    requires d > 0.0 && Abs(a / d) == 0.0
    ensures a == 0.0
  {
  }

  /** `ZScore.transform`: one score per row, in row order, each non-negative. */
  function Transform(f: Fitted, x: Matrix): (scores: seq<real>)
    requires f.Valid() && |f.mean| > 0
    requires Rectangular(x) && (|x| == 0 || Width(x) == |f.mean|)
    ensures |scores| == |x|
    ensures forall i :: 0 <= i < |x| ==> scores[i] >= 0.0
    ensures forall i :: 0 <= i < |x| ==> (scores[i] == 0.0 <==> x[i] == f.mean)
  {
    seq(|x|, i requires 0 <= i < |x| => Score(f, x[i]))
  }

  /** Identical training rows are their own mean, with every deviation
      floored; so transforming that row again scores 0. */
  lemma IdenticalRows(x: Matrix, v: seq<real>, std: seq<real> -> real)
    requires |x| > 0 && |v| > 0 && IsPopulationStd(std)
    requires forall i :: 0 <= i < |x| ==> x[i] == v
    ensures Rectangular(x) && Width(x) == |v|
    ensures Fit(x, std).mean == v
    ensures forall j :: 0 <= j < |v| ==> Fit(x, std).std[j] == ZeroStdFloor
    ensures Transform(Fit(x, std), [v]) == [0.0]
  {
    var f := Fit(x, std);
    forall j | 0 <= j < |v|
      ensures f.mean[j] == v[j] && f.std[j] == ZeroStdFloor
    {
      var c := Column(x, j);
      assert Constant(c, v[j]);
      MeanConstant(c, v[j]);
      StdConstant(c, v[j], std);
    }
    assert f.mean == v;
  }

  /** What `fit` hands back to its caller: it has no return statement, so
      the caller receives None. */
  function FitResult(x: Matrix, std: seq<real> -> real): (r: Option<Fitted>)
    requires |x| > 0 && Rectangular(x) && IsPopulationStd(std)
  {
    None
  }

  /** `fit_transform` as written: `self.fit(X).transform(X)` calls transform
      on fit's return value; None stands for the AttributeError. */
  function FitTransformAsWritten(x: Matrix, std: seq<real> -> real): (r: Option<seq<real>>)
    requires |x| > 0 && Rectangular(x) && IsPopulationStd(std)
    ensures r.None?
  {
    match FitResult(x, std)
    case None => None
  }

  /** The as-written `fit_transform` fails on every input, even the
      smallest one-row, one-column matrix. */
  lemma FitTransformAlwaysFails(x: Matrix, std: seq<real> -> real)
    requires |x| > 0 && Rectangular(x) && IsPopulationStd(std)
    ensures FitTransformAsWritten(x, std) == None
    ensures FitTransformAsWritten([[1.0]], std) == None
  {
  }

  /** `fit_transform` as evidently intended: fit on X, then score X. */
  function FitTransform(x: Matrix, std: seq<real> -> real): (scores: seq<real>)
    requires |x| > 0 && Rectangular(x) && Width(x) > 0 && IsPopulationStd(std)
    ensures |scores| == |x|
    ensures forall i :: 0 <= i < |x| ==> scores[i] >= 0.0
  {
    Transform(Fit(x, std), x)
  }

  /** The intended `fit_transform` scores every row of a matrix of identical
      rows as 0. */
  lemma FitTransformIdentical(x: Matrix, v: seq<real>, std: seq<real> -> real)
    requires |x| > 0 && |v| > 0 && IsPopulationStd(std)
    requires forall i :: 0 <= i < |x| ==> x[i] == v
    ensures Rectangular(x) && Width(x) == |v|
    ensures FitTransform(x, std) == seq(|x|, _ => 0.0)
  {
    IdenticalRows(x, v, std);
    var scores := FitTransform(x, std);
    forall i | 0 <= i < |x|
      ensures scores[i] == 0.0
    {
      assert x[i] == Fit(x, std).mean;
    }
  }
}
