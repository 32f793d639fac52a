/**
 * Exponential tilting of the index population (indcomp/_maic.py:85-91 and
 * 123-136): the objective minimised by the solver, its gradient, the weights
 * at the solver's answer, their rescaling to the population size and the
 * effective sample size.
 *
 * The exponential is a parameter: any function that is strictly positive and
 * maps 0 to 1 will do, which is all the proofs use of `np.exp`.
 */
module Tilting {
  import opened Exceptions
  import opened MatchCheck
  import opened Sums
  import opened Design

  /** What the model relies on about the exponential function. */
  ghost predicate IsExp(exp: real -> real)
  {
    exp(0.0) == 1.0 && forall x :: exp(x) > 0.0
  }

  /** Record `i` of the design: one value per column. */
  function Row(x: Matrix, n: nat, i: nat): (r: seq<real>)
    requires HasRows(x, n) && i < n
    ensures |r| == |x| && forall j :: 0 <= j < |x| ==> r[j] == x[j].1[i]
  {
    seq(|x|, j requires 0 <= j < |x| => x[j].1[i])
  }

  /** `np.exp(np.matmul(X, a))`: one tilt factor per record. */
  function Tilt(exp: real -> real, x: Matrix, n: nat, a: seq<real>): (w: seq<real>)
    requires HasRows(x, n) && |a| == |x|
    ensures |w| == n
    ensures IsExp(exp) ==> AllPositive(w)
  {
    seq(n, i requires 0 <= i < n => exp(Dot(Row(x, n, i), a)))
  }

  /**
   * `_objfn`: the sum of the tilt factors, which is positive wherever it is
   * evaluated as long as there is a record.
   */
  ghost function Objective(exp: real -> real, x: Matrix, n: nat, a: seq<real>): (r: real)
    requires HasRows(x, n) && |a| == |x|
    ensures IsExp(exp) && n > 0 ==> r > 0.0
  {
    var w := Tilt(exp, x, n, a);
    if n > 0 && IsExp(exp) then
      SumPositive(w);
      Sum(w)
    else
      Sum(w)
  }

  /** `_gradfn`: for every column, the tilt-weighted sum of its values. */
  function Gradient(exp: real -> real, x: Matrix, n: nat, a: seq<real>): (g: seq<real>)
    requires HasRows(x, n) && |a| == |x|
    ensures |g| == |x|
  {
    var w := Tilt(exp, x, n, a);
    seq(|x|, j requires 0 <= j < |x| => Dot(w, x[j].1))
  }

  /** The solver's starting point: one zero per design column. */
  function StartPoint(x: Matrix): (a: seq<real>)
    ensures |a| == |x| && AllAt(a, 0.0)
  {
    Constant(|x|, 0.0)
  }

  /** At the starting point every record has weight 1 and the objective is the record count. */
  lemma {:induction false} StartPointIsUntilted(exp: real -> real, x: Matrix, n: nat)
    requires IsExp(exp) && HasRows(x, n)
    ensures Tilt(exp, x, n, StartPoint(x)) == Constant(n, 1.0)
    ensures Objective(exp, x, n, StartPoint(x)) == n as real
  {
    var w := Tilt(exp, x, n, StartPoint(x));
    forall i | 0 <= i < n ensures w[i] == 1.0 {
      DotZero(Row(x, n, i));
    }
    assert w == Constant(n, 1.0);
    SumConstant(n, 1.0);
  }

  /** `weights_ / np.sum(weights_) * len(df_index)`. */
  function Scaled(w: seq<real>, n: nat): (r: seq<real>)
    requires Sum(w) != 0.0
    ensures |r| == |w|
  {
    seq(|w|, i requires 0 <= i < |w| => w[i] / Sum(w) * n as real)
  }

  /** Rescaling multiplies every weight by the same factor, so it keeps their ratios. */
  lemma {:induction false} ScaledIsProportional(w: seq<real>, n: nat)
    requires Sum(w) != 0.0
    ensures Scaled(w, n) == Scale(w, n as real / Sum(w))
  {
    var s, r := Sum(w), Scaled(w, n);
    var f := n as real / s;
    forall i | 0 <= i < |w| ensures r[i] == Scale(w, f)[i] {
      DivTimes(w[i], s, n as real);
    }
  }

  /** Positive weights stay positive after rescaling to a non-empty population. */
  lemma {:induction false} ScaledPositive(w: seq<real>, n: nat)
    requires |w| > 0 && AllPositive(w) && n > 0
    ensures Sum(w) > 0.0
    ensures AllPositive(Scaled(w, n))
  {
    SumPositive(w);
    ScaledIsProportional(w, n);
    PositiveQuotient(n as real, Sum(w));
    ScalePositive(w, n as real / Sum(w));
  }

  /** The scaled weights add up to the population size. */
  lemma {:induction false} ScaledSumsToCount(w: seq<real>, n: nat)
    requires |w| > 0 && AllPositive(w)
    ensures Sum(w) > 0.0
    ensures Sum(Scaled(w, n)) == n as real
  {
    SumPositive(w);
    var f := n as real / Sum(w);
    calc {
      Sum(Scaled(w, n));
      == { ScaledIsProportional(w, n); }
      Sum(Scale(w, f));
      == { SumScaled(w, f); }
      Sum(w) * f;
      == { TimesQuotient(Sum(w), n as real); }
      n as real;
    }
  }

  /** `np.sum(w) ** 2 / np.sum(w ** 2)`. */
  function Ess(w: seq<real>): (r: real)
    requires SumSquares(w) != 0.0
    ensures r >= 0.0
  {
    SquareNonNegative(Sum(w));
    SumSquaresNonNegative(w);
    QuotientNonNegative(Square(Sum(w)), SumSquares(w));
    Square(Sum(w)) / SumSquares(w)
  }

  lemma {:induction false} SumSquaresPositive(w: seq<real>)
    requires |w| > 0 && AllPositive(w)
    ensures SumSquares(w) > 0.0
  {
    SumPositive(w);
    CauchySchwarz(w);
    SquareNonNegative(Sum(w));
    assert |w| as real * SumSquares(w) > 0.0;
    SignOfProduct(|w| as real, SumSquares(w));
  }

  /** The effective sample size is positive and at most the number of records. */
  lemma {:induction false} EssBounds(w: seq<real>)
    requires |w| > 0 && AllPositive(w)
    ensures SumSquares(w) > 0.0
    ensures 0.0 < Ess(w) <= |w| as real
  {
    SumSquaresPositive(w);
    SumPositive(w);
    CauchySchwarz(w);
    SquareNonNegative(Sum(w));
    PositiveQuotient(Square(Sum(w)), SumSquares(w));
    QuotientAtMost(Square(Sum(w)), SumSquares(w), |w| as real);
  }

  /**
   * Everything calc_weights relies on about strictly positive weights: their
   * sum is positive, the rescaled weights add up to the population size and
   * the effective sample size lies in (0, N].
   */
  lemma {:induction false} WeightsCalibrated(w: seq<real>, n: nat)
    requires |w| == n && n > 0 && AllPositive(w)
    ensures Sum(w) > 0.0 && SumSquares(w) > 0.0
    ensures Sum(Scaled(w, n)) == n as real
    ensures 0.0 < Ess(w) <= n as real
  {
    ScaledSumsToCount(w, n);
    EssBounds(w);
  }

  /** The effective sample size reaches the number of records exactly when all weights are equal. */
  lemma {:induction false} EssFullIffEqualWeights(w: seq<real>)
    requires |w| > 0 && AllPositive(w)
    ensures SumSquares(w) > 0.0
    ensures Ess(w) == |w| as real <==> AllEqual(w)
  {
    SumSquaresPositive(w);
    CauchySchwarzEquality(w);
    QuotientEquals(Square(Sum(w)), SumSquares(w), |w| as real);
    DeviationZero(w, Mean(w));
    AllAtMeanIffAllEqual(w);
  }

  /** Every entry equals the mean exactly when all entries are equal. */
  lemma {:induction false} AllAtMeanIffAllEqual(w: seq<real>)
    requires |w| > 0
    ensures AllAt(w, Mean(w)) <==> AllEqual(w)
  {
    if AllEqual(w) {
      assert w == Constant(|w|, w[0]);
      SumConstant(|w|, w[0]);
      CancelCountOut(|w| as real, w[0]);
    }
  }

  /** The weighted mean `Σ w·x / Σ w`. */
  function WeightedMean(w: seq<real>, x: seq<real>): (r: real)
    requires |w| == |x| && Sum(w) != 0.0
  {
    Dot(w, x) / Sum(w)
  }

  /**
   * The weighted comparison averages a column times the scaled weights over
   * the records; that average is the weighted mean under the raw weights.
   */
  lemma {:induction false} ScaledAverageIsWeightedMean(w: seq<real>, x: seq<real>)
    requires |w| == |x| && |w| > 0 && AllPositive(w)
    ensures Sum(w) > 0.0
    ensures Dot(x, Scaled(w, |w|)) / |w| as real == WeightedMean(w, x)
  {
    SumPositive(w);
    ScaledIsProportional(w, |w|);
    AverageOfScaled(x, w, |w| as real, Sum(w));
  }

  lemma {:induction false} AverageOfScaled(x: seq<real>, w: seq<real>, n: real, s: real)
    requires |x| == |w| && n != 0.0 && s != 0.0
    ensures Dot(x, Scale(w, n / s)) / n == Dot(w, x) / s
  {
    DotScaled(x, w, n / s);
    DotCommutes(x, w);
    Cancel(Dot(x, Scale(w, n / s)), Dot(w, x), n, s);
  }

  /**
   * The weights give the centred column `x − t` a zero weighted sum exactly
   * when they give `x` the weighted mean `t`.
   */
  lemma {:induction false} CentredSumZeroIffMean(w: seq<real>, x: seq<real>, t: real)
    requires |w| == |x| && Sum(w) > 0.0
    ensures Dot(w, Shift(x, t)) == 0.0 <==> WeightedMean(w, x) == t
  {
    DotShifted(w, x, t);
    QuotientEquals(Dot(w, x), Sum(w), t);
    assert t * Sum(w) == Sum(w) * t;
  }

  /**
   * The matching promise: at any point where the gradient vanishes, the tilt
   * factors reweight the index population so that every mean-matched column
   * has the target's mean, and every std-matched column has the target's
   * second moment std² + mean², for the entry that last wrote that column.
   */
  lemma {:induction false} StationaryPointMatchesTargets(exp: real -> real, spec: MatchSpec, index: IndexFrame,
                                      target: TargetRow, a: seq<real>, i: nat)
    requires IsExp(exp) && SpecValid(spec, index, target) && index.rows > 0
    requires i < |spec| && LastWriter(spec, index, target, i)
    requires |a| == |BuildDesign(spec, index, target)|
    requires forall j :: 0 <= j < |a| ==>
               Gradient(exp, BuildDesign(spec, index, target), index.rows, a)[j] == 0.0
    ensures Sum(Tilt(exp, BuildDesign(spec, index, target), index.rows, a)) > 0.0
    ensures IsMeanEntry(spec[i].1) ==>
      WeightedMean(Tilt(exp, BuildDesign(spec, index, target), index.rows, a),
                   index.columns[spec[i].1.items[1]])
      == target[spec[i].0]
    ensures IsStdEntry(spec[i].1) ==>
      WeightedMean(Tilt(exp, BuildDesign(spec, index, target), index.rows, a),
                   Squares(index.columns[spec[i].1.items[1]]))
      == Square(target[spec[i].0]) + Square(target[spec[i].1.items[2]])
  {
    var x := BuildDesign(spec, index, target);
    var w := Tilt(exp, x, index.rows, a);
    var (k, v) := spec[i];
    SumPositive(w);
    LastWriterBalanced(exp, spec, index, target, a, i);
    EntryColumnCentres(k, v, index, target);
    var c := index.columns[v.items[1]];
    if IsMeanEntry(v) {
      CentredSumZeroIffMean(w, c, target[k]);
    } else {
      CentredSumZeroIffMean(w, Squares(c), Square(target[k]) + Square(target[v.items[2]]));
    }
  }

  /** Where the gradient vanishes, the column of a last-writing entry has a zero tilt-weighted sum. */
  lemma {:induction false} LastWriterBalanced(exp: real -> real, spec: MatchSpec, index: IndexFrame,
                                              target: TargetRow, a: seq<real>, i: nat)
    requires SpecValid(spec, index, target)
    requires i < |spec| && LastWriter(spec, index, target, i)
    requires |a| == |BuildDesign(spec, index, target)|
    requires forall j :: 0 <= j < |a| ==>
               Gradient(exp, BuildDesign(spec, index, target), index.rows, a)[j] == 0.0
    ensures Dot(Tilt(exp, BuildDesign(spec, index, target), index.rows, a),
                EntryColumn(spec[i].0, spec[i].1, index, target)) == 0.0
  {
    DesignColumnOfLastWriter(spec, index, target, i);
    StationaryColumn(exp, BuildDesign(spec, index, target), index.rows, a,
                     ColumnName(spec[i].1), EntryColumn(spec[i].0, spec[i].1, index, target));
  }

  /** Where the gradient vanishes, every column of the design has a zero tilt-weighted sum. */
  lemma {:induction false} StationaryColumn(exp: real -> real, x: Matrix, n: nat, a: seq<real>, name: string, col: seq<real>)
    requires HasRows(x, n) && |a| == |x|
    requires forall j :: 0 <= j < |a| ==> Gradient(exp, x, n, a)[j] == 0.0
    requires Lookup(x, name) == Some(col)
    ensures |col| == n
    ensures Dot(Tilt(exp, x, n, a), col) == 0.0
  {
    LookupFound(x, name);
    var j :| 0 <= j < |x| && x[j] == (name, col);
    assert Gradient(exp, x, n, a)[j] == Dot(Tilt(exp, x, n, a), x[j].1);
  }
}
