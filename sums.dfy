/**
 * Finite sums over real vectors: the reductions `np.sum` and `np.dot`
 * that the weighting code applies, with the algebra the proofs about
 * weights need (linearity, positivity, Cauchy-Schwarz).
 */
module Sums {

  function Sum(s: seq<real>): (r: real)
  {
    if |s| == 0 then 0.0 else s[0] + Sum(s[1..])
  }

  /** The inner product of two vectors of equal length. */
  function Dot(a: seq<real>, b: seq<real>): (r: real)
    requires |a| == |b|
  {
    if |a| == 0 then 0.0 else a[0] * b[0] + Dot(a[1..], b[1..])
  }

  function Square(x: real): (r: real)
  {
    x * x
  }

  /** Sum of the squared entries, `np.sum(w ** 2)`. */
  function SumSquares(w: seq<real>): (r: real)
  {
    if |w| == 0 then 0.0 else Square(w[0]) + SumSquares(w[1..])
  }

  lemma {:induction false} SumSquaresNonNegative(w: seq<real>)
    ensures SumSquares(w) >= 0.0
  {
    if |w| > 0 {
      SquareNonNegative(w[0]);
      SumSquaresNonNegative(w[1..]);
    }
  }

  /** Sum of squared deviations of the entries of `w` from `c`. */
  function Deviation(w: seq<real>, c: real): (r: real)
  {
    if |w| == 0 then 0.0 else Square(w[0] - c) + Deviation(w[1..], c)
  }

  lemma {:induction false} DeviationNonNegative(w: seq<real>, c: real)
    ensures Deviation(w, c) >= 0.0
  {
    if |w| > 0 {
      SquareNonNegative(w[0] - c);
      DeviationNonNegative(w[1..], c);
    }
  }

  lemma {:induction false} SquareNonNegative(x: real)
    ensures Square(x) >= 0.0
    ensures x != 0.0 ==> Square(x) > 0.0
  {
    if x != 0.0 {
      calc {
        Square(x);
        == x * x;
        > { ProductOfNonZero(x); } 0.0;
      }
    } else {
      calc {
        Square(x);
        == x * x;
        == 0.0;
      }
    }
  }

  predicate AllPositive(w: seq<real>)
  {
    forall i :: 0 <= i < |w| ==> w[i] > 0.0
  }

  /** Every entry of `w` is `c`. */
  predicate AllAt(w: seq<real>, c: real)
  {
    forall i :: 0 <= i < |w| ==> w[i] == c
  }

  predicate AllEqual(w: seq<real>)
  {
    forall i, j :: 0 <= i < |w| && 0 <= j < |w| ==> w[i] == w[j]
  }

  function Constant(n: nat, c: real): (s: seq<real>)
    ensures |s| == n && forall i :: 0 <= i < n ==> s[i] == c
  {
    seq(n, _ => c)
  }

  lemma {:induction false} SumConstant(n: nat, c: real)
    ensures Sum(Constant(n, c)) == n as real * c
  {
    if n > 0 {
      assert Constant(n, c)[1..] == Constant(n - 1, c);
      SumConstant(n - 1, c);
    }
  }

  lemma {:induction false} SumPositive(w: seq<real>)
    requires |w| > 0 && AllPositive(w)
    ensures Sum(w) > 0.0
  {
    if |w| > 1 {
      SumPositive(w[1..]);
    }
  }

  /** Every entry of `w` multiplied by `c`. */
  function Scale(w: seq<real>, c: real): (r: seq<real>)
    ensures |r| == |w| && forall i :: 0 <= i < |w| ==> r[i] == w[i] * c
  {
    seq(|w|, i requires 0 <= i < |w| => w[i] * c)
  }

  /** Every entry of `x` decreased by `t`. */
  function Shift(x: seq<real>, t: real): (r: seq<real>)
    ensures |r| == |x| && forall i :: 0 <= i < |x| ==> r[i] == x[i] - t
  {
    seq(|x|, i requires 0 <= i < |x| => x[i] - t)
  }

  /** Scaling every entry scales the sum. */
  lemma {:induction false} SumScaled(w: seq<real>, c: real)
    ensures Sum(Scale(w, c)) == Sum(w) * c
  {
    if |w| > 0 {
      assert Scale(w, c)[1..] == Scale(w[1..], c) by {
        forall i | 0 <= i < |w| - 1 ensures Scale(w, c)[1..][i] == Scale(w[1..], c)[i] { }
      }
      SumScaled(w[1..], c);
      assert (w[0] + Sum(w[1..])) * c == w[0] * c + Sum(w[1..]) * c;
    }
  }

  /** Inner product with a shifted vector: Σ w·(x − t) = Σ w·x − t·Σ w. */
  lemma {:induction false} DotShifted(w: seq<real>, x: seq<real>, t: real)
    requires |w| == |x|
    ensures Dot(w, Shift(x, t)) == Dot(w, x) - t * Sum(w)
  {
    if |w| > 0 {
      assert Shift(x, t)[1..] == Shift(x[1..], t) by {
        forall i | 0 <= i < |x| - 1 ensures Shift(x, t)[1..][i] == Shift(x[1..], t)[i] { }
      }
      DotShifted(w[1..], x[1..], t);
      assert w[0] * (x[0] - t) == w[0] * x[0] - t * w[0];
      assert t * Sum(w) == t * w[0] + t * Sum(w[1..]);
    }
  }

  /** Scaling the second vector scales the inner product. */
  lemma {:induction false} DotScaled(a: seq<real>, w: seq<real>, c: real)
    requires |a| == |w|
    ensures Dot(a, Scale(w, c)) == Dot(a, w) * c
  {
    if |a| > 0 {
      assert Scale(w, c)[1..] == Scale(w[1..], c) by {
        forall i | 0 <= i < |w| - 1 ensures Scale(w, c)[1..][i] == Scale(w[1..], c)[i] { }
      }
      DotScaled(a[1..], w[1..], c);
      assert a[0] * (w[0] * c) == (a[0] * w[0]) * c;
      assert (a[0] * w[0] + Dot(a[1..], w[1..])) * c == (a[0] * w[0]) * c + Dot(a[1..], w[1..]) * c;
    }
  }

  /** The inner product does not depend on the order of its arguments. */
  lemma {:induction false} DotCommutes(a: seq<real>, b: seq<real>)
    requires |a| == |b|
    ensures Dot(a, b) == Dot(b, a)
  {
    if |a| > 0 {
      DotCommutes(a[1..], b[1..]);
      assert a[0] * b[0] == b[0] * a[0];
    }
  }

  /** Scaling positive entries by a positive factor keeps them positive. */
  lemma {:induction false} ScalePositive(w: seq<real>, c: real)
    requires AllPositive(w) && c > 0.0
    ensures AllPositive(Scale(w, c))
  {
    forall i | 0 <= i < |w| ensures w[i] * c > 0.0 {
      ProductPositive(w[i], c);
    }
  }

  /** Inner product with the all-zero vector. */
  lemma {:induction false} DotZero(a: seq<real>)
    ensures Dot(a, Constant(|a|, 0.0)) == 0.0
  {
    if |a| > 0 {
      assert Constant(|a|, 0.0)[1..] == Constant(|a| - 1, 0.0);
      DotZero(a[1..]);
    }
  }

  /** (a − c)² = a² − 2ac + c². */
  lemma SquareOfDifference(a: real, c: real)
    ensures Square(a - c) == Square(a) - 2.0 * (a * c) + Square(c)
  {
    calc {
      Square(a - c);
      == (a - c) * (a - c);
      == a * a - 2.0 * (a * c) + c * c;
      == Square(a) - 2.0 * (a * c) + Square(c);
    }
  }

  /** Σ (w_i − c)² = Σ w_i² − 2c Σ w_i + n c². */
  lemma {:induction false} DeviationExpanded(w: seq<real>, c: real)
    ensures Deviation(w, c) == SumSquares(w) - 2.0 * (c * Sum(w)) + |w| as real * Square(c)
  {
    if |w| > 0 {
      DeviationExpanded(w[1..], c);
      var a, m := w[0], |w[1..]| as real;
      var s' := Sum(w[1..]);
      SquareOfDifference(a, c);
      calc {
        2.0 * (c * Sum(w));
        == 2.0 * (c * (a + s'));
        == 2.0 * (a * c) + 2.0 * (c * s');
      }
      calc {
        |w| as real * Square(c);
        == (m + 1.0) * Square(c);
        == m * Square(c) + Square(c);
      }
    }
  }

  /** One entry away from `c` makes the squared deviations strictly positive. */
  lemma {:induction false} DeviationPositive(w: seq<real>, c: real, i: nat)
    requires i < |w| && w[i] != c
    ensures Deviation(w, c) > 0.0
  {
    SquareNonNegative(w[0] - c);
    DeviationNonNegative(w[1..], c);
    if i > 0 {
      assert w[1..][i - 1] == w[i];
      DeviationPositive(w[1..], c, i - 1);
    }
  }

  /** The squared deviations vanish exactly when every entry equals `c`. */
  lemma {:induction false} DeviationZero(w: seq<real>, c: real)
    ensures Deviation(w, c) == 0.0 <==> AllAt(w, c)
  {
    if AllAt(w, c) {
      DeviationOfConstant(w, c);
    } else {
      var i :| 0 <= i < |w| && w[i] != c;
      DeviationPositive(w, c, i);
    }
  }

  lemma {:induction false} DeviationOfConstant(w: seq<real>, c: real)
    requires AllAt(w, c)
    ensures Deviation(w, c) == 0.0
  {
    if |w| > 0 {
      assert forall i :: 0 <= i < |w[1..]| ==> w[1..][i] == w[i + 1];
      DeviationOfConstant(w[1..], c);
      calc {
        Square(w[0] - c);
        == Square(0.0);
        == 0.0 * 0.0;
        == 0.0;
      }
    }
  }

  /** n · d = n q − s² when d = q − 2cs + n c² and n c = s. */
  lemma CentredIdentity(n: real, q: real, s: real, c: real, d: real)
    requires c * n == s
    requires d == q - 2.0 * (c * s) + n * Square(c)
    ensures n * q - Square(s) == n * d
  {
    calc {
      n * d;
      == n * (q - 2.0 * (c * s) + n * Square(c));
      == n * q - 2.0 * ((c * n) * s) + n * (n * (c * c));
      == n * q - 2.0 * (s * s) + (c * n) * (c * n);
      == n * q - 2.0 * (s * s) + s * s;
      == n * q - s * s;
      == n * q - Square(s);
    }
  }

  /** The plain average of a non-empty vector. */
  function Mean(w: seq<real>): (r: real)
    requires |w| > 0
  {
    Sum(w) / |w| as real
  }

  /**
   * The slack in Cauchy-Schwarz against the all-ones vector: n · Σ w² − (Σ w)²
   * is n times the squared deviations from the mean.
   */
  lemma {:induction false} CauchySchwarzSlack(w: seq<real>)
    requires |w| > 0
    ensures |w| as real * SumSquares(w) - Square(Sum(w)) == |w| as real * Deviation(w, Mean(w))
  {
    MeanTimesCount(Sum(w), |w| as real);
    assert Mean(w) * |w| as real == Sum(w);
    SlackAt(w, Mean(w));
  }

  /** The slack identity for any centre `c` with n c = Σ w. */
  lemma {:induction false} SlackAt(w: seq<real>, c: real)
    requires c * |w| as real == Sum(w)
    ensures |w| as real * SumSquares(w) - Square(Sum(w)) == |w| as real * Deviation(w, c)
  {
    DeviationExpanded(w, c);
    CentredIdentity(|w| as real, SumSquares(w), Sum(w), c, Deviation(w, c));
  }

  /** Cauchy-Schwarz against the all-ones vector: (Σ w)² ≤ n · Σ w². */
  lemma {:induction false} CauchySchwarz(w: seq<real>)
    requires |w| > 0
    ensures Square(Sum(w)) <= |w| as real * SumSquares(w)
  {
    CauchySchwarzSlack(w);
    DeviationNonNegative(w, Mean(w));
    ProductNonNegative(|w| as real, Deviation(w, Mean(w)));
  }

  /** Equality in Cauchy-Schwarz holds exactly when the deviations from the mean vanish. */
  lemma {:induction false} CauchySchwarzEquality(w: seq<real>)
    requires |w| > 0
    ensures Square(Sum(w)) == |w| as real * SumSquares(w) <==> Deviation(w, Mean(w)) == 0.0
  {
    CauchySchwarzSlack(w);
    ProductZero(|w| as real, Deviation(w, Mean(w)));
  }

  // ---------------------------------------------------------------------------
  // Steps of real arithmetic. Each is a single nonlinear fact (a product or a
  // quotient) that the solver does not find on its own inside a larger proof;
  // the lemmas above and in the weighting module call them as proof steps.
  // ---------------------------------------------------------------------------

  lemma QuotientNonNegative(a: real, q: real)
    requires a >= 0.0 && q > 0.0
    ensures a / q >= 0.0
  {
  }

  lemma {:induction false} ProductOfNonZero(x: real)
    requires x != 0.0
    ensures x * x > 0.0
  {
  }

  lemma ProductPositive(a: real, b: real)
    requires a > 0.0 && b > 0.0
    ensures a * b > 0.0
  {
  }

  lemma MeanTimesCount(s: real, n: real)
    requires n > 0.0
    ensures s / n * n == s
  {
  }

  lemma ProductZero(a: real, b: real)
    requires a > 0.0
    ensures a * b == 0.0 <==> b == 0.0
  {
  }

  lemma ProductNonNegative(a: real, b: real)
    requires a >= 0.0 && b >= 0.0
    ensures a * b >= 0.0
  {
  }

  lemma DivTimes(a: real, s: real, m: real)
    requires s != 0.0
    ensures a / s * m == a * (m / s)
  {
  }

  lemma PositiveQuotient(a: real, b: real)
    requires a > 0.0 && b > 0.0
    ensures a / b > 0.0
  {
  }

  lemma TimesQuotient(s: real, m: real)
    requires s != 0.0
    ensures s * (m / s) == m
  {
  }

  lemma SignOfProduct(n: real, q: real)
    requires n > 0.0 && n * q > 0.0
    ensures q > 0.0
  {
  }

  lemma QuotientAtMost(a: real, q: real, m: real)
    requires q > 0.0 && a <= m * q
    ensures a / q <= m
  {
  }

  lemma QuotientEquals(a: real, q: real, m: real)
    requires q > 0.0
    ensures a / q == m <==> a == m * q
  {
  }

  lemma CancelCountOut(n: real, c: real)
    requires n > 0.0
    ensures n * c / n == c
  {
  }

  lemma Cancel(a: real, d: real, n: real, s: real)
    requires n != 0.0 && s != 0.0 && a == d * (n / s)
    ensures a / n == d / s
  {
  }
}
