/**
 * Population statistics over the full history of observed values: the mean
 * and the population variance (squared deviations divided by N, not N - 1).
 * The standard deviation itself is never computed; it enters the model only
 * as a value whose square is the variance (see Classifier.IsStdDev).
 */
module Statistics {

  function Square(a: real): real
  {
    a * a
  }

  /** Sum of the values, folded from the left. */
  function Sum(h: seq<real>): real
  {
    if |h| == 0 then 0.0 else Sum(h[..|h| - 1]) + h[|h| - 1]
  }

  /** Arithmetic mean of a non-empty history. */
  function Mean(h: seq<real>): real
    requires |h| > 0
  {
    Sum(h) / (|h| as real)
  }

  /** Sum of the squared deviations of the values from `mu`. */
  function SumSqDev(h: seq<real>, mu: real): real
  {
    if |h| == 0 then 0.0 else SumSqDev(h[..|h| - 1], mu) + Square(h[|h| - 1] - mu)
  }

  /** Population variance of a non-empty history. */
  function Variance(h: seq<real>): real
    requires |h| > 0
  {
    SumSqDev(h, Mean(h)) / (|h| as real)
  }

  /** Every value of the history equals the first one. */
  predicate AllEqual(h: seq<real>)
  {
    forall i :: 0 <= i < |h| ==> h[i] == h[0]
  }

  // Sign rules for products. They are stated over two separate factors so
  // that callers obtain them as plain facts about the product terms.

  lemma MulPositive(x: real, y: real)
    requires x > 0.0 && y > 0.0
    ensures x * y > 0.0
  {
  }

  lemma MulNonNegative(x: real, y: real)
    requires x >= 0.0 && y >= 0.0
    ensures x * y >= 0.0
  {
  }

  /** On the non-negative reals, squaring preserves and reflects strict order. */
  lemma SquareMonotone(p: real, q: real)
    requires p >= 0.0 && q >= 0.0
    ensures p > q <==> Square(p) > Square(q)
  {
    if p > q {
      assert Square(p) - Square(q) == (p - q) * (p + q);
      MulPositive(p - q, p + q);
    } else {
      assert Square(q) - Square(p) == (q - p) * (q + p);
      MulNonNegative(q - p, q + p);
    }
  }

  /** A square is never negative, and it is positive away from zero. */
  lemma SquareSign(a: real)
    ensures Square(a) >= 0.0
    ensures a != 0.0 ==> Square(a) > 0.0
  {
    var m := if a >= 0.0 then a else -a;
    assert Square(m) == Square(a);
    SquareMonotone(m, 0.0);
  }

  /** A sum of squares is never negative. */
  lemma {:induction false} SumSqDevNonNegative(h: seq<real>, mu: real)
    ensures SumSqDev(h, mu) >= 0.0
  {
    if |h| > 0 {
      SumSqDevNonNegative(h[..|h| - 1], mu);
      SquareSign(h[|h| - 1] - mu);
    }
  }

  /** The population variance is never negative. */
  lemma VarianceNonNegative(h: seq<real>)
    requires |h| > 0
    ensures Variance(h) >= 0.0
  {
    SumSqDevNonNegative(h, Mean(h));
  }

  /** Squared deviations from `mu` vanish exactly when every value is `mu`. */
  lemma {:induction false} SumSqDevZeroIff(h: seq<real>, mu: real)
    ensures SumSqDev(h, mu) == 0.0 <==> forall i :: 0 <= i < |h| ==> h[i] == mu
  {
    if |h| > 0 {
      var init, last := h[..|h| - 1], h[|h| - 1];
      SumSqDevZeroIff(init, mu);
      SumSqDevNonNegative(init, mu);
      SquareSign(last - mu);
      assert forall i :: 0 <= i < |init| ==> init[i] == h[i];
    }
  }

  /** A history whose values all equal `c` sums to |h| * c. */
  lemma {:induction false} SumOfConstant(h: seq<real>, c: real)
    requires forall i :: 0 <= i < |h| ==> h[i] == c
    ensures Sum(h) == (|h| as real) * c
  {
    if |h| > 0 {
      SumOfConstant(h[..|h| - 1], c);
    }
  }

  /** The mean of an all-equal history is that common value. */
  lemma MeanOfAllEqual(h: seq<real>)
    requires |h| > 0 && AllEqual(h)
    ensures Mean(h) == h[0]
  {
    SumOfConstant(h, h[0]);
  }

  /**
   * The population variance is zero exactly when the history is constant;
   * this is the only case in which the z-score is undefined.
   */
  lemma VarianceZeroIffAllEqual(h: seq<real>)
    requires |h| > 0
    ensures Variance(h) == 0.0 <==> AllEqual(h)
  {
    var mu := Mean(h);
    SumSqDevZeroIff(h, mu);
    if AllEqual(h) {
      MeanOfAllEqual(h);
    }
  }

  /** Every value lies in [lo, hi], so the sum lies in [|h| * lo, |h| * hi]. */
  lemma {:induction false} SumWithin(h: seq<real>, lo: real, hi: real)
    requires forall i :: 0 <= i < |h| ==> lo <= h[i] <= hi
    ensures (|h| as real) * lo <= Sum(h) <= (|h| as real) * hi
  {
    if |h| > 0 {
      SumWithin(h[..|h| - 1], lo, hi);
    }
  }

  /** The mean of values drawn from [lo, hi] lies in [lo, hi]. */
  lemma MeanWithin(h: seq<real>, lo: real, hi: real)
    requires |h| > 0
    requires forall i :: 0 <= i < |h| ==> lo <= h[i] <= hi
    ensures lo <= Mean(h) <= hi
  {
    SumWithin(h, lo, hi);
    var n := |h| as real;
    assert Mean(h) * n == Sum(h);
  }
}
