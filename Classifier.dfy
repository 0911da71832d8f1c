/**
 * The z-score anomaly classifier. The script computes
 *   z = (x - mean) / std   (or 0 when std is 0)
 * and flags x when z > threshold or z < -threshold. The standard deviation
 * is a square root, which Dafny's reals do not have, so it is a parameter
 * `sd` constrained by IsStdDev; the pipeline itself uses the equivalent
 * square-root-free test IsAnomaly, and CheckAnomaly proves the two agree.
 */
module Classifier {
  import opened Statistics

  /** The fixed anomaly threshold on the z-score. */
  const Threshold: real := 0.9

  /** `sd` is the population standard deviation of `h`: non-negative, squaring to the variance. */
  predicate IsStdDev(h: seq<real>, sd: real)
    requires |h| > 0
  {
    sd >= 0.0 && Square(sd) == Variance(h)
  }

  /**
   * The z-score of `x` against the history `h` whose standard deviation is
   * `sd`; zero when the deviation is zero (the division-by-zero guard).
   */
  function ZScore(h: seq<real>, x: real, sd: real): (z: real)
    requires |h| > 0 && IsStdDev(h, sd)
    ensures Variance(h) == 0.0 ==> z == 0.0
    ensures sd > 0.0 ==> z * sd == x - Mean(h)
  {
    SquareSign(sd);
    if sd == 0.0 then 0.0 else (x - Mean(h)) / sd
  }

  /**
   * The square-root-free form of the test: the variance is positive and the
   * squared deviation of `x` exceeds threshold squared times the variance.
   */
  predicate IsAnomaly(h: seq<real>, x: real)
    requires |h| > 0
  {
    Variance(h) > 0.0 && Square(x - Mean(h)) > Square(Threshold) * Variance(h)
  }

  /**
   * The script's two-sided test on the z-score. It agrees with IsAnomaly
   * for every history, and it never flags a zero-variance history.
   */
  function CheckAnomaly(h: seq<real>, x: real, sd: real): (b: bool)
    requires |h| > 0 && IsStdDev(h, sd)
    ensures b <==> IsAnomaly(h, x)
    ensures Variance(h) == 0.0 ==> !b
  {
    SquaredTestAgrees(h, x, sd);
    var z := ZScore(h, x, sd);
    z > Threshold || z < -Threshold
  }

  lemma DivAbove(d: real, s: real, t: real)
    requires s > 0.0
    ensures d / s > t <==> d > t * s
  {
    var z := d / s;
    assert z * s == d;
    assert z * s - t * s == (z - t) * s;
    if z > t {
      MulPositive(z - t, s);
    } else {
      MulNonNegative(t - z, s);
    }
  }

  lemma DivBelow(d: real, s: real, t: real)
    requires s > 0.0
    ensures d / s < t <==> d < t * s
  {
    var z := d / s;
    assert z * s == d;
    assert t * s - z * s == (t - z) * s;
    if z < t {
      MulPositive(t - z, s);
    } else {
      MulNonNegative(z - t, s);
    }
  }

  /**
   * For a positive deviation, |z| > threshold is the same as the squared
   * deviation exceeding threshold squared times the variance.
   */
  lemma SquaredTestAgrees(h: seq<real>, x: real, sd: real)
    requires |h| > 0 && IsStdDev(h, sd)
    ensures var z := ZScore(h, x, sd);
            (z > Threshold || z < -Threshold) <==> IsAnomaly(h, x)
  {
    SquareSign(sd);
    if sd > 0.0 {
      var d := x - Mean(h);
      DivAbove(d, sd, Threshold);
      DivBelow(d, sd, -Threshold);
      var a := if d >= 0.0 then d else -d;
      assert Square(a) == Square(d);
      SquareMonotone(a, Threshold * sd);
      assert Square(Threshold * sd) == Square(Threshold) * Square(sd);
    }
  }

  /** The test is symmetric: points equally far above and below the mean get the same label. */
  lemma CheckAnomalySymmetric(h: seq<real>, x: real, y: real, sd: real)
    requires |h| > 0 && IsStdDev(h, sd)
    requires x - Mean(h) == Mean(h) - y
    ensures CheckAnomaly(h, x, sd) == CheckAnomaly(h, y, sd)
  {
    var d := x - Mean(h);
    assert Square(d) == Square(y - Mean(h));
  }

  /** The test is strict: a point exactly `Threshold` deviations from the mean is normal. */
  lemma BoundaryIsNormal(h: seq<real>, x: real, sd: real)
    requires |h| > 0 && IsStdDev(h, sd)
    requires x - Mean(h) == Threshold * sd || x - Mean(h) == -Threshold * sd
    ensures !CheckAnomaly(h, x, sd)
  {
    SquareSign(sd);
    if sd > 0.0 {
      DivAbove(x - Mean(h), sd, Threshold);
      DivBelow(x - Mean(h), sd, -Threshold);
    }
  }

  /** A history of all-equal values has zero variance, so no value is flagged against it. */
  lemma AllEqualNeverFlagged(h: seq<real>, x: real)
    requires |h| > 0 && AllEqual(h)
    ensures !IsAnomaly(h, x)
  {
    VarianceZeroIffAllEqual(h);
  }

  /** In particular the very first observation is never flagged. */
  lemma FirstValueNeverFlagged(x: real)
    ensures !IsAnomaly([x], x)
  {
    AllEqualNeverFlagged([x], x);
  }
}
