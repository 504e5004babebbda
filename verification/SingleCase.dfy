/** One case's estimates: the Wilson score interval of a proportion and the spread of two arm means. */
module SingleCase {
  import opened Wrappers
  import opened Collections
  import opened Estimator

  datatype Interval = Interval(low: real, high: real)

  datatype ArmCounts = ArmCounts(successful: nat, requested: nat)

  datatype ArmProportion = ArmProportion(successful: nat, requested: nat, rate: real, interval: Interval)

  datatype ProportionEstimate = ProportionEstimate(
    minuend: ArmProportion, subtrahend: ArmProportion, delta: real, standardError: real)

  datatype ArmMean = ArmMean(values: seq<real>, mean: real)

  datatype Spread = NoObservedSpread | Estimated(standardError: real)

  datatype MeanEstimate = MeanEstimate(minuend: ArmMean, subtrahend: ArmMean, delta: real, spread: Spread)

  const WILSON_Z := 1.959963985

  const NO_REP := "A single-case estimate requires a rep in every arm"

  function Rate(successful: nat, requested: nat): real
    requires requested >= 1
  {
    successful as real / requested as real
  }

  function ZSquaredOverN(requested: nat): real
    requires requested >= 1
  {
    WILSON_Z * WILSON_Z / requested as real
  }

  function UnderTheRoot(rate: real, requested: nat): real
    requires requested >= 1
  {
    rate * (1.0 - rate) / requested as real + ZSquaredOverN(requested) / (4.0 * requested as real)
  }

  function Center(rate: real, zSquaredOverN: real): real
    requires zSquaredOverN > 0.0
  {
    (rate + zSquaredOverN / 2.0) / (1.0 + zSquaredOverN)
  }

  function HalfWidth(root: real, zSquaredOverN: real): real
    requires zSquaredOverN > 0.0
  {
    WILSON_Z * root / (1.0 + zSquaredOverN)
  }

  function WilsonInterval(successful: nat, requested: nat, sqrt: real -> real): Interval
    requires requested >= 1
  {
    var rate := Rate(successful, requested);
    var a := ZSquaredOverN(requested);
    ZSquaredPositive(requested);
    var center := Center(rate, a);
    var halfWidth := HalfWidth(sqrt(UnderTheRoot(rate, requested)), a);
    Interval(
      if 0.0 < center - halfWidth then center - halfWidth else 0.0,
      if center + halfWidth < 1.0 then center + halfWidth else 1.0)
  }

  lemma ZSquaredPositive(requested: nat)
    requires requested >= 1
    ensures ZSquaredOverN(requested) > 0.0
  {
  }

  /** With `u` the root times z: u squared is a p(1-p) + a*a/4. */
  ghost predicate Rooted(p: real, a: real, u: real) {
    0.0 <= p <= 1.0 && a > 0.0 && u >= 0.0 && u * u == a * (p * (1.0 - p)) + a * a / 4.0
  }

  lemma QuotientOfProduct(z2: real, x: real, n: real)
    requires n > 0.0
    ensures z2 * (x / n) == (z2 / n) * x
  {
    var y := x / n;
    var w := z2 / n;
    assert y * n == x && w * n == z2;
    assert z2 * y == (w * n) * y == w * (n * y);
  }

  lemma QuarterOverN(a: real, n: real)
    requires n > 0.0
    ensures a / (4.0 * n) == (a / 4.0) / n
  {
    var q := (a / 4.0) / n;
    assert q * n == a / 4.0;
    assert q * (4.0 * n) == 4.0 * (q * n) == a;
  }

  lemma RootSquared(z: real, root: real, d: real)
    requires root * root == d
    ensures (z * root) * (z * root) == (z * z) * d
  {
    assert (z * root) * (z * root) == (z * z) * (root * root);
  }

  /** z squared times what is under the root. */
  lemma UnderTheRootScaled(p: real, requested: nat)
    requires requested >= 1
    ensures var a := ZSquaredOverN(requested);
      (WILSON_Z * WILSON_Z) * UnderTheRoot(p, requested) == a * (p * (1.0 - p)) + a * a / 4.0
  {
    var n := requested as real;
    var a, x, z2 := ZSquaredOverN(requested), p * (1.0 - p), WILSON_Z * WILSON_Z;
    QuarterOverN(a, n);
    QuotientOfProduct(z2, x, n);
    QuotientOfProduct(z2, a / 4.0, n);
    assert z2 * (x / n + (a / 4.0) / n) == z2 * (x / n) + z2 * ((a / 4.0) / n);
    assert a * (a / 4.0) == a * a / 4.0;
  }

  lemma UnderTheRootNonNegative(p: real, requested: nat)
    requires requested >= 1 && 0.0 <= p <= 1.0
    ensures UnderTheRoot(p, requested) >= 0.0
  {
    ZSquaredPositive(requested);
    ProductNonNegative(p, 1.0 - p);
    QuotientNonNegative(p * (1.0 - p), requested as real);
    QuotientNonNegative(ZSquaredOverN(requested), 4.0 * requested as real);
  }

  lemma WilsonRooted(successful: nat, requested: nat, sqrt: real -> real)
    requires requested >= 1 && successful <= requested && IsSqrt(sqrt)
    ensures var p := Rate(successful, requested);
      Rooted(p, ZSquaredOverN(requested), WILSON_Z * sqrt(UnderTheRoot(p, requested)))
  {
    var p := Rate(successful, requested);
    RateBounds(successful as real, requested as real);
    ZSquaredPositive(requested);
    UnderTheRootNonNegative(p, requested);
    UnderTheRootScaled(p, requested);
    hide UnderTheRoot, ZSquaredOverN, Rate;
    var d := UnderTheRoot(p, requested);
    RootSquared(WILSON_Z, sqrt(d), d);
  }

  lemma RateBounds(s: real, n: real)
    requires 0.0 <= s <= n && n > 0.0
    ensures 0.0 <= s / n <= 1.0
  {
  }

  lemma ProductNonNegative(x: real, y: real)
    requires x >= 0.0 && y >= 0.0
    ensures x * y >= 0.0
  {
  }

  /** The interval's ends are where the score test is just met: completing the square. */
  lemma CompleteTheSquare(p: real, a: real, u: real, x: real)
    requires Rooted(p, a, u)
    ensures var y := (1.0 + a) * x - (p + a / 2.0);
      (1.0 + a) * ((x - p) * (x - p) - a * (x * (1.0 - x))) == y * y - u * u
  {
    var b, c := 1.0 + a, p + a / 2.0;
    assert c * c - b * (p * p) == u * u by {
      assert c * c == p * p + a * p + a * a / 4.0;
      assert b * (p * p) == p * p + a * (p * p);
      assert a * (p * (1.0 - p)) == a * p - a * (p * p);
    }
    var t := b * x;
    assert (t - c) * (t - c) == t * t - 2.0 * (c * t) + c * c;
    assert t * t == b * (b * (x * x));
    assert 2.0 * (c * t) == b * ((2.0 * p + a) * x);
    assert (x - p) * (x - p) - a * (x * (1.0 - x)) == b * (x * x) - (2.0 * p + a) * x + p * p by {
      assert (x - p) * (x - p) == x * x - 2.0 * (p * x) + p * p;
      assert x * (1.0 - x) == x - x * x;
      assert a * (x - x * x) == a * x - a * (x * x);
      assert b * (x * x) == x * x + a * (x * x);
      assert (2.0 * p + a) * x == 2.0 * (p * x) + a * x;
    }
    assert b * (b * (x * x) - (2.0 * p + a) * x + p * p)
        == b * (b * (x * x)) - b * ((2.0 * p + a) * x) + b * (p * p);
  }

  lemma SquareOrder(y: real, u: real)
    requires u >= 0.0
    ensures y * y <= u * u <==> -u <= y <= u
    ensures y * y == u * u <==> y == u || y == -u
  {
    assert y * y - u * u == (y - u) * (y + u);
    if y > u {
      ProductPositive(y - u, y + u);
      assert Product(y - u, y + u) == (y - u) * (y + u);
    } else if y < -u {
      ProductPositive(u - y, -u - y);
      assert Product(u - y, -u - y) == (y - u) * (y + u);
    } else if -u < y < u {
      ProductPositive(u - y, y + u);
      assert Product(u - y, y + u) == -((y - u) * (y + u));
    }
  }

  /** `x` is `k` half widths from the center exactly when (1+a)x is k u from p + a/2. */
  lemma ScaledByDenominator(x: real, b: real, c: real, u: real)
    requires b > 0.0
    ensures x <= c / b + u / b <==> b * x - c <= u
    ensures x >= c / b - u / b <==> b * x - c >= -u
    ensures x == c / b + u / b <==> b * x - c == u
    ensures x == c / b - u / b <==> b * x - c == -u
  {
    var s, t := c / b, u / b;
    assert s * b == c && t * b == u;
    ScaledDifference(x - (s + t), b);
    ScaledDifference(x - (s - t), b);
    assert b * (x - (s + t)) == b * x - c - u;
    assert b * (x - (s - t)) == b * x - c + u;
  }

  lemma ScaledDifference(d: real, b: real)
    requires b > 0.0
    ensures d <= 0.0 <==> b * d <= 0.0
    ensures d >= 0.0 <==> b * d >= 0.0
    ensures d == 0.0 <==> b * d == 0.0
  {
    if d > 0.0 {
      ProductPositive(b, d);
      assert Product(b, d) == b * d;
    } else if d < 0.0 {
      ProductPositive(b, -d);
      assert Product(b, -d) == -(b * d);
    } else {
      assert b * d == 0.0;
    }
  }

  /** The score test's statement: the rate lies within z standard errors of `x`, squared. */
  ghost function ScoreGap(p: real, a: real, x: real): real {
    (x - p) * (x - p) - a * (x * (1.0 - x))
  }

  lemma EndsFromSquare(p: real, a: real, u: real, x: real)
    requires Rooted(p, a, u)
    ensures var low, high := Center(p, a) - u / (1.0 + a), Center(p, a) + u / (1.0 + a);
      && (ScoreGap(p, a, x) <= 0.0 <==> low <= x <= high)
      && (ScoreGap(p, a, x) == 0.0 <==> x == low || x == high)
  {
    var b, c := 1.0 + a, p + a / 2.0;
    CompleteTheSquare(p, a, u, x);
    SquareOrder(b * x - c, u);
    ScaledByDenominator(x, b, c, u);
    ScaledDifference(ScoreGap(p, a, x), b);
  }

  lemma GapAtKnownPoints(p: real, a: real)
    requires 0.0 <= p <= 1.0 && a > 0.0
    ensures ScoreGap(p, a, p) <= 0.0
    ensures forall x :: x < 0.0 || x > 1.0 ==> ScoreGap(p, a, x) > 0.0
  {
    ProductNonNegative(p, 1.0 - p);
    ProductNonNegative(a, p * (1.0 - p));
    forall x: real | x < 0.0 || x > 1.0 ensures ScoreGap(p, a, x) > 0.0 {
      SquareNonNegative(x - p);
      assert Square(x - p) == (x - p) * (x - p);
      if x < 0.0 {
        ProductPositive(-x, 1.0 - x);
        assert Product(-x, 1.0 - x) == -(x * (1.0 - x));
      } else {
        ProductPositive(x, x - 1.0);
        assert Product(x, x - 1.0) == -(x * (1.0 - x));
      }
      var over := -(x * (1.0 - x));
      ProductPositive(a, over);
      assert Product(a, over) == -(a * (x * (1.0 - x)));
    }
  }

  /**
   * The Wilson interval lies in [0, 1] around the observed rate without its clamps, and holds
   * exactly the proportions the score test does not reject; its two ends are the only ones on
   * the edge.
   */
  lemma WilsonHoldsTheScoreTest(successful: nat, requested: nat, sqrt: real -> real)
    requires requested >= 1 && successful <= requested && IsSqrt(sqrt)
    ensures var p, a := Rate(successful, requested), ZSquaredOverN(requested);
      var interval := WilsonInterval(successful, requested, sqrt);
      && 0.0 <= interval.low <= p <= interval.high <= 1.0
      && interval.low == Center(p, a) - HalfWidth(sqrt(UnderTheRoot(p, requested)), a)
      && interval.high == Center(p, a) + HalfWidth(sqrt(UnderTheRoot(p, requested)), a)
      && forall x :: (ScoreGap(p, a, x) <= 0.0 <==> interval.low <= x <= interval.high)
           && (ScoreGap(p, a, x) == 0.0 <==> x == interval.low || x == interval.high)
  {
    var p, a := Rate(successful, requested), ZSquaredOverN(requested);
    var u := WILSON_Z * sqrt(UnderTheRoot(p, requested));
    WilsonRooted(successful, requested, sqrt);
    GapAtKnownPoints(p, a);
    var low, high := Center(p, a) - u / (1.0 + a), Center(p, a) + u / (1.0 + a);
    WidthNonNegative(u, 1.0 + a);
    EndsFromSquare(p, a, u, p);
    EndsFromSquare(p, a, u, low);
    EndsFromSquare(p, a, u, high);
    hide ScoreGap, Rate, ZSquaredOverN, UnderTheRoot, Center, Rooted, IsSqrt;
    assert 0.0 <= low && high <= 1.0;
    forall x: real
      ensures ScoreGap(p, a, x) <= 0.0 <==> low <= x <= high
      ensures ScoreGap(p, a, x) == 0.0 <==> x == low || x == high
    {
      EndsFromSquare(p, a, u, x);
    }
  }

  lemma WidthNonNegative(u: real, b: real)
    requires u >= 0.0 && b > 0.0
    ensures u / b >= 0.0
  {
  }

  lemma RateOfFailures(successful: nat, requested: nat)
    requires requested >= 1 && successful <= requested
    ensures Rate(requested - successful, requested) == 1.0 - Rate(successful, requested)
  {
    var s, n, p := successful as real, requested as real, Rate(successful, requested);
    assert p * n == s;
    assert (1.0 - p) * n == n - p * n;
    QuotientIs(1.0 - p, n, n - s);
  }

  lemma QuotientIs(q: real, n: real, x: real)
    requires n > 0.0 && q * n == x
    ensures x / n == q
  {
    var r := x / n;
    assert r * n == x;
    assert n * (r - q) == r * n - q * n;
    ScaledDifference(r - q, n);
  }

  lemma CenterMirrors(p: real, a: real)
    requires a > 0.0
    ensures Center(1.0 - p, a) == 1.0 - Center(p, a)
  {
    var c := Center(p, a);
    var b := 1.0 + a;
    assert c * b == p + a / 2.0;
    assert (1.0 - c) * b == b - c * b == (1.0 - p) + a / 2.0;
    QuotientIs(1.0 - c, b, (1.0 - p) + a / 2.0);
  }

  /** The clamps never act. */
  lemma WilsonUnclamped(successful: nat, requested: nat, sqrt: real -> real)
    requires requested >= 1 && successful <= requested && IsSqrt(sqrt)
    ensures var p, a := Rate(successful, requested), ZSquaredOverN(requested);
      var half := HalfWidth(sqrt(UnderTheRoot(p, requested)), a);
      WilsonInterval(successful, requested, sqrt) == Interval(Center(p, a) - half, Center(p, a) + half)
  {
    WilsonHoldsTheScoreTest(successful, requested, sqrt);
  }

  /** Counting failures instead of successes mirrors the interval. */
  lemma WilsonMirrors(successful: nat, requested: nat, sqrt: real -> real)
    requires requested >= 1 && successful <= requested && IsSqrt(sqrt)
    ensures var one, other := WilsonInterval(successful, requested, sqrt), WilsonInterval(requested - successful, requested, sqrt);
      other.low == 1.0 - one.high && other.high == 1.0 - one.low
  {
    var p, a := Rate(successful, requested), ZSquaredOverN(requested);
    RateOfFailures(successful, requested);
    ZSquaredPositive(requested);
    CenterMirrors(p, a);
    RootMirrors(p, requested);
    WilsonUnclamped(successful, requested, sqrt);
    WilsonUnclamped(requested - successful, requested, sqrt);
    hide *;
  }

  lemma RootMirrors(p: real, requested: nat)
    requires requested >= 1
    ensures UnderTheRoot(1.0 - p, requested) == UnderTheRoot(p, requested)
  {
    assert (1.0 - p) * (1.0 - (1.0 - p)) == p * (1.0 - p);
  }

  function ArmProportionOf(counts: ArmCounts, sqrt: real -> real): Result<ArmProportion> {
    if counts.requested < 1 then Err(NO_REP)
    else Ok(ArmProportion(
      counts.successful, counts.requested, Rate(counts.successful, counts.requested),
      WilsonInterval(counts.successful, counts.requested, sqrt)))
  }

  function RateVariance(arm: ArmProportion): real
    requires arm.requested >= 1
  {
    arm.rate * (1.0 - arm.rate) / arm.requested as real
  }

  function ProportionEstimateOf(minuend: ArmCounts, subtrahend: ArmCounts, sqrt: real -> real): Result<ProportionEstimate> {
    var left := ArmProportionOf(minuend, sqrt);
    var right := ArmProportionOf(subtrahend, sqrt);
    if left.Err? then Err(left.error)
    else if right.Err? then Err(right.error)
    else Ok(ProportionEstimate(
      left.value, right.value, left.value.rate - right.value.rate,
      sqrt(RateVariance(left.value) + RateVariance(right.value))))
  }

  lemma RateVarianceNonNegative(counts: ArmCounts, sqrt: real -> real)
    requires counts.requested >= 1 && counts.successful <= counts.requested
    ensures RateVariance(ArmProportionOf(counts, sqrt).value) >= 0.0
    ensures RateVariance(ArmProportionOf(counts, sqrt).value) == 0.0 <==>
      counts.successful == 0 || counts.successful == counts.requested
  {
    var p := Rate(counts.successful, counts.requested);
    RateEdges(counts.successful, counts.requested);
    if 0.0 < p < 1.0 {
      ProductPositive(p, 1.0 - p);
      assert Product(p, 1.0 - p) == p * (1.0 - p);
      QuotientPositive(p * (1.0 - p), counts.requested as real);
    } else {
      assert p * (1.0 - p) == 0.0;
    }
  }

  lemma RateEdges(successful: nat, requested: nat)
    requires requested >= 1 && successful <= requested
    ensures var p := Rate(successful, requested);
      && 0.0 <= p <= 1.0 && (p == 0.0 <==> successful == 0) && (p == 1.0 <==> successful == requested)
  {
    var n, p := requested as real, Rate(successful, requested);
    RateBounds(successful as real, n);
    assert p * n == successful as real;
    if successful == 0 {
      QuotientIs(0.0, n, 0.0);
    }
    if successful == requested {
      QuotientIs(1.0, n, n);
    }
  }

  lemma QuotientPositive(a: real, b: real)
    requires a > 0.0 && b > 0.0
    ensures a / b > 0.0
  {
  }

  /** A proportion estimate has no error exactly when every rep of each arm ended alike. */
  lemma ProportionErrorZero(minuend: ArmCounts, subtrahend: ArmCounts, sqrt: real -> real)
    requires IsSqrt(sqrt)
    requires minuend.requested >= 1 && minuend.successful <= minuend.requested
    requires subtrahend.requested >= 1 && subtrahend.successful <= subtrahend.requested
    ensures ProportionEstimateOf(minuend, subtrahend, sqrt).Ok?
    ensures ProportionEstimateOf(minuend, subtrahend, sqrt).value.standardError == 0.0 <==>
      && (minuend.successful == 0 || minuend.successful == minuend.requested)
      && (subtrahend.successful == 0 || subtrahend.successful == subtrahend.requested)
  {
    RateVarianceNonNegative(minuend, sqrt);
    RateVarianceNonNegative(subtrahend, sqrt);
    var left, right := ArmProportionOf(minuend, sqrt).value, ArmProportionOf(subtrahend, sqrt).value;
    RootZero(sqrt, RateVariance(left) + RateVariance(right));
  }

  lemma RootZero(sqrt: real -> real, x: real)
    requires IsSqrt(sqrt) && x >= 0.0
    ensures sqrt(x) == 0.0 <==> x == 0.0
  {
    SquareNonNegative(sqrt(x));
    assert Square(sqrt(x)) == x;
  }

  lemma RateVarianceValue(counts: ArmCounts, sqrt: real -> real)
    requires counts.requested >= 1
    ensures var p := counts.successful as real / counts.requested as real;
      RateVariance(ArmProportionOf(counts, sqrt).value) == p * (1.0 - p) / counts.requested as real
  {
  }

  /**
   * The delta is the minuend's rate less the subtrahend's, and the error squared is the sum of
   * p(1-p)/n over the two arms.
   */
  lemma ProportionEstimateMeans(minuend: ArmCounts, subtrahend: ArmCounts, sqrt: real -> real)
    requires IsSqrt(sqrt)
    requires minuend.requested >= 1 && minuend.successful <= minuend.requested
    requires subtrahend.requested >= 1 && subtrahend.successful <= subtrahend.requested
    ensures ProportionEstimateOf(minuend, subtrahend, sqrt).Ok?
    ensures var estimate := ProportionEstimateOf(minuend, subtrahend, sqrt).value;
      var n, m := minuend.requested as real, subtrahend.requested as real;
      var p, q := minuend.successful as real / n, subtrahend.successful as real / m;
      && estimate.minuend.rate == p && estimate.subtrahend.rate == q && estimate.delta == p - q
      && estimate.minuend.interval == WilsonInterval(minuend.successful, minuend.requested, sqrt)
      && estimate.subtrahend.interval == WilsonInterval(subtrahend.successful, subtrahend.requested, sqrt)
      && estimate.standardError >= 0.0
      && estimate.standardError * estimate.standardError == p * (1.0 - p) / n + q * (1.0 - q) / m
  {
    RateVarianceNonNegative(minuend, sqrt);
    RateVarianceNonNegative(subtrahend, sqrt);
    RateVarianceValue(minuend, sqrt);
    RateVarianceValue(subtrahend, sqrt);
    hide RateVariance, WilsonInterval;
    assert IsSqrt(sqrt);
  }

  // ---- means

  function ArmMeanOf(values: seq<real>): Result<ArmMean> {
    if values == [] then Err(NO_REP) else Ok(ArmMean(values, MeanValue(values)))
  }

  function ArmSampleVariance(arm: ArmMean): real {
    if |arm.values| < 2 then 0.0
    else Total(SquaredDifferences(arm.values, arm.mean)) / (|arm.values| as real - 1.0)
  }

  function MeanSpread(minuend: ArmMean, subtrahend: ArmMean, sqrt: real -> real): Spread
    requires minuend.values != [] && subtrahend.values != []
  {
    var variance := ArmSampleVariance(minuend) / |minuend.values| as real
                  + ArmSampleVariance(subtrahend) / |subtrahend.values| as real;
    if variance == 0.0 then NoObservedSpread else Estimated(sqrt(variance))
  }

  function MeanEstimateOf(minuend: seq<real>, subtrahend: seq<real>, sqrt: real -> real): Result<MeanEstimate> {
    var left := ArmMeanOf(minuend);
    var right := ArmMeanOf(subtrahend);
    if left.Err? then Err(left.error)
    else if right.Err? then Err(right.error)
    else Ok(MeanEstimate(
      left.value, right.value, left.value.mean - right.value.mean, MeanSpread(left.value, right.value, sqrt)))
  }

  ghost predicate Constant(values: seq<real>) {
    forall i, j :: 0 <= i < |values| && 0 <= j < |values| ==> values[i] == values[j]
  }

  lemma {:induction false} ConstantTotal(values: seq<real>, x: real)
    requires forall i :: 0 <= i < |values| ==> values[i] == x
    ensures Total(values) == |values| as real * x
  {
    if values != [] {
      ConstantTotal(values[1..], x);
    }
  }

  lemma ConstantMean(values: seq<real>)
    requires values != [] && Constant(values)
    ensures MeanValue(values) == values[0]
  {
    ConstantTotal(values, values[0]);
    MeanIsTotalOverCount(values);
    hide Mean, Total;
    QuotientIs(values[0], |values| as real, Total(values));
  }

  /** An arm's variance over its size: never negative, and zero exactly for a constant arm. */
  lemma VarianceZero(values: seq<real>)
    requires values != []
    ensures var v := ArmSampleVariance(ArmMeanOf(values).value) / |values| as real;
      v >= 0.0 && (v == 0.0 <==> Constant(values))
  {
    var mean := MeanValue(values);
    var squares := Total(SquaredDifferences(values, mean));
    SquaresNonNegative(values, mean);
    if |values| >= 2 {
      var m, n := |values| as real - 1.0, |values| as real;
      if squares > 0.0 {
        QuotientPositive(squares, m);
        QuotientPositive(squares / m, n);
      }
      if Constant(values) {
        ConstantMean(values);
      }
      assert squares == 0.0 <==> Constant(values);
    }
  }

  /** No spread is reported exactly when both arms are constant; otherwise the error is positive. */
  lemma NoSpreadMeansConstant(minuend: seq<real>, subtrahend: seq<real>, sqrt: real -> real)
    requires minuend != [] && subtrahend != [] && IsSqrt(sqrt)
    ensures var estimate := MeanEstimateOf(minuend, subtrahend, sqrt);
      && estimate.Ok?
      && (estimate.value.spread == NoObservedSpread <==> Constant(minuend) && Constant(subtrahend))
      && (estimate.value.spread.Estimated? ==> estimate.value.spread.standardError > 0.0)
  {
    hide ArmSampleVariance;
    VarianceZero(minuend);
    VarianceZero(subtrahend);
    var left, right := ArmMeanOf(minuend).value, ArmMeanOf(subtrahend).value;
    var variance := ArmSampleVariance(left) / |minuend| as real + ArmSampleVariance(right) / |subtrahend| as real;
    RootZero(sqrt, variance);
  }

  /** The variance of a mean of n values whose squared deviations add up to `total`; one value alone has none. */
  ghost function VarianceOfMean(values: seq<real>): real
    requires values != []
  {
    if |values| == 1 then 0.0
    else OverPairs(Total(SquaredDifferences(values, Average(values))), |values| as real)
  }

  lemma VarianceIsOverPairs(values: seq<real>)
    requires values != []
    ensures ArmSampleVariance(ArmMeanOf(values).value) / |values| as real == VarianceOfMean(values)
  {
    MeanIsTotalOverCount(values);
    if |values| >= 2 {
      var total, n := Total(SquaredDifferences(values, Average(values))), |values| as real;
      assert ArmSampleVariance(ArmMeanOf(values).value) == total / (n - 1.0);
      TwiceDivided(total, n);
    }
  }

  lemma TwiceDivided(total: real, n: real)
    requires n >= 2.0
    ensures (total / (n - 1.0)) / n == OverPairs(total, n)
  {
    var m := n - 1.0;
    var s := total / m;
    assert s * m == total;
    ProductPositive(n, m);
    assert Product(n, m) == n * m;
    var t := s / n;
    assert t * n == s;
    assert t * (n * m) == (t * n) * m == total;
    QuotientIs(t, n * m, total);
  }

  /**
   * The delta is the minuend's mean less the subtrahend's, and an error's square is the sum of the
   * variances of the two means.
   */
  lemma MeanEstimateMeans(minuend: seq<real>, subtrahend: seq<real>, sqrt: real -> real)
    requires IsSqrt(sqrt) && minuend != [] && subtrahend != []
    ensures MeanEstimateOf(minuend, subtrahend, sqrt).Ok?
    ensures var estimate := MeanEstimateOf(minuend, subtrahend, sqrt).value;
      && estimate.minuend == ArmMean(minuend, Average(minuend)) && estimate.subtrahend == ArmMean(subtrahend, Average(subtrahend))
      && estimate.delta == Average(minuend) - Average(subtrahend)
      && (estimate.spread.Estimated? ==>
            estimate.spread.standardError * estimate.spread.standardError == VarianceOfMean(minuend) + VarianceOfMean(subtrahend))
  {
    SpreadSquared(minuend, subtrahend, sqrt);
    MeanIsTotalOverCount(minuend);
    MeanIsTotalOverCount(subtrahend);
    hide MeanSpread, VarianceOfMean, Total, Mean;
  }

  lemma SpreadSquared(minuend: seq<real>, subtrahend: seq<real>, sqrt: real -> real)
    requires IsSqrt(sqrt) && minuend != [] && subtrahend != []
    ensures var spread := MeanSpread(ArmMeanOf(minuend).value, ArmMeanOf(subtrahend).value, sqrt);
      spread.Estimated? ==>
        spread.standardError * spread.standardError == VarianceOfMean(minuend) + VarianceOfMean(subtrahend)
  {
    VarianceIsOverPairs(minuend);
    VarianceIsOverPairs(subtrahend);
    VarianceNonNegative(minuend);
    VarianceNonNegative(subtrahend);
    hide ArmSampleVariance, VarianceOfMean, MeanValue;
    RootSquares(sqrt, VarianceOfMean(minuend) + VarianceOfMean(subtrahend));
    hide IsSqrt;
  }

  lemma VarianceNonNegative(values: seq<real>)
    requires values != []
    ensures VarianceOfMean(values) >= 0.0
  {
    if |values| >= 2 {
      SquaredErrorMeans(values, Average(values));
      hide SquaredError, OverPairs, SquaredDifferences, Total;
    }
  }

  lemma RootSquares(sqrt: real -> real, x: real)
    requires IsSqrt(sqrt) && x >= 0.0
    ensures sqrt(x) >= 0.0 && sqrt(x) * sqrt(x) == x
  {
  }

  lemma VariancePermuted(a: seq<real>, b: seq<real>)
    requires multiset(a) == multiset(b) && a != []
    ensures |a| == |b| && MeanValue(a) == MeanValue(b)
    ensures ArmSampleVariance(ArmMeanOf(a).value) == ArmSampleVariance(ArmMeanOf(b).value)
  {
    PermutationSize(a, b);
    MeanPermuted(a, b);
    var mean := MeanValue(a);
    MapPermuted(a, b, SquareFrom(mean));
    TotalPermuted(SquaredDifferences(a, mean), SquaredDifferences(b, mean));
    hide Mean, Total, SquareFrom;
  }

  /** Reordering the reps of each arm changes neither the delta nor the spread. */
  lemma MeanEstimatePermuted(
    minuend: seq<real>, other: seq<real>, subtrahend: seq<real>, another: seq<real>, sqrt: real -> real)
    requires multiset(minuend) == multiset(other) && multiset(subtrahend) == multiset(another)
    ensures var one, two := MeanEstimateOf(minuend, subtrahend, sqrt), MeanEstimateOf(other, another, sqrt);
      && (one.Ok? <==> two.Ok?)
      && (one.Ok? ==>
            && one.value.minuend.mean == two.value.minuend.mean && one.value.subtrahend.mean == two.value.subtrahend.mean
            && one.value.delta == two.value.delta && one.value.spread == two.value.spread)
  {
    PermutationSize(minuend, other);
    PermutationSize(subtrahend, another);
    if minuend != [] && subtrahend != [] {
      VariancePermuted(minuend, other);
      VariancePermuted(subtrahend, another);
    }
    hide ArmSampleVariance, MeanValue;
  }

  /** Swapping the arms negates the delta and keeps the spread. */
  lemma MeanEstimateSwapped(minuend: seq<real>, subtrahend: seq<real>, sqrt: real -> real)
    ensures var one, two := MeanEstimateOf(minuend, subtrahend, sqrt), MeanEstimateOf(subtrahend, minuend, sqrt);
      && (one.Ok? <==> two.Ok?)
      && (one.Ok? ==> two.value.delta == -one.value.delta && two.value.spread == one.value.spread)
  {
    hide ArmSampleVariance, MeanValue;
    if minuend != [] && subtrahend != [] {
      var x := ArmSampleVariance(ArmMeanOf(minuend).value) / |minuend| as real;
      var y := ArmSampleVariance(ArmMeanOf(subtrahend).value) / |subtrahend| as real;
      assert x + y == y + x;
    }
  }
}
