/** What the rolling z-score can and cannot say: its bounds, when it is undefined, its invariance. */
module ZScoreTheorems {
  import opened Sequences
  import opened Statistics
  import opened RollingStats

  // ---------------------------------------------------------------- real arithmetic, one step at a time

  lemma PositiveSquare(x: real)
    requires x > 0.0
    ensures Square(x) > 0.0
  {
    assert Square(x) / x == x;
  }

  lemma SquareIsNonNegative(x: real)
    ensures Square(x) >= 0.0
    ensures x != 0.0 ==> Square(x) > 0.0
    ensures x == 0.0 ==> Square(x) == 0.0
  {
    if x > 0.0 {
      PositiveSquare(x);
    } else if x < 0.0 {
      PositiveSquare(0.0 - x);
      SquareOfNegation(x);
    }
  }

  lemma SquareOfNegation(x: real)
    ensures Square(0.0 - x) == Square(x)
  {
  }

  lemma SquareOfSum(a: real, b: real)
    ensures Square(a + b) == Square(a) + 2.0 * (a * b) + Square(b)
  {
  }

  lemma {:induction false} CancelFactor(x: real, y: real, r: real)
    requires r > 0.0 && x * r <= y * r
    ensures x <= y
  {
    var d := (y - x) * r;
    assert d == y * r - x * r;
    assert d / r == y - x;
  }

  lemma CrossTerm(a: real, b: real, q: real, r: real)
    requires Square(a) <= q * r && r > 0.0
    ensures 2.0 * (a * b) <= q + Square(b) * r
  {
    var p := b * r;
    SquareIsNonNegative(a - p);
    assert Square(a - p) == Square(a) - 2.0 * (a * p) + Square(p);
    assert a * p == (a * b) * r;
    assert Square(p) == (Square(b) * r) * r;
    assert (2.0 * (a * b)) * r <= (q + Square(b) * r) * r;
    CancelFactor(2.0 * (a * b), q + Square(b) * r, r);
  }

  /** One more term in the Cauchy-Schwarz inequality. */
  lemma CauchyStep(a: real, b: real, q: real, r: real, a': real, q': real, r': real)
    requires Square(a) <= q * r && r >= 0.0 && q >= 0.0
    requires a' == a + b && q' == q + Square(b) && r' == r + 1.0
    ensures Square(a') <= q' * r'
  {
    SquareIsNonNegative(a);
    SquareOfSum(a, b);
    assert (q + Square(b)) * (r + 1.0) == q * r + Square(b) * r + q + Square(b);
    if r == 0.0 {
      assert Square(a) == 0.0;
    } else {
      CrossTerm(a, b, q, r);
    }
  }

  // ---------------------------------------------------------------- sums of squares

  lemma SquaresPrefix(ds: seq<real>)
    requires ds != []
    ensures Squares(ds)[..|ds| - 1] == Squares(ds[..|ds| - 1]) && Squares(ds)[|ds| - 1] == Square(ds[|ds| - 1])
  {
  }

  ghost predicate NonNegative(xs: seq<real>) {
    xs != [] ==> xs[|xs| - 1] >= 0.0 && NonNegative(xs[..|xs| - 1])
  }

  lemma {:induction false} SquaresAreNonNegative(ds: seq<real>)
    ensures NonNegative(Squares(ds))
  {
    if ds != [] {
      SquaresPrefix(ds);
      SquaresAreNonNegative(ds[..|ds| - 1]);
      SquareIsNonNegative(ds[|ds| - 1]);
    }
  }

  lemma {:induction false} SumIsNonNegative(xs: seq<real>)
    requires NonNegative(xs)
    ensures Sum(xs) >= 0.0
    ensures Sum(xs) == 0.0 ==> Constant(xs, 0.0)
  {
    if xs != [] {
      SumIsNonNegative(xs[..|xs| - 1]);
    }
  }

  /** Cauchy-Schwarz: the square of a sum of n terms is at most n times the sum of their squares. */
  lemma {:induction false} Cauchy(ds: seq<real>)
    ensures Sum(Squares(ds)) >= 0.0
    ensures Square(Sum(ds)) <= Sum(Squares(ds)) * (|ds| as real)
  {
    if ds != [] {
      var init, d := ds[..|ds| - 1], ds[|ds| - 1];
      assert Sum(ds) == Sum(init) + d && Sum(Squares(ds)) == Sum(Squares(init)) + Square(d) by {
        SquaresPrefix(ds);
      }
      Cauchy(init);
      SquareIsNonNegative(d);
      CauchyStep(Sum(init), d, Sum(Squares(init)), |init| as real, Sum(ds), Sum(Squares(ds)), |ds| as real);
    }
  }

  function Without(xs: seq<real>, k: nat): seq<real>
    requires k < |xs|
  {
    xs[..k] + xs[k + 1..]
  }

  lemma {:induction false} SumWithout(xs: seq<real>, k: nat)
    requires k < |xs|
    ensures Sum(Without(xs, k)) == Sum(xs) - xs[k]
  {
    var init, ys := xs[..|xs| - 1], Without(xs, k);
    if k < |init| {
      SumWithout(init, k);
      assert ys[..|ys| - 1] == Without(init, k) && ys[|ys| - 1] == xs[|xs| - 1];
    } else {
      assert ys == init;
    }
  }

  lemma SquaresWithout(ds: seq<real>, k: nat)
    requires k < |ds|
    ensures Squares(Without(ds, k)) == Without(Squares(ds), k)
  {
  }

  /** The same bound for all terms but one. */
  lemma {:induction false} CauchyWithout(ds: seq<real>, k: nat) returns (rest: real)
    requires k < |ds| && Sum(ds) == 0.0
    ensures Sum(Squares(ds)) == rest + Squares(ds)[k]
    ensures Squares(ds)[k] <= rest * ((|ds| - 1) as real)
  {
    var others := Without(ds, k);
    rest := Sum(Squares(others));
    assert Sum(Squares(ds)) == rest + Squares(ds)[k] by {
      SquaresWithout(ds, k);
      SumWithout(Squares(ds), k);
    }
    assert Sum(others) == 0.0 - ds[k] by {
      SumWithout(ds, k);
    }
    SquareOfNegation(ds[k]);
    Cauchy(others);
  }

  lemma {:induction false} SumOfDeviations(xs: seq<real>, m: real)
    ensures Sum(Deviations(xs, m)) == Sum(xs) - Scale(m, |xs|)
  {
    if xs != [] {
      SumOfDeviations(xs[..|xs| - 1], m);
      assert Deviations(xs, m)[..|xs| - 1] == Deviations(xs[..|xs| - 1], m);
    }
  }

  lemma DeviationsCancel(xs: seq<real>)
    requires xs != []
    ensures Sum(Deviations(xs, Mean(xs))) == 0.0
  {
    SumOfDeviations(xs, Mean(xs));
    MeanIsMean(xs);
  }

  // ---------------------------------------------------------------- a sample within its own baseline

  lemma {:induction false} ShareOfVariance(d2: real, rest: real, n: nat)
    requires n > 0 && d2 <= rest * ((n - 1) as real)
    ensures d2 <= ((n - 1) as real) * ((rest + d2) / (n as real))
  {
    var q, r, v := rest + d2, n as real, (rest + d2) / (n as real);
    assert v * r == q;
    assert rest * (r - 1.0) + d2 * (r - 1.0) == q * (r - 1.0);
    assert ((r - 1.0) * v) * r == q * (r - 1.0);
    CancelFactor(d2, (r - 1.0) * v, r);
  }

  /** Samuelson's inequality: no sample of n is further from their mean than sqrt(n - 1) deviations. */
  lemma SampleWithinBaseline(xs: seq<real>, x: real)
    requires x in xs
    ensures Square(x - Mean(xs)) <= ((|xs| - 1) as real) * Variance(xs)
  {
    var ds := Deviations(xs, Mean(xs));
    var k :| 0 <= k < |xs| && xs[k] == x;
    DeviationsCancel(xs);
    var rest := CauchyWithout(ds, k);
    ShareOfVariance(Squares(ds)[k], rest, |ds|);
  }

  lemma SquareOfQuotient(a: real, s: real, k: real)
    requires s != 0.0 && Square(a) <= k * Square(s)
    ensures Square(a / s) <= k
  {
    var z := a / s;
    assert z * s == a;
    assert Square(z) * Square(s) == Square(a);
    SquareIsNonNegative(s);
    CancelFactor(Square(z), k, Square(s));
  }

  lemma {:induction false} SmallSquare(z: real, bound: real)
    requires bound >= 0.0 && Square(z) < Square(bound)
    ensures Abs(z) < bound
  {
    if Abs(z) >= bound {
      LargerSquare(bound, Abs(z));
    }
  }

  lemma {:induction false} LargerSquare(a: real, b: real)
    requires 0.0 <= a <= b
    ensures Square(a) <= Square(b)
  {
    assert Square(b) - Square(a) == (b - a) * (b + a);
  }

  lemma VarianceIsNonNegative(xs: seq<real>)
    requires xs != []
    ensures Variance(xs) >= 0.0
  {
    var ds := Deviations(xs, Mean(xs));
    Cauchy(ds);
    NonNegativeQuotient(Sum(Squares(ds)), |ds|);
  }

  lemma NonNegativeQuotient(q: real, n: nat)
    requires n > 0 && q >= 0.0
    ensures q / (n as real) >= 0.0
  {
  }

  /**
   A window scored against a baseline containing itself could not be flagged at the default
   threshold with fewer than ten samples, and the default baseline and itself make seven.
   */
  lemma SelfScoreNeverFlags(xs: seq<real>, x: real, sqrt: real -> real, round4: real -> real)
    requires x in xs && |xs| <= 9 && IsSqrt(sqrt) && RoundsWithin(round4, SCORE_ROUNDING)
    ensures !FlagAnomaly(ZScore(xs, x, sqrt, round4), DEFAULT_ZSCORE_THRESHOLD)
  {
    var z := ZScore(xs, x, sqrt, round4);
    if z.Some? {
      var std := sqrt(Variance(xs));
      VarianceIsNonNegative(xs);
      SampleWithinBaseline(xs, x);
      SquareOfQuotient(x - Mean(xs), std, (|xs| - 1) as real);
      SmallSquare((x - Mean(xs)) / std, 2.9);
    }
  }

  function Spike(n: nat, c: real, x: real): seq<real> {
    seq(n, _ => c) + [x]
  }

  lemma SumOfSpike(n: nat, c: real, x: real)
    ensures Sum(Spike(n, c, x)) == c * (n as real) + x
  {
    var xs := seq(n, _ => c);
    ConstantIff(xs, c);
    SumOfEqual(xs, c);
    ScaleIsProduct(c, n);
    assert Spike(n, c, x)[..n] == xs;
  }

  lemma VarianceOfSpike()
    ensures Mean(Spike(9, 0.0, 10.0)) == 1.0 && Variance(Spike(9, 0.0, 10.0)) == 9.0
  {
    SumOfSpike(9, 0.0, 10.0);
    assert Deviations(Spike(9, 0.0, 10.0), 1.0) == Spike(9, -1.0, 9.0);
    assert Squares(Spike(9, -1.0, 9.0)) == Spike(9, 1.0, 81.0);
    SumOfSpike(9, 1.0, 81.0);
  }

  /** Ten is the exact limit: a lone spike over nine quiet windows scores 3 against itself and them. */
  lemma TenSamplesCanFlag(sqrt: real -> real, round4: real -> real)
    requires IsSqrt(sqrt) && round4(3.0) == 3.0
    ensures FlagAnomaly(ZScore(Spike(9, 0.0, 10.0), 10.0, sqrt, round4), DEFAULT_ZSCORE_THRESHOLD)
  {
    VarianceOfSpike();
    RootIsUnique(sqrt(9.0), 3.0);
  }

  /** With the prior-only baseline every score can be reached, whatever the history's spread. */
  lemma PriorScoreIsUnbounded(baseline: seq<real>, z: real, sqrt: real -> real, round4: real -> real) returns (value: real)
    requires |baseline| >= 2 && sqrt(Variance(baseline)) != 0.0
    ensures ZScore(baseline, value, sqrt, round4) == Some(round4(z))
  {
    var std := sqrt(Variance(baseline));
    value := Mean(baseline) + z * std;
    assert (z * std) / std == z;
  }

  // ---------------------------------------------------------------- when the score is undefined

  ghost predicate Constant(xs: seq<real>, c: real) {
    xs != [] ==> xs[|xs| - 1] == c && Constant(xs[..|xs| - 1], c)
  }

  ghost predicate AllEqual(xs: seq<real>) {
    forall i, j {:trigger xs[i], xs[j]} :: 0 <= i < |xs| && 0 <= j < |xs| ==> xs[i] == xs[j]
  }

  lemma {:induction false} ConstantIff(xs: seq<real>, c: real)
    ensures Constant(xs, c) <==> forall i {:trigger xs[i]} :: 0 <= i < |xs| ==> xs[i] == c
  {
    if xs != [] {
      var init := xs[..|xs| - 1];
      ConstantIff(init, c);
      assert forall i {:trigger xs[i]} :: 0 <= i < |init| ==> xs[i] == init[i];
    }
  }

  lemma ZerosOfSquares(ds: seq<real>)
    ensures Constant(Squares(ds), 0.0) <==> Constant(ds, 0.0)
  {
    ConstantIff(ds, 0.0);
    ConstantIff(Squares(ds), 0.0);
    forall i {:trigger ds[i]} | 0 <= i < |ds| ensures Squares(ds)[i] == 0.0 <==> ds[i] == 0.0 {
      SquareIsNonNegative(ds[i]);
    }
    if Constant(ds, 0.0) {
      assert forall i {:trigger Squares(ds)[i]} :: 0 <= i < |ds| ==> ds[i] == 0.0;
    } else if Constant(Squares(ds), 0.0) {
      SquareRootIsZero(ds);
    }
  }

  lemma SquareRootIsZero(ds: seq<real>)
    requires forall i {:trigger Squares(ds)[i]} :: 0 <= i < |ds| ==> Squares(ds)[i] == 0.0
    ensures forall i {:trigger ds[i]} :: 0 <= i < |ds| ==> ds[i] == 0.0
  {
    forall i {:trigger ds[i]} | 0 <= i < |ds| ensures ds[i] == 0.0 {
      assert Squares(ds)[i] == 0.0;
      SquareIsNonNegative(ds[i]);
    }
  }

  lemma SquaresVanish(ds: seq<real>)
    ensures Sum(Squares(ds)) == 0.0 <==> Constant(ds, 0.0)
  {
    ZerosOfSquares(ds);
    SquaresAreNonNegative(ds);
    SumIsNonNegative(Squares(ds));
    if Constant(ds, 0.0) {
      SumOfEqual(Squares(ds), 0.0);
      ScaleIsProduct(0.0, |ds|);
    }
  }

  lemma {:induction false} SumOfEqual(xs: seq<real>, c: real)
    requires Constant(xs, c)
    ensures Sum(xs) == Scale(c, |xs|)
  {
    if xs != [] {
      SumOfEqual(xs[..|xs| - 1], c);
    }
  }

  lemma MeanOfEqual(xs: seq<real>, c: real)
    requires xs != [] && Constant(xs, c)
    ensures Mean(xs) == c
  {
    SumOfEqual(xs, c);
    MeanIsMean(xs);
    ScaleInjective(Mean(xs), c, |xs|);
  }

  lemma {:induction false} ZeroQuotient(q: real, n: nat)
    requires n > 0
    ensures q / (n as real) == 0.0 <==> q == 0.0
  {
    QuotientScales(q, n);
    ScaleIsProduct(0.0, n);
  }

  lemma ZeroVariance(xs: seq<real>)
    requires xs != []
    ensures Variance(xs) == 0.0 <==> AllEqual(xs)
  {
    var m, ds := Mean(xs), Deviations(xs, Mean(xs));
    SquaresVanish(ds);
    ZeroQuotient(Sum(Squares(ds)), |ds|);
    ConstantIff(ds, 0.0);
    assert forall i {:trigger xs[i]} :: 0 <= i < |xs| ==> ds[i] == xs[i] - m;
    if AllEqual(xs) {
      ConstantIff(xs, xs[0]);
      MeanOfEqual(xs, xs[0]);
    }
  }

  /** There is no score exactly when there are fewer than two samples or all are equal. */
  lemma UndefinedIff(xs: seq<real>, value: real, sqrt: real -> real, round4: real -> real)
    requires IsSqrt(sqrt)
    ensures ZScore(xs, value, sqrt, round4).None? <==> |xs| < 2 || AllEqual(xs)
  {
    if |xs| >= 2 {
      ZeroVariance(xs);
      VarianceIsNonNegative(xs);
      SquareIsNonNegative(sqrt(Variance(xs)));
    }
  }

  lemma QuotientAtLeast(d: real, s: real, t: real)
    requires s > 0.0 && t >= 0.0
    ensures Abs(d / s) >= t <==> Square(d) >= Square(t * s)
  {
    var z, a := d / s, Abs(d);
    assert z * s == d;
    assert Abs(z) * s == a by {
      if d >= 0.0 {
        NonNegativeRatio(d, s);
      } else {
        NonNegativeRatio(-d, s);
      }
    }
    SquareOfNegation(d);
    if Abs(z) >= t {
      FactorOrder(t, Abs(z), s);
      LargerSquare(t * s, a);
    } else {
      StrictFactorOrder(Abs(z), t, s);
      StrictlyLargerSquare(a, t * s);
    }
  }

  lemma NonNegativeRatio(d: real, s: real)
    requires s > 0.0 && d >= 0.0
    ensures d / s >= 0.0 && Abs(d / s) * s == d && Abs((-d) / s) * s == d
  {
    var z := d / s;
    assert z * s == d;
    assert (-z) * s == -d;
    assert (-d) / s == -z;
  }

  lemma FactorOrder(x: real, y: real, s: real)
    requires 0.0 <= x <= y && s > 0.0
    ensures 0.0 <= x * s <= y * s
  {
  }

  lemma StrictFactorOrder(x: real, y: real, s: real)
    requires 0.0 <= x < y && s > 0.0
    ensures 0.0 <= x * s < y * s
  {
    var d := y - x;
    assert d * s > 0.0;
    assert y * s == x * s + d * s;
  }

  /** The distance of `x` from the prior windows' mean is at least `t` of their deviations, by squares. */
  predicate FarOut(baseline: seq<real>, x: real, t: real)
    requires baseline != []
  {
    Square(x - Mean(baseline)) >= Square(t) * Variance(baseline)
  }

  /** Two prior windows with different averages: exactly then there is a score. */
  ghost predicate Scorable(baseline: seq<real>) {
    |baseline| >= 2 && !AllEqual(baseline)
  }

  /** The score before rounding. */
  function RawScore(baseline: seq<real>, x: real, sqrt: real -> real): real
    requires baseline != [] && sqrt(Variance(baseline)) != 0.0
  {
    (x - Mean(baseline)) / sqrt(Variance(baseline))
  }

  lemma DeviationIsPositive(baseline: seq<real>, sqrt: real -> real)
    requires IsSqrt(sqrt) && Scorable(baseline)
    ensures sqrt(Variance(baseline)) > 0.0
  {
    ZeroVariance(baseline);
    VarianceIsNonNegative(baseline);
    SquareIsNonNegative(sqrt(Variance(baseline)));
  }

  lemma RawScoreAtLeast(baseline: seq<real>, x: real, t: real, sqrt: real -> real)
    requires IsSqrt(sqrt) && Scorable(baseline) && t >= 0.0 && sqrt(Variance(baseline)) > 0.0
    ensures Abs(RawScore(baseline, x, sqrt)) >= t <==> FarOut(baseline, x, t)
  {
    VarianceIsNonNegative(baseline);
    QuotientAtLeast(x - Mean(baseline), sqrt(Variance(baseline)), t);
    SquareOfScaled(t, sqrt(Variance(baseline)));
  }

  /** A rounded value reaches a bound when the value reaches it with room to spare, and only when it nearly does. */
  lemma RoundedAtLeast(z: real, rounded: real, t: real, eps: real)
    requires Abs(rounded - z) <= eps
    ensures Abs(z) >= t + eps ==> Abs(rounded) >= t
    ensures Abs(rounded) >= t ==> Abs(z) >= t - eps
  {
  }

  /** For a rounding within `eps`: flagged only `eps` deviations short of the threshold, and always `eps` beyond it. */
  lemma AnomalyWithin(baseline: seq<real>, x: real, threshold: real, eps: real, sqrt: real -> real, round: real -> real)
    requires IsSqrt(sqrt) && RoundsWithin(round, eps)
    ensures var flagged := FlagAnomaly(ZScore(baseline, x, sqrt, round), threshold);
            && (flagged ==> Scorable(baseline) && (threshold >= eps ==> FarOut(baseline, x, threshold - eps)))
            && (Scorable(baseline) && (threshold + eps <= 0.0 || FarOut(baseline, x, threshold + eps)) ==> flagged)
  {
    UndefinedIff(baseline, x, sqrt, round);
    if Scorable(baseline) {
      DeviationIsPositive(baseline, sqrt);
      var z := RawScore(baseline, x, sqrt);
      assert ZScore(baseline, x, sqrt, round) == Some(round(z));
      RoundedAtLeast(z, round(z), threshold, eps);
      if threshold >= eps {
        RawScoreAtLeast(baseline, x, threshold - eps, sqrt);
      }
      if threshold + eps >= 0.0 {
        RawScoreAtLeast(baseline, x, threshold + eps, sqrt);
      }
    }
  }

  /**
   Without square root and quotient: a window is flagged only if two prior windows differ and it
   lies the threshold's number of deviations from their mean, less half a unit of the fourth
   decimal; and it is flagged whenever it lies half such a unit beyond the threshold.
   */
  lemma AnomalyWithinRounding(baseline: seq<real>, x: real, threshold: real, sqrt: real -> real, round4: real -> real)
    requires IsSqrt(sqrt) && RoundsWithin(round4, SCORE_ROUNDING)
    ensures var flagged := FlagAnomaly(ZScore(baseline, x, sqrt, round4), threshold);
            && (flagged ==> Scorable(baseline)
                            && (threshold >= SCORE_ROUNDING ==> FarOut(baseline, x, threshold - SCORE_ROUNDING)))
            && (Scorable(baseline) && (threshold + SCORE_ROUNDING <= 0.0 || FarOut(baseline, x, threshold + SCORE_ROUNDING))
                ==> flagged)
  {
    AnomalyWithin(baseline, x, threshold, SCORE_ROUNDING, sqrt, round4);
  }

  /** Unrounded scores meet the threshold exactly. */
  lemma AnomalyIff(baseline: seq<real>, x: real, threshold: real, sqrt: real -> real, exact: real -> real)
    requires IsSqrt(sqrt) && threshold >= 0.0 && RoundsWithin(exact, 0.0)
    ensures FlagAnomaly(ZScore(baseline, x, sqrt, exact), threshold) <==> Scorable(baseline) && FarOut(baseline, x, threshold)
  {
    AnomalyWithin(baseline, x, threshold, 0.0, sqrt, exact);
  }

  // ---------------------------------------------------------------- shift and scale

  function Scaled(xs: seq<real>, a: real): seq<real> {
    seq(|xs|, i requires 0 <= i < |xs| => a * xs[i])
  }

  function Shifted(xs: seq<real>, b: real): seq<real> {
    seq(|xs|, i requires 0 <= i < |xs| => xs[i] + b)
  }

  /** Every sample moved to `a * x + b`. */
  function Affine(xs: seq<real>, a: real, b: real): seq<real> {
    Shifted(Scaled(xs, a), b)
  }

  lemma {:induction false} SumOfShifted(xs: seq<real>, b: real)
    ensures Sum(Shifted(xs, b)) == Sum(xs) + Scale(b, |xs|)
  {
    if xs != [] {
      SumOfShifted(xs[..|xs| - 1], b);
      assert Shifted(xs, b)[..|xs| - 1] == Shifted(xs[..|xs| - 1], b);
    }
  }

  lemma MeanOfShifted(xs: seq<real>, b: real)
    requires xs != []
    ensures Mean(Shifted(xs, b)) == Mean(xs) + b
  {
    MeanIsMean(xs);
    MeanIsMean(Shifted(xs, b));
    SumOfShifted(xs, b);
    ScaleAdds(Mean(xs), b, |xs|);
    ScaleInjective(Mean(Shifted(xs, b)), Mean(xs) + b, |xs|);
  }

  lemma MeanOfAffine(xs: seq<real>, a: real, b: real)
    requires xs != []
    ensures Mean(Affine(xs, a, b)) == a * Mean(xs) + b
  {
    MeanOfMultiples(xs, Scaled(xs, a), a);
    MeanOfShifted(Scaled(xs, a), b);
  }

  lemma SquareOfScaled(a: real, d: real)
    ensures Square(a * d) == Square(a) * Square(d)
  {
  }

  /** `qs` is `ps` with every element multiplied by `c`. */
  ghost predicate Multiples(ps: seq<real>, qs: seq<real>, c: real) {
    |ps| == |qs| && forall i {:trigger ps[i]} {:trigger qs[i]} :: 0 <= i < |ps| ==> qs[i] == c * ps[i]
  }

  lemma {:induction false} SumOfMultiples(ps: seq<real>, qs: seq<real>, c: real)
    requires Multiples(ps, qs, c)
    ensures Sum(qs) == c * Sum(ps)
  {
    if ps != [] {
      var p, q := ps[..|ps| - 1], qs[..|qs| - 1];
      SumOfMultiples(p, q, c);
      DistributeOver(c, Sum(p), ps[|ps| - 1]);
    }
  }

  lemma DistributeOver(c: real, p: real, q: real)
    ensures c * (p + q) == c * p + c * q
  {
  }

  lemma MeanOfMultiples(ps: seq<real>, qs: seq<real>, c: real)
    requires ps != [] && Multiples(ps, qs, c)
    ensures Mean(qs) == c * Mean(ps)
  {
    SumOfMultiples(ps, qs, c);
    ScaledQuotient(Sum(ps), |ps| as real, c);
  }

  lemma {:induction false} ScaledQuotient(s: real, r: real, c: real)
    requires r > 0.0
    ensures (c * s) / r == c * (s / r)
  {
    var q := s / r;
    assert q * r == s;
    assert (c * q) * r == c * s;
  }

  lemma AffineDifference(x: real, m: real, a: real, b: real)
    ensures (a * x + b) - (a * m + b) == a * (x - m)
  {
  }

  lemma {:induction false} DeviationsOfAffine(xs: seq<real>, m: real, n: real, a: real, b: real)
    requires n == a * m + b
    ensures Multiples(Deviations(xs, m), Deviations(Affine(xs, a, b), n), a)
  {
    var ds, es := Deviations(xs, m), Deviations(Affine(xs, a, b), n);
    forall i {:trigger ds[i]} {:trigger es[i]} | 0 <= i < |ds| ensures es[i] == a * ds[i] {
      AffineDifference(xs[i], m, a, b);
    }
  }

  lemma {:induction false} SquaresOfMultiples(ds: seq<real>, es: seq<real>, a: real)
    requires Multiples(ds, es, a)
    ensures Multiples(Squares(ds), Squares(es), Square(a))
  {
    var ps, qs := Squares(ds), Squares(es);
    forall i {:trigger ps[i]} {:trigger qs[i]} | 0 <= i < |ps| ensures qs[i] == Square(a) * ps[i] {
      SquareOfScaled(a, ds[i]);
    }
  }

  lemma VarianceOfMultiples(xs: seq<real>, ys: seq<real>, a: real)
    requires xs != [] && ys != []
    requires Multiples(Deviations(xs, Mean(xs)), Deviations(ys, Mean(ys)), a)
    ensures Variance(ys) == Square(a) * Variance(xs)
  {
    var ds, es := Deviations(xs, Mean(xs)), Deviations(ys, Mean(ys));
    SquaresOfMultiples(ds, es, a);
    MeanOfMultiples(Squares(ds), Squares(es), Square(a));
  }

  lemma StrictlyLargerSquare(a: real, b: real)
    requires 0.0 <= a < b
    ensures Square(a) < Square(b)
  {
    var s, d := b + a, b - a;
    assert d * s > 0.0;
    assert Square(b) - Square(a) == d * s;
  }

  lemma RootIsUnique(x: real, y: real)
    requires x >= 0.0 && y >= 0.0 && Square(x) == Square(y)
    ensures x == y
  {
    if x < y {
      StrictlyLargerSquare(x, y);
    } else if y < x {
      StrictlyLargerSquare(y, x);
    }
  }

  lemma RootOfScaled(sqrt: real -> real, a: real, v: real, w: real)
    requires IsSqrt(sqrt) && a > 0.0 && v >= 0.0 && w >= 0.0 && w == Square(a) * v
    ensures sqrt(w) == a * sqrt(v)
  {
    SquareOfScaled(a, sqrt(v));
    RootIsUnique(sqrt(w), a * sqrt(v));
  }

  lemma {:induction false} CommonFactor(a: real, d: real, s: real, d': real, s': real)
    requires a > 0.0 && d' == a * d && s' == a * s
    ensures s' == 0.0 <==> s == 0.0
    ensures s != 0.0 ==> d' / s' == d / s
  {
    if s != 0.0 {
      var z := d / s;
      assert z * s == d;
      assert a * s != 0.0;
      assert z * (a * s) == a * d;
    }
  }

  lemma ScoreOfMultiples(xs: seq<real>, ys: seq<real>, value: real, value': real, a: real,
                         sqrt: real -> real, round4: real -> real)
    requires IsSqrt(sqrt) && a > 0.0 && |xs| == |ys| >= 2
    requires Multiples(Deviations(xs, Mean(xs)), Deviations(ys, Mean(ys)), a)
    requires value' - Mean(ys) == a * (value - Mean(xs))
    ensures ZScore(ys, value', sqrt, round4) == ZScore(xs, value, sqrt, round4)
  {
    assert sqrt(Variance(ys)) == a * sqrt(Variance(xs)) by {
      VarianceIsNonNegative(xs);
      VarianceIsNonNegative(ys);
      VarianceOfMultiples(xs, ys, a);
      RootOfScaled(sqrt, a, Variance(xs), Variance(ys));
    }
    CommonFactor(a, value - Mean(xs), sqrt(Variance(xs)), value' - Mean(ys), sqrt(Variance(ys)));
  }

  /** Shifting and positively scaling baseline and value together does not change the score. */
  lemma ScoreIsInvariant(xs: seq<real>, value: real, a: real, b: real, sqrt: real -> real, round4: real -> real)
    requires IsSqrt(sqrt) && a > 0.0
    ensures ZScore(Affine(xs, a, b), a * value + b, sqrt, round4) == ZScore(xs, value, sqrt, round4)
  {
    if |xs| >= 2 {
      var ys := Affine(xs, a, b);
      MeanOfAffine(xs, a, b);
      DeviationsOfAffine(xs, Mean(xs), Mean(ys), a, b);
      AffineDifference(value, Mean(xs), a, b);
      ScoreOfMultiples(xs, ys, value, a * value + b, a, sqrt, round4);
    }
  }
}
