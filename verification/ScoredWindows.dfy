/** What the rolling statistics say about each window, told by the averages of the windows before it. */
module ScoredWindows {
  import opened Sequences
  import opened Statistics
  import opened GeoAggregation
  import opened RollingStats
  import opened ZScoreTheorems

  /** The last N averages; all of them for N = 0, none below. */
  predicate IsRecent(avgs: seq<real>, windowCount: int, h: seq<real>) {
    && |h| == (if windowCount < 0 then 0 else if windowCount == 0 then |avgs| else Min(windowCount, |avgs|))
    && h == avgs[|avgs| - |h|..]
  }

  /** The squared distances from `mean`, added up. */
  function Spread(h: seq<real>, mean: real): real {
    if h == [] then 0.0 else Spread(h[..|h| - 1], mean) + (h[|h| - 1] - mean) * (h[|h| - 1] - mean)
  }

  /** `std` is the positive root of the mean of the squared distances. */
  predicate IsDeviation(h: seq<real>, mean: real, std: real) {
    std > 0.0 && Scale(std * std, |h|) == Spread(h, mean)
  }

  /** The score is the distance from the mean of `h` in its deviations, within the rounding. */
  ghost predicate IsScore(score: real, h: seq<real>, x: real, eps: real) {
    exists mean, std :: IsMean(h, mean) && IsDeviation(h, mean, std) && Abs(score - (x - mean) / std) <= eps
  }

  lemma {:induction false} SpreadIs(h: seq<real>, mean: real)
    ensures Sum(Squares(Deviations(h, mean))) == Spread(h, mean)
  {
    if h != [] {
      var init := h[..|h| - 1];
      SpreadIs(init, mean);
      assert Squares(Deviations(h, mean))[..|init|] == Squares(Deviations(init, mean));
    }
  }

  lemma VarianceIs(h: seq<real>)
    requires h != []
    ensures IsMean(h, Mean(h)) && Scale(Variance(h), |h|) == Spread(h, Mean(h))
  {
    MeanIsMean(h);
    SpreadIs(h, Mean(h));
    MeanIsMean(Squares(Deviations(h, Mean(h))));
  }

  /** What is said about a window with average `x` after windows with averages `h`. */
  ghost predicate IsScored(out: EnrichedBlob, h: seq<real>, x: real, threshold: real, eps: real) {
    && out.rollingCpmAvg.Some? && CloseToMean(h + [x], out.rollingCpmAvg.value, eps)
    && (out.cpmZscore.None? <==> |h| < 2 || AllEqual(h))
    && (out.cpmZscore.Some? ==> IsScore(out.cpmZscore.value, h, x, eps))
    && (out.anomaly ==> Scorable(h) && (threshold >= eps ==> FarOut(h, x, threshold - eps)))
    && (Scorable(h) && (threshold + eps <= 0.0 || FarOut(h, x, threshold + eps)) ==> out.anomaly)
  }

  lemma KeptIsRecent(avgs: seq<real>, windowCount: int)
    ensures IsRecent(avgs, windowCount, Kept(avgs, windowCount))
  {
  }

  lemma RecentIsKept(avgs: seq<real>, windowCount: int, h: seq<real>)
    requires IsRecent(avgs, windowCount, h)
    ensures h == Kept(avgs, windowCount)
  {
    KeptIsRecent(avgs, windowCount);
  }

  lemma MeanIsRounded(xs: seq<real>, round: real -> real, eps: real)
    requires xs != [] && RoundsWithin(round, eps)
    ensures MeanOf(xs, round).Some? && CloseToMean(xs, MeanOf(xs, round).value, eps)
  {
    MeanIsMean(xs);
    assert Abs(round(Mean(xs)) - Mean(xs)) <= eps;
  }

  lemma ScoreIsScore(h: seq<real>, x: real, sqrt: real -> real, round: real -> real, eps: real)
    requires IsSqrt(sqrt) && RoundsWithin(round, eps) && Scorable(h)
    ensures ZScore(h, x, sqrt, round).Some? && IsScore(ZScore(h, x, sqrt, round).value, h, x, eps)
  {
    var std := sqrt(Variance(h));
    UndefinedIff(h, x, sqrt, round);
    DeviationIsPositive(h, sqrt);
    VarianceIsNonNegative(h);
    VarianceIs(h);
    assert std * std == Square(std) == Variance(h);
    assert IsMean(h, Mean(h)) && IsDeviation(h, Mean(h), std);
    assert Abs(round((x - Mean(h)) / std) - (x - Mean(h)) / std) <= eps;
  }

  /** A window with an average is scored against the windows before it alone. */
  lemma EnrichedIsScored(blob: Blob, h: seq<real>, threshold: real, sqrt: real -> real, round4: real -> real)
    requires IsSqrt(sqrt) && RoundsWithin(round4, SCORE_ROUNDING)
    ensures var out := EnrichBlob(blob, h, threshold, sqrt, round4);
            && out.blob == blob
            && (blob.cpmAvg.Some? ==> IsScored(out, h, blob.cpmAvg.value, threshold, SCORE_ROUNDING))
            && (blob.cpmAvg.None? ==> out.rollingCpmAvg.None? && out.cpmZscore.None? && !out.anomaly)
  {
    if blob.cpmAvg.Some? {
      var x := blob.cpmAvg.value;
      MeanIsRounded(h + [x], round4, SCORE_ROUNDING);
      UndefinedIff(h, x, sqrt, round4);
      AnomalyWithinRounding(h, x, threshold, sqrt, round4);
      if Scorable(h) {
        ScoreIsScore(h, x, sqrt, round4, SCORE_ROUNDING);
      }
    }
  }

  /**
   Of every window of a cell the operator says just that, with h the last N averages of the
   windows before it; about a window without an average it says nothing.
   */
  lemma OutputsAreScored(blobs: seq<Blob>, i: nat, windowCount: int, threshold: real, sqrt: real -> real, round4: real -> real,
                         h: seq<real>)
    requires IsSqrt(sqrt) && RoundsWithin(round4, SCORE_ROUNDING) && i < |blobs|
    requires IsRecent(Averages(blobs[..i]), windowCount, h)
    ensures var outs := Outputs(blobs, [], windowCount, threshold, sqrt, round4);
            && |outs| == |blobs| && outs[i].blob == blobs[i]
            && (blobs[i].cpmAvg.Some? ==> IsScored(outs[i], h, blobs[i].cpmAvg.value, threshold, SCORE_ROUNDING))
            && (blobs[i].cpmAvg.None? ==> outs[i].rollingCpmAvg.None? && outs[i].cpmZscore.None? && !outs[i].anomaly)
  {
    RecentIsKept(Averages(blobs[..i]), windowCount, h);
    OutputsSeeHistory(blobs, i, windowCount, threshold, sqrt, round4);
    EnrichedIsScored(blobs[i], h, threshold, sqrt, round4);
  }

  /** The averages are those of the windows that have one, in order. */
  lemma {:induction false} AveragesAre(blobs: seq<Blob>)
    ensures |Averages(blobs)| == |Filter((b: Blob) => b.cpmAvg.Some?, blobs)|
    ensures forall i {:trigger Averages(blobs)[i]} :: 0 <= i < |Averages(blobs)| ==>
              Filter((b: Blob) => b.cpmAvg.Some?, blobs)[i].cpmAvg == Some(Averages(blobs)[i])
  {
    if blobs != [] {
      AveragesAre(blobs[..|blobs| - 1]);
    }
  }
}
