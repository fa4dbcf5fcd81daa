/**
 Rolling statistics per geohash cell: each window's average is scored against the cell's own
 recent history. Square root and rounding are parameters.
 */
module RollingStats {
  import opened Sequences
  import opened Statistics
  import opened GeoAggregation

  datatype EnrichedBlob = EnrichedBlob(blob: Blob, rollingCpmAvg: Option<real>, cpmZscore: Option<real>, anomaly: bool)

  const DEFAULT_ZSCORE_THRESHOLD: real := 3.0

  /** Four decimals of rounding. */
  const SCORE_ROUNDING: real := 0.00005

  function Square(x: real): real {
    x * x
  }

  ghost predicate IsSqrt(sqrt: real -> real) {
    forall v {:trigger sqrt(v)} :: v >= 0.0 ==> sqrt(v) >= 0.0 && Square(sqrt(v)) == v
  }

  function PushSample(series: seq<real>, cpmAvg: real, maxLen: int): seq<real> {
    TailSlice(series + [cpmAvg], maxLen)
  }

  function Deviations(xs: seq<real>, m: real): seq<real> {
    seq(|xs|, i requires 0 <= i < |xs| => xs[i] - m)
  }

  function Squares(xs: seq<real>): seq<real> {
    seq(|xs|, i requires 0 <= i < |xs| => Square(xs[i]))
  }

  function Variance(series: seq<real>): real
    requires series != []
  {
    Mean(Squares(Deviations(series, Mean(series))))
  }

  function ZScore(series: seq<real>, value: real, sqrt: real -> real, round4: real -> real): Option<real> {
    if |series| < 2 then None
    else
      var mean, std := Mean(series), sqrt(Variance(series));
      if std == 0.0 then None else Some(round4((value - mean) / std))
  }

  predicate FlagAnomaly(z: Option<real>, threshold: real) {
    z.Some? && Abs(z.value) >= threshold
  }

  /** The score is against the prior windows only; the rolling average includes the current one. */
  function EnrichBlob(blob: Blob, baseline: seq<real>, threshold: real, sqrt: real -> real,
                      round4: real -> real): EnrichedBlob {
    if blob.cpmAvg.None? then EnrichedBlob(blob, None, None, false)
    else
      var z := ZScore(baseline, blob.cpmAvg.value, sqrt, round4);
      EnrichedBlob(blob, MeanOf(baseline + [blob.cpmAvg.value], round4), z, FlagAnomaly(z, threshold))
  }

  // ---------------------------------------------------------------- the state and its recovery

  /** The averages of the non-empty windows. */
  function Averages(blobs: seq<Blob>): seq<real> {
    if blobs == [] then []
    else
      var rest, last := Averages(blobs[..|blobs| - 1]), blobs[|blobs| - 1];
      if last.cpmAvg.Some? then rest + [last.cpmAvg.value] else rest
  }

  /** What is left of a history: the last N, but all of it when N is 0, and nothing below. */
  function Kept(avgs: seq<real>, windowCount: int): seq<real> {
    if windowCount > 0 then LastN(avgs, windowCount) else if windowCount == 0 then avgs else []
  }

  lemma PushKeeps(avgs: seq<real>, x: real, windowCount: int)
    ensures PushSample(Kept(avgs, windowCount), x, windowCount) == Kept(avgs + [x], windowCount)
  {
  }

  class RollingStatsOperator {
    const windowCount: int
    const threshold: real
    var series: Option<seq<real>>
    ghost var avgs: seq<real>  // the averages of the non-empty windows so far

    ghost predicate Valid()
      reads this
    {
      (if series.Some? then series.value else []) == Kept(avgs, windowCount)
    }

    constructor (windowCount: int, threshold: real)
      ensures Valid() && avgs == [] && this.windowCount == windowCount && this.threshold == threshold
    {
      this.windowCount, this.threshold, series, avgs := windowCount, threshold, None, [];
    }

    /** A restart from a checkpoint that was taken after the windows with averages `history`. */
    constructor Resume(windowCount: int, threshold: real, saved: Option<seq<real>>, ghost history: seq<real>)
      requires (if saved.Some? then saved.value else []) == Kept(history, windowCount)
      ensures Valid() && avgs == history && series == saved && this.windowCount == windowCount && this.threshold == threshold
    {
      this.windowCount, this.threshold, series, avgs := windowCount, threshold, saved, history;
    }

    method ProcessElement(blob: Blob, sqrt: real -> real, round4: real -> real) returns (out: EnrichedBlob)
      requires Valid()
      modifies this
      ensures Valid() && avgs == old(avgs) + Averages([blob])
      ensures out == EnrichBlob(blob, Kept(old(avgs), windowCount), threshold, sqrt, round4)
    {
      assert [blob][..0] == [] && Averages([]) == [];
      var baseline := if series.Some? then series.value else [];
      out := EnrichBlob(blob, baseline, threshold, sqrt, round4);
      if blob.cpmAvg.Some? {
        PushKeeps(avgs, blob.cpmAvg.value, windowCount);
        series := Some(PushSample(baseline, blob.cpmAvg.value, windowCount));
        avgs := avgs + [blob.cpmAvg.value];
      }
    }
  }

  /** The state an operator is left with, started on `series`. */
  function SeriesAfter(blobs: seq<Blob>, series: seq<real>, windowCount: int): seq<real> {
    if blobs == [] then series
    else
      var before, last := SeriesAfter(blobs[..|blobs| - 1], series, windowCount), blobs[|blobs| - 1];
      if last.cpmAvg.Some? then PushSample(before, last.cpmAvg.value, windowCount) else before
  }

  /** What it emits. */
  function Outputs(blobs: seq<Blob>, series: seq<real>, windowCount: int, threshold: real,
                   sqrt: real -> real, round4: real -> real): seq<EnrichedBlob> {
    if blobs == [] then []
    else
      var init := blobs[..|blobs| - 1];
      Outputs(init, series, windowCount, threshold, sqrt, round4)
      + [EnrichBlob(blobs[|blobs| - 1], SeriesAfter(init, series, windowCount), threshold, sqrt, round4)]
  }

  /** From a fresh start the state is always the last N non-null averages. */
  lemma {:induction false} StateIsRecentHistory(blobs: seq<Blob>, windowCount: int)
    ensures SeriesAfter(blobs, [], windowCount) == Kept(Averages(blobs), windowCount)
  {
    if blobs != [] {
      var init, last := blobs[..|blobs| - 1], blobs[|blobs| - 1];
      StateIsRecentHistory(init, windowCount);
      if last.cpmAvg.Some? {
        PushKeeps(Averages(init), last.cpmAvg.value, windowCount);
      }
    }
  }

  /** Each output is a function of the windows before it alone. */
  lemma {:induction false} OutputsSeeHistory(blobs: seq<Blob>, i: nat, windowCount: int, threshold: real,
                                        sqrt: real -> real, round4: real -> real)
    requires i < |blobs|
    ensures var out := Outputs(blobs, [], windowCount, threshold, sqrt, round4);
            |out| == |blobs|
            && out[i] == EnrichBlob(blobs[i], Kept(Averages(blobs[..i]), windowCount), threshold, sqrt, round4)
  {
    var init := blobs[..|blobs| - 1];
    OutputsCount(init, [], windowCount, threshold, sqrt, round4);
    if i < |init| {
      OutputsSeeHistory(init, i, windowCount, threshold, sqrt, round4);
      assert init[..i] == blobs[..i];
    } else {
      StateIsRecentHistory(init, windowCount);
    }
  }

  lemma {:induction false} OutputsCount(blobs: seq<Blob>, series: seq<real>, windowCount: int, threshold: real,
                                        sqrt: real -> real, round4: real -> real)
    ensures |Outputs(blobs, series, windowCount, threshold, sqrt, round4)| == |blobs|
  {
    if blobs != [] {
      OutputsCount(blobs[..|blobs| - 1], series, windowCount, threshold, sqrt, round4);
    }
  }

  lemma {:induction false} SeriesAfterConcat(a: seq<Blob>, b: seq<Blob>, series: seq<real>, windowCount: int)
    ensures SeriesAfter(a + b, series, windowCount) == SeriesAfter(b, SeriesAfter(a, series, windowCount), windowCount)
  {
    if b == [] {
      assert a + b == a;
    } else {
      assert (a + b)[..|a + b| - 1] == a + b[..|b| - 1];
      SeriesAfterConcat(a, b[..|b| - 1], series, windowCount);
    }
  }

  /** Saving the state at any point and resuming from it gives the uninterrupted output. */
  lemma {:induction false} RestartIsInvisible(a: seq<Blob>, b: seq<Blob>, series: seq<real>, windowCount: int,
                                        threshold: real,
                                              sqrt: real -> real, round4: real -> real)
    ensures Outputs(a + b, series, windowCount, threshold, sqrt, round4)
            == Outputs(a, series, windowCount, threshold, sqrt, round4)
               + Outputs(b, SeriesAfter(a, series, windowCount), windowCount, threshold, sqrt, round4)
  {
    if b == [] {
      assert a + b == a;
    } else {
      var init := b[..|b| - 1];
      assert (a + b)[..|a + b| - 1] == a + init;
      RestartIsInvisible(a, init, series, windowCount, threshold, sqrt, round4);
      SeriesAfterConcat(a, init, series, windowCount);
    }
  }
}
