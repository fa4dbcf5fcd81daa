/**
 Rising-trend detection per geohash cell: an alert when the last N window averages rise
 strictly by enough in total, after which the cell's series starts afresh.
 */
module TrendDetector {
  import opened Sequences
  import opened Multiples
  import opened GeoAggregation

  datatype TrendAlert = TrendAlert(
    geohash: string, windowStart: int, windowEnd: int, cpm: Option<real>,
    latitude: Option<real>, longitude: Option<real>, series: seq<real>, breachCount: nat, delta: real)

  const DEFAULT_MIN_WINDOWS: int := 3
  const DEFAULT_MIN_DELTA: real := 5.0

  function PushWindow(series: seq<real>, cpmAvg: real, maxLen: int): seq<real> {
    TailSlice(series + [cpmAvg], maxLen)
  }

  ghost predicate StrictlyRising(w: seq<real>) {
    |w| > 1 ==> w[|w| - 2] < w[|w| - 1] && StrictlyRising(w[..|w| - 1])
  }

  /** A qualifying climb: strictly rising, and by at least `minDelta` from first to last. */
  ghost predicate Climbs(w: seq<real>, minDelta: real) {
    |w| >= 2 && StrictlyRising(w) && w[|w| - 1] - w[0] >= minDelta
  }

  method IsRising(series: seq<real>, minWindows: int, minDelta: real) returns (rising: bool)
    ensures rising <==> Rising(series, minWindows, minDelta)
  {
    if minWindows < 2 || |series| < minWindows {
      return false;
    }
    var window := LastN(series, minWindows);
    rising := true;
    for i := 1 to |window|
      invariant rising <==> StrictlyRising(window[..i])
    {
      assert window[..i + 1][..i] == window[..i];
      rising := rising && window[i - 1] < window[i];
    }
    assert window[..|window|] == window;
    rising := rising && window[|window| - 1] - window[0] >= minDelta;
  }

  ghost predicate Rising(series: seq<real>, minWindows: int, minDelta: real) {
    minWindows >= 2 && |series| >= minWindows && Climbs(LastN(series, minWindows), minDelta)
  }

  // ---------------------------------------------------------------- alerts as a function of history

  /** The N averages up to index `e` climb. */
  ghost predicate ClimbsAt(avgs: seq<real>, e: int, n: int, minDelta: real) {
    n >= 2 && n - 1 <= e < |avgs| && Climbs(avgs[e - n + 1..e + 1], minDelta)
  }

  /** Where the current series starts: just after the last alert. */
  ghost function Start(avgs: seq<real>, n: int, minDelta: real): (start: nat)
    ensures start <= |avgs|
  {
    if avgs == [] then 0
    else
      var start := Start(avgs[..|avgs| - 1], n, minDelta);
      if |avgs| - start >= n && ClimbsAt(avgs, |avgs| - 1, n, minDelta) then |avgs| else start
  }

  /** The newest average completes N climbing averages since the last alert. */
  ghost predicate Fires(avgs: seq<real>, n: int, minDelta: real) {
    && avgs != []
    && |avgs| - Start(avgs[..|avgs| - 1], n, minDelta) >= n
    && ClimbsAt(avgs, |avgs| - 1, n, minDelta)
  }

  /** The indices of the averages at which an alert fires. */
  ghost function Alerts(avgs: seq<real>, n: int, minDelta: real): seq<nat> {
    if avgs == [] then []
    else Alerts(avgs[..|avgs| - 1], n, minDelta) + if Fires(avgs, n, minDelta) then [|avgs| - 1] else []
  }

  lemma PushKeepsLastN(series: seq<real>, x: real, n: int)
    requires n >= 1
    ensures PushWindow(LastN(series, n), x, n) == LastN(series + [x], n)
  {
  }

  lemma LastNOfSuffix(all: seq<real>, start: nat, n: nat)
    requires start <= |all|
    ensures |all| - start >= n ==> LastN(all[start..], n) == all[|all| - n..|all|]
    ensures |LastN(all[start..], n)| == Min(n, |all| - start)
  {
  }

  /** Testing the series kept since the last alert decides just that. */
  lemma RisingIsFiring(all: seq<real>, n: int, minDelta: real)
    requires n >= 2 && all != []
    ensures var start := Start(all[..|all| - 1], n, minDelta);
            Rising(LastN(all[start..], n), n, minDelta) <==> Fires(all, n, minDelta)
  {
    var start := Start(all[..|all| - 1], n, minDelta);
    LastNOfSuffix(all, start, n);
    var kept := LastN(all[start..], n);
    assert LastN(kept, n) == kept;
  }

  /** The series is what is left of the averages since the last alert. */
  ghost predicate IsSeries(series: seq<real>, avgs: seq<real>, n: int, minDelta: real) {
    n >= 2 ==> series == LastN(avgs[Start(avgs, n, minDelta)..], n)
  }

  /** `pushed` is what there is to keep of `all`, and tells whether its newest average fires. */
  ghost predicate Kept(all: seq<real>, pushed: seq<real>, rising: bool, n: int, minDelta: real) {
    && (rising <==> Fires(all, n, minDelta))
    && (rising ==> n >= 2 && pushed == LastN(all, n) && |pushed| == n && IsSeries([], all, n, minDelta))
    && (!rising ==> IsSeries(pushed, all, n, minDelta))
  }

  /** Keeping the last N averages and clearing them at an alert refines the definition over all of them. */
  lemma {:induction false} PushedSeries(series: seq<real>, avgs: seq<real>, x: real, n: int, minDelta: real)
    requires IsSeries(series, avgs, n, minDelta)
    ensures var pushed := PushWindow(series, x, n);
            Kept(avgs + [x], pushed, Rising(pushed, n, minDelta), n, minDelta)
  {
    if n >= 2 {
      var start, all := Start(avgs, n, minDelta), avgs + [x];
      assert all[..|all| - 1] == avgs;
      var pushed := PushWindow(series, x, n);
      assert pushed == LastN(all[start..], n) by {
        assert all[start..] == avgs[start..] + [x];
        PushKeepsLastN(avgs[start..], x, n);
      }
      assert Rising(pushed, n, minDelta) <==> Fires(all, n, minDelta) by {
        RisingIsFiring(all, n, minDelta);
      }
      LastNOfSuffix(all, start, n);
    }
  }

  /** The cell stands in for the sensor, its centroid for the place. */
  function BuildTrendAlert(blob: Blob, series: seq<real>, round4: real -> real): TrendAlert {
    TrendAlert(blob.geohash, blob.windowStart, blob.windowEnd, blob.cpmMax,
               blob.centroidLatitude, blob.centroidLongitude, series, |series|,
               if series == [] then 0.0 else round4(series[|series| - 1] - series[0]))
  }

  /** The alert is about this blob's cell, window and peak, and carries the averages of the rise. */
  ghost predicate Describes(a: TrendAlert, blob: Blob, rise: seq<real>, round4: real -> real) {
    && rise != []
    && a.geohash == blob.geohash && a.windowStart == blob.windowStart && a.windowEnd == blob.windowEnd
    && a.cpm == blob.cpmMax && a.latitude == blob.centroidLatitude && a.longitude == blob.centroidLongitude
    && a.series == rise && a.breachCount == |rise| && a.delta == round4(rise[|rise| - 1] - rise[0])
  }

  lemma BuildDescribes(blob: Blob, rise: seq<real>, round4: real -> real)
    requires rise != []
    ensures Describes(BuildTrendAlert(blob, rise, round4), blob, rise, round4)
  {
  }

  class TrendDetectorOperator {
    const minWindows: int
    const minDelta: real
    var series: seq<real>
    ghost var avgs: seq<real>  // the non-null averages so far

    ghost predicate Valid()
      reads this
    {
      IsSeries(series, avgs, minWindows, minDelta)
    }

    constructor (minWindows: int, minDelta: real)
      ensures Valid() && avgs == [] && this.minWindows == minWindows && this.minDelta == minDelta
    {
      this.minWindows, this.minDelta, series, avgs := minWindows, minDelta, [], [];
    }

    /** A blob without an average changes nothing; an alert carries the N averages behind it. */
    method ProcessElement(blob: Blob, round4: real -> real) returns (out: seq<TrendAlert>)
      requires Valid()
      modifies this
      ensures Valid()
      ensures avgs == old(avgs) + (if blob.cpmAvg.Some? then [blob.cpmAvg.value] else [])
      ensures out != [] <==> blob.cpmAvg.Some? && Fires(avgs, minWindows, minDelta)
      ensures out != [] ==>
                && minWindows >= 2 && |out| == 1
                && Describes(out[0], blob, LastN(avgs, minWindows), round4) && out[0].breachCount == minWindows
    {
      if blob.cpmAvg.None? {
        return [];
      }
      var pushed := PushWindow(series, blob.cpmAvg.value, minWindows);
      var rising := IsRising(pushed, minWindows, minDelta);
      PushedSeries(series, avgs, blob.cpmAvg.value, minWindows, minDelta);
      avgs := avgs + [blob.cpmAvg.value];
      if rising {
        BuildDescribes(blob, pushed, round4);
        out := [BuildTrendAlert(blob, pushed, round4)];
        series := [];
      } else {
        out := [];
        series := pushed;
      }
    }
  }

  // ---------------------------------------------------------------- disjoint and complete

  lemma ClimbsAtPrefix(avgs: seq<real>, e: int, n: int, minDelta: real)
    requires avgs != [] && e < |avgs| - 1
    ensures ClimbsAt(avgs[..|avgs| - 1], e, n, minDelta) <==> ClimbsAt(avgs, e, n, minDelta)
  {
    if n >= 2 && n - 1 <= e {
      assert avgs[..|avgs| - 1][e - n + 1..e + 1] == avgs[e - n + 1..e + 1];
    }
  }

  /** Every alert is raised at the end of N climbing averages. */
  lemma {:induction false} AlertsAreClimbs(avgs: seq<real>, n: int, minDelta: real, i: nat)
    requires i < |Alerts(avgs, n, minDelta)|
    ensures ClimbsAt(avgs, Alerts(avgs, n, minDelta)[i], n, minDelta)
  {
    var before := Alerts(avgs[..|avgs| - 1], n, minDelta);
    if i < |before| {
      AlertsAreClimbs(avgs[..|avgs| - 1], n, minDelta, i);
      ClimbsAtPrefix(avgs, before[i], n, minDelta);
    }
  }

  /** The last alert is where the current series starts. */
  lemma {:induction false} StartIsLastAlert(avgs: seq<real>, n: int, minDelta: real)
    ensures var alerts := Alerts(avgs, n, minDelta);
            Start(avgs, n, minDelta) == if alerts == [] then 0 else alerts[|alerts| - 1] + 1
  {
    if avgs != [] {
      StartIsLastAlert(avgs[..|avgs| - 1], n, minDelta);
    }
  }

  /** No two alerts share an average: each ends at least N after the one before it. */
  lemma {:induction false} AlertsAreDisjoint(avgs: seq<real>, n: int, minDelta: real, i: nat)
    requires n >= 2 && 1 <= i < |Alerts(avgs, n, minDelta)|
    ensures Alerts(avgs, n, minDelta)[i] - Alerts(avgs, n, minDelta)[i - 1] >= n
  {
    var init := avgs[..|avgs| - 1];
    if i < |Alerts(init, n, minDelta)| {
      AlertsAreDisjoint(init, n, minDelta, i);
    } else {
      StartIsLastAlert(init, n, minDelta);
    }
  }

  /** Every run of N climbing averages has an alert at one of its averages. */
  lemma {:induction false} EveryClimbIsReported(avgs: seq<real>, n: int, minDelta: real, e: int) returns (a: nat)
    requires ClimbsAt(avgs, e, n, minDelta)
    ensures a in Alerts(avgs, n, minDelta) && e - n < a <= e
  {
    var init := avgs[..|avgs| - 1];
    var before := Alerts(init, n, minDelta);
    if e < |avgs| - 1 {
      ClimbsAtPrefix(avgs, e, n, minDelta);
      a := EveryClimbIsReported(init, n, minDelta, e);
    } else if Fires(avgs, n, minDelta) {
      a := e;
    } else {
      StartIsLastAlert(init, n, minDelta);
      a := before[|before| - 1];
      AlertsAreClimbs(init, n, minDelta, |before| - 1);
    }
  }

  lemma {:induction false} AlertsTakeBlocks(avgs: seq<real>, n: nat, minDelta: real)
    ensures Times(|Alerts(avgs, n, minDelta)|, n) <= Start(avgs, n, minDelta)
  {
    if avgs != [] {
      AlertsTakeBlocks(avgs[..|avgs| - 1], n, minDelta);
    }
  }

  /** At most floor(count / N) alerts over `count` averages. */
  lemma {:induction false} AlertCountBound(avgs: seq<real>, n: nat, minDelta: real)
    requires n >= 2
    ensures |Alerts(avgs, n, minDelta)| <= |avgs| / n
  {
    AlertsTakeBlocks(avgs, n, minDelta);
    TimesIsProduct(|Alerts(avgs, n, minDelta)|, n);
    AtMostQuotient(|Alerts(avgs, n, minDelta)|, n, |avgs|);
  }

  /** A climb that qualifies over any N consecutive averages. */
  ghost predicate Steady(avgs: seq<real>, n: int, minDelta: real) {
    avgs != [] ==> Steady(avgs[..|avgs| - 1], n, minDelta) && (|avgs| >= n ==> ClimbsAt(avgs, |avgs| - 1, n, minDelta))
  }

  lemma {:induction false} SteadyBlocks(avgs: seq<real>, n: nat, minDelta: real)
    requires n >= 2 && Steady(avgs, n, minDelta)
    ensures Times(|Alerts(avgs, n, minDelta)|, n) == Start(avgs, n, minDelta) && |avgs| - Start(avgs, n, minDelta) < n
  {
    if avgs != [] {
      SteadyBlocks(avgs[..|avgs| - 1], n, minDelta);
    }
  }

  /** On a steady climb from a fresh state there is exactly one alert per N averages. */
  lemma {:induction false} SteadyClimbAlerts(avgs: seq<real>, n: nat, minDelta: real)
    requires n >= 2 && Steady(avgs, n, minDelta)
    ensures |Alerts(avgs, n, minDelta)| == |avgs| / n
  {
    SteadyBlocks(avgs, n, minDelta);
    TimesIsProduct(|Alerts(avgs, n, minDelta)|, n);
    ExactQuotient(|Alerts(avgs, n, minDelta)|, n, |avgs|);
  }

  /** A setting below two windows never alerts: a rise needs two samples. */
  lemma {:induction false} TooFewWindowsNeverAlert(avgs: seq<real>, n: int, minDelta: real)
    requires n < 2
    ensures Alerts(avgs, n, minDelta) == []
  {
    if avgs != [] {
      TooFewWindowsNeverAlert(avgs[..|avgs| - 1], n, minDelta);
    }
  }
}
