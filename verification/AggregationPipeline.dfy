/** The aggregation branch of one cell end to end: windows, blobs, rolling statistics and trends. */
module AggregationPipeline {
  import opened Sequences
  import opened Statistics
  import opened ConfigOperators
  import opened EventTimeWindows
  import opened WindowOperator
  import opened GeoAggregation
  import TrendDetector
  import RollingStats

  /** `f` summed over the readings. */
  function Total(f: Reading -> real, xs: seq<Reading>): real {
    if xs == [] then 0.0 else Total(f, xs[..|xs| - 1]) + f(xs[|xs| - 1])
  }

  /** The readings without one occurrence of `x`. */
  function Remove(xs: seq<Reading>, x: Reading): seq<Reading>
    requires x in xs
  {
    var init, last := xs[..|xs| - 1], xs[|xs| - 1];
    if last == x then init else Remove(init, x) + [last]
  }

  lemma {:induction false} RemoveTakesOne(f: Reading -> real, xs: seq<Reading>, x: Reading)
    requires x in xs
    ensures multiset(xs) == multiset(Remove(xs, x)) + multiset{x}
    ensures Total(f, xs) == Total(f, Remove(xs, x)) + f(x)
  {
    var init, last := xs[..|xs| - 1], xs[|xs| - 1];
    assert xs == init + [last];
    if last != x {
      RemoveTakesOne(f, init, x);
      var rest := Remove(init, x);
      assert (rest + [last])[..|rest|] == rest;
    }
  }

  lemma CancelOne(a: multiset<Reading>, b: multiset<Reading>, x: Reading)
    requires a + multiset{x} == b + multiset{x}
    ensures a == b
  {
    assert a == (a + multiset{x}) - multiset{x};
    assert b == (b + multiset{x}) - multiset{x};
  }

  /** A sum does not depend on the order of its terms. */
  lemma {:induction false} TotalPermutes(f: Reading -> real, xs: seq<Reading>, ys: seq<Reading>)
    requires multiset(xs) == multiset(ys)
    ensures Total(f, xs) == Total(f, ys)
    decreases |xs|
  {
    SameMembers(xs, ys);
    if xs != [] {
      var init, last := xs[..|xs| - 1], xs[|xs| - 1];
      assert xs == init + [last];
      assert last in multiset(ys);
      RemoveTakesOne(f, ys, last);
      CancelOne(multiset(init), multiset(Remove(ys, last)), last);
      TotalPermutes(f, init, Remove(ys, last));
    }
  }

  function CpmOrZero(e: Reading): real {
    if e.cpm.Some? then e.cpm.value else 0.0
  }

  predicate HasCpm(e: Reading) {
    e.cpm.Some?
  }

  lemma {:induction false} SumOfCpms(events: seq<Reading>)
    ensures Sum(Cpms(events)) == Total(CpmOrZero, events)
    ensures |Cpms(events)| == |Filter(HasCpm, events)|
  {
    if events != [] {
      var before, last := Cpms(events[..|events| - 1]), events[|events| - 1];
      SumOfCpms(events[..|events| - 1]);
      if last.cpm.Some? {
        assert (before + [last.cpm.value])[..|before|] == before;
      }
    }
  }

  lemma {:induction false} SumOfPlaces(events: seq<Reading>)
    ensures Sum(Latitudes(events)) == Total((e: Reading) => e.latitude, events)
    ensures Sum(Longitudes(events)) == Total((e: Reading) => e.longitude, events)
  {
    if events != [] {
      var init := events[..|events| - 1];
      SumOfPlaces(init);
      assert Latitudes(events)[..|init|] == Latitudes(init);
      assert Longitudes(events)[..|init|] == Longitudes(init);
    }
  }

  lemma {:induction false} CpmMembers(events: seq<Reading>, x: real)
    ensures x in Cpms(events) <==> exists e :: e in events && e.cpm == Some(x)
  {
    if events != [] {
      var init, last := events[..|events| - 1], events[|events| - 1];
      CpmMembers(init, x);
      assert events == init + [last];
      if last.cpm == Some(x) {
        assert last in events;
      }
    }
  }

  lemma SameMean(a: seq<real>, b: seq<real>, round: real -> real)
    requires |a| == |b| && Sum(a) == Sum(b)
    ensures MeanOf(a, round) == MeanOf(b, round)
  {
  }

  lemma SameExtremes(a: seq<real>, b: seq<real>)
    requires |a| == |b| && forall x :: x in a <==> x in b
    ensures Peak(a) == Peak(b) && Lowest(a) == Lowest(b)
  {
    if a != [] {
      assert Peak(a).value in b && Peak(b).value in a;
      assert Lowest(a).value in b && Lowest(b).value in a;
    }
  }

  lemma SameCounts(xs: seq<Reading>, ys: seq<Reading>, c: Class)
    requires multiset(xs) == multiset(ys)
    ensures CountClass(xs, c) == CountClass(ys, c)
  {
    var p := (e: Reading) => e.classification == Some(c);
    CountClassIsFilter(xs, c);
    CountClassIsFilter(ys, c);
    FilterMultiset(p, xs, ys);
    SameMembers(Filter(p, xs), Filter(p, ys));
  }

  lemma SameWorst(xs: seq<Reading>, ys: seq<Reading>)
    requires multiset(xs) == multiset(ys)
    ensures WorstClassification(xs) == WorstClassification(ys)
  {
    SameMembers(xs, ys);
    assert GeoAggregation.Present(xs, SAFE) == GeoAggregation.Present(ys, SAFE);
    assert GeoAggregation.Present(xs, WARN) == GeoAggregation.Present(ys, WARN);
    assert GeoAggregation.Present(xs, DANGER) == GeoAggregation.Present(ys, DANGER);
  }

  lemma SameCpms(xs: seq<Reading>, ys: seq<Reading>)
    requires multiset(xs) == multiset(ys)
    ensures |Cpms(xs)| == |Cpms(ys)| && Sum(Cpms(xs)) == Sum(Cpms(ys))
    ensures forall x :: x in Cpms(xs) <==> x in Cpms(ys)
  {
    SumOfCpms(xs);
    SumOfCpms(ys);
    TotalPermutes(CpmOrZero, xs, ys);
    FilterMultiset(HasCpm, xs, ys);
    SameMembers(Filter(HasCpm, xs), Filter(HasCpm, ys));
    SameMembers(xs, ys);
    forall x ensures x in Cpms(xs) <==> x in Cpms(ys) {
      CpmMembers(xs, x);
      CpmMembers(ys, x);
    }
  }

  lemma SamePlaces(xs: seq<Reading>, ys: seq<Reading>, round: real -> real)
    requires multiset(xs) == multiset(ys)
    ensures MeanOf(Latitudes(xs), round) == MeanOf(Latitudes(ys), round)
    ensures MeanOf(Longitudes(xs), round) == MeanOf(Longitudes(ys), round)
  {
    SumOfPlaces(xs);
    SumOfPlaces(ys);
    TotalPermutes((e: Reading) => e.latitude, xs, ys);
    TotalPermutes((e: Reading) => e.longitude, xs, ys);
    SameMembers(xs, ys);
    SameMean(Latitudes(xs), Latitudes(ys), round);
    SameMean(Longitudes(xs), Longitudes(ys), round);
  }

  /** A blob does not depend on the order of its events, in any of its statistics. */
  lemma BlobIgnoresOrder(xs: seq<Reading>, ys: seq<Reading>, geohash: string, precision: nat, start: int, end: int,
                         round4: real -> real, round6: real -> real)
    requires multiset(xs) == multiset(ys)
    ensures BlobOf(xs, geohash, precision, start, end, round4, round6) == BlobOf(ys, geohash, precision, start, end, round4, round6)
  {
    SameMembers(xs, ys);
    assert MeanOf(Cpms(xs), round4) == MeanOf(Cpms(ys), round4) && Peak(Cpms(xs)) == Peak(Cpms(ys))
        && Lowest(Cpms(xs)) == Lowest(Cpms(ys)) by {
      SameCpms(xs, ys);
      SameMean(Cpms(xs), Cpms(ys), round4);
      SameExtremes(Cpms(xs), Cpms(ys));
    }
    SameCounts(xs, ys, SAFE);
    SameCounts(xs, ys, WARN);
    SameCounts(xs, ys, DANGER);
    SameWorst(xs, ys);
    SamePlaces(xs, ys, round6);
  }

  // ---------------------------------------------------------------- the stream of blobs

  /** The blob of one fired window; the precision is the length of the geohash. */
  function BlobOfFiring(f: Firing, geohash: string, size: int, round4: real -> real, round6: real -> real): Blob {
    BlobOf(f.elements, geohash, |geohash|, f.start, f.start + size, round4, round6)
  }

  /** The blobs of a cell's fired windows, in order. */
  function Blobs(firings: seq<Firing>, geohash: string, size: int, round4: real -> real, round6: real -> real): seq<Blob> {
    if firings == [] then []
    else
      Blobs(firings[..|firings| - 1], geohash, size, round4, round6)
      + [BlobOfFiring(firings[|firings| - 1], geohash, size, round4, round6)]
  }

  predicate SameFiring(f: Firing, h: Firing) {
    f.start == h.start && multiset(f.elements) == multiset(h.elements)
  }

  lemma PrefixUpToOrder(a: seq<Firing>, b: seq<Firing>)
    requires SameUpToOrder(a, b) && a != []
    ensures |b| == |a| && SameUpToOrder(a[..|a| - 1], b[..|b| - 1]) && SameFiring(a[|a| - 1], b[|b| - 1])
  {
  }

  lemma FiringIgnoresOrder(f: Firing, h: Firing, geohash: string, size: int, round4: real -> real, round6: real -> real)
    requires SameFiring(f, h)
    ensures BlobOfFiring(f, geohash, size, round4, round6) == BlobOfFiring(h, geohash, size, round4, round6)
  {
    BlobIgnoresOrder(f.elements, h.elements, geohash, |geohash|, f.start, f.start + size, round4, round6);
  }

  lemma {:induction false} BlobsIgnoreOrder(a: seq<Firing>, b: seq<Firing>, geohash: string, size: int,
                                            round4: real -> real, round6: real -> real)
    requires SameUpToOrder(a, b)
    ensures Blobs(a, geohash, size, round4, round6) == Blobs(b, geohash, size, round4, round6)
  {
    if a != [] {
      PrefixUpToOrder(a, b);
      BlobsIgnoreOrder(a[..|a| - 1], b[..|b| - 1], geohash, size, round4, round6);
      FiringIgnoresOrder(a[|a| - 1], b[|b| - 1], geohash, size, round4, round6);
    }
  }

  /** What the branch makes of one arrival order of a cell's events. */
  ghost function Branch(g: Geometry, ins: seq<Input>, geohash: string, round4: real -> real, round6: real -> real): seq<Blob>
    requires g.Valid()
  {
    Blobs(Result(g, ins), geohash, g.size, round4, round6)
  }

  /**
   End to end: two arrival orders of the same events, both within the bound, give the same blobs
   in the same order, and with them the same rolling statistics, anomalies and trend alerts.
   */
  lemma BranchIgnoresArrivalOrder(g: Geometry, one: seq<Input>, other: seq<Input>, geohash: string,
                                  round4: real -> real, round6: real -> real, sqrt: real -> real,
                                  windowCount: int, threshold: real, minWindows: int, minDelta: real)
    requires g.Valid() && Bounded(g, one) && Bounded(g, other) && multiset(Arrived(one)) == multiset(Arrived(other))
    ensures var a, b := Branch(g, one, geohash, round4, round6), Branch(g, other, geohash, round4, round6);
            && a == b
            && RollingStats.Outputs(a, [], windowCount, threshold, sqrt, round4)
               == RollingStats.Outputs(b, [], windowCount, threshold, sqrt, round4)
            && TrendDetector.Alerts(RollingStats.Averages(a), minWindows, minDelta)
               == TrendDetector.Alerts(RollingStats.Averages(b), minWindows, minDelta)
  {
    ArrivalOrderIrrelevant(g, one, other);
    BlobsIgnoreOrder(Result(g, one), Result(g, other), geohash, g.size, round4, round6);
  }

  /** And they are the blobs of the batch computation over all events of the cell. */
  lemma BranchEqualsBatch(g: Geometry, ins: seq<Input>, geohash: string, round4: real -> real, round6: real -> real)
    requires g.Valid() && Bounded(g, ins)
    ensures Branch(g, ins, geohash, round4, round6) == Blobs(Batch(g, Arrived(ins)), geohash, g.size, round4, round6)
  {
    StreamingEqualsBatch(g, ins);
  }

  lemma {:induction false} BlobAt(firings: seq<Firing>, geohash: string, size: int, round4: real -> real, round6: real -> real, i: nat)
    requires i < |firings|
    ensures var blobs := Blobs(firings, geohash, size, round4, round6);
            && |blobs| == |firings|
            && blobs[i] == BlobOf(firings[i].elements, geohash, |geohash|, firings[i].start, firings[i].start + size, round4, round6)
  {
    var init := firings[..|firings| - 1];
    if i < |init| {
      BlobAt(init, geohash, size, round4, round6, i);
    } else if init != [] {
      BlobAt(init, geohash, size, round4, round6, |init| - 1);
    }
  }

  /** Each blob is that of exactly the events of its window, none of them late. */
  lemma BlobsSummarizeTheirWindows(g: Geometry, ins: seq<Input>, geohash: string, round4: real -> real, round6: real -> real, i: nat)
    requires g.Valid() && Bounded(g, ins) && i < |Result(g, ins)|
    ensures var blobs := Branch(g, ins, geohash, round4, round6);
            && |blobs| == |Result(g, ins)|
            && var start := blobs[i].windowStart;
               blobs[i] == BlobOf(Filter(InWindowOf(g, start), Arrived(ins)), geohash, |geohash|, start, start + g.size, round4, round6)
  {
    var fired := Result(g, ins);
    BlobAt(fired, geohash, g.size, round4, round6, i);
    StreamingEqualsBatch(g, ins);
    BatchIs(g, Arrived(ins));
    assert fired[i] in Batch(g, Arrived(ins));
  }
}
