/** Each number of a blob, told by the readings of its window alone. */
module BlobStatistics {
  import opened Sequences
  import opened Statistics
  import opened ConfigOperators
  import opened WindowOperator
  import opened GeoAggregation
  import opened AggregationPipeline

  predicate Any(e: Reading) {
    true
  }

  function LatitudeOf(e: Reading): real {
    e.latitude
  }

  function LongitudeOf(e: Reading): real {
    e.longitude
  }

  /** Null without members, and otherwise their exact mean, rounded. */
  ghost predicate IsRoundedMean(members: Reading -> bool, x: Reading -> real, events: seq<Reading>, round: real -> real,
                                mean: Option<real>) {
    var n := |Filter(members, events)|;
    && (mean.None? <==> n == 0)
    && (mean.Some? ==> exists exact :: mean.value == round(exact) && Scale(exact, n) == Total(x, events))
  }

  lemma MeanOfIs(members: Reading -> bool, x: Reading -> real, events: seq<Reading>, round: real -> real, xs: seq<real>)
    requires |xs| == |Filter(members, events)| && Sum(xs) == Total(x, events)
    ensures IsRoundedMean(members, x, events, round, MeanOf(xs, round))
  {
    if xs != [] {
      MeanIsMean(xs);
      assert MeanOf(xs, round).value == round(Mean(xs));
    }
  }

  lemma {:induction false} AnyKeepsAll(events: seq<Reading>)
    ensures Filter(Any, events) == events
  {
    if events != [] {
      AnyKeepsAll(events[..|events| - 1]);
    }
  }

  lemma CpmMeanIs(events: seq<Reading>, round: real -> real)
    ensures IsRoundedMean(HasCpm, CpmOrZero, events, round, MeanOf(Cpms(events), round))
  {
    SumOfCpms(events);
    MeanOfIs(HasCpm, CpmOrZero, events, round, Cpms(events));
  }

  lemma {:induction false} TotalsAgree(f: Reading -> real, g: Reading -> real, events: seq<Reading>)
    requires forall e :: f(e) == g(e)
    ensures Total(f, events) == Total(g, events)
  {
    if events != [] {
      TotalsAgree(f, g, events[..|events| - 1]);
    }
  }

  lemma CentroidIs(events: seq<Reading>, round: real -> real)
    ensures IsRoundedMean(Any, LatitudeOf, events, round, MeanOf(Latitudes(events), round))
    ensures IsRoundedMean(Any, LongitudeOf, events, round, MeanOf(Longitudes(events), round))
  {
    AnyKeepsAll(events);
    SumOfPlaces(events);
    TotalsAgree((e: Reading) => e.latitude, LatitudeOf, events);
    TotalsAgree((e: Reading) => e.longitude, LongitudeOf, events);
    MeanOfIs(Any, LatitudeOf, events, round, Latitudes(events));
    MeanOfIs(Any, LongitudeOf, events, round, Longitudes(events));
  }

  /** The greatest and the least CPM among the readings that have one. */
  ghost predicate AreExtremes(events: seq<Reading>, most: Option<real>, least: Option<real>) {
    && (forall e :: e in events && e.cpm.Some? ==> most.Some? && least.Some? && least.value <= e.cpm.value <= most.value)
    && (most.Some? ==> exists e :: e in events && e.cpm == most)
    && (least.Some? ==> exists e :: e in events && e.cpm == least)
  }

  lemma ExtremesAre(events: seq<Reading>)
    ensures AreExtremes(events, Peak(Cpms(events)), Lowest(Cpms(events)))
  {
    var most, least := Peak(Cpms(events)), Lowest(Cpms(events));
    forall e | e in events && e.cpm.Some? ensures most.Some? && least.Some? && least.value <= e.cpm.value <= most.value {
      CpmMembers(events, e.cpm.value);
    }
    if most.Some? {
      CpmMembers(events, most.value);
      CpmMembers(events, least.value);
    }
  }

  ghost predicate Holds(events: seq<Reading>, c: Class) {
    exists i :: 0 <= i < |events| && events[i].classification == Some(c)
  }

  /** The worst class present: one DANGER reading is enough, then one WARN. */
  lemma WorstIs(events: seq<Reading>)
    ensures WorstClassification(events)
            == if Holds(events, DANGER) then Some(DANGER) else if Holds(events, WARN) then Some(WARN)
               else if Holds(events, SAFE) then Some(SAFE) else None
  {
    PresentIff(events, DANGER);
    PresentIff(events, WARN);
    PresentIff(events, SAFE);
  }

  lemma PresentIff(events: seq<Reading>, c: Class)
    ensures GeoAggregation.Present(events, c) <==> Holds(events, c)
  {
  }

  /** A blob, number by number. */
  lemma BlobIs(events: seq<Reading>, geohash: string, precision: nat, windowStart: int, windowEnd: int,
               round4: real -> real, round6: real -> real)
    ensures var b := BlobOf(events, geohash, precision, windowStart, windowEnd, round4, round6);
            && b.geohash == geohash && b.precision == precision && b.windowStart == windowStart && b.windowEnd == windowEnd
            && b.count == |events| && IsRoundedMean(HasCpm, CpmOrZero, events, round4, b.cpmAvg)
            && AreExtremes(events, b.cpmMax, b.cpmMin)
            && b.safe == |Filter((e: Reading) => e.classification == Some(SAFE), events)|
            && b.warn == |Filter((e: Reading) => e.classification == Some(WARN), events)|
            && b.danger == |Filter((e: Reading) => e.classification == Some(DANGER), events)|
            && b.worst == (if Holds(events, DANGER) then Some(DANGER) else if Holds(events, WARN) then Some(WARN)
                           else if Holds(events, SAFE) then Some(SAFE) else None)
            && IsRoundedMean(Any, LatitudeOf, events, round6, b.centroidLatitude)
            && IsRoundedMean(Any, LongitudeOf, events, round6, b.centroidLongitude)
  {
    CpmMeanIs(events, round4);
    ExtremesAre(events);
    CountClassIsFilter(events, SAFE);
    CountClassIsFilter(events, WARN);
    CountClassIsFilter(events, DANGER);
    WorstIs(events);
    CentroidIs(events, round6);
  }
}
