/** One geohash cell's events in one window reduced to a blob of statistics. */
module GeoAggregation {
  import opened Sequences
  import opened Statistics
  import opened ConfigOperators
  import opened WindowOperator

  datatype Blob = Blob(
    geohash: string, precision: nat, windowStart: int, windowEnd: int,
    count: nat, cpmAvg: Option<real>, cpmMax: Option<real>, cpmMin: Option<real>,
    safe: nat, warn: nat, danger: nat, worst: Option<Class>,
    centroidLatitude: Option<real>, centroidLongitude: Option<real>)

  /** Four decimals of rounding move an average by at most this. */
  const AVG_ROUNDING: real := 0.00005

  function Cpms(events: seq<Reading>): seq<real> {
    if events == [] then []
    else
      var rest, last := Cpms(events[..|events| - 1]), events[|events| - 1];
      if last.cpm.Some? then rest + [last.cpm.value] else rest
  }

  function CountClass(events: seq<Reading>, c: Class): nat {
    if events == [] then 0
    else CountClass(events[..|events| - 1], c) + if events[|events| - 1].classification == Some(c) then 1 else 0
  }

  predicate Present(events: seq<Reading>, c: Class) {
    exists e :: e in events && e.classification == Some(c)
  }

  /** DANGER > WARN > SAFE, or None when no event carries a class. */
  function WorstClassification(events: seq<Reading>): (worst: Option<Class>)
    ensures worst.None? <==> forall e :: e in events ==> e.classification.None?
    ensures worst.Some? ==> Present(events, worst.value)
    ensures worst.Some? ==> forall e :: e in events && e.classification.Some? ==> Severity(e.classification.value) <= Severity(worst.value)
  {
    if Present(events, DANGER) then Some(DANGER)
    else if Present(events, WARN) then Some(WARN)
    else if Present(events, SAFE) then Some(SAFE)
    else
      NothingPresent(events);
      None
  }

  lemma NothingPresent(events: seq<Reading>)
    requires !Present(events, DANGER) && !Present(events, WARN) && !Present(events, SAFE)
    ensures forall e :: e in events ==> e.classification.None?
  {
    forall e | e in events ensures e.classification.None? {
      if e.classification.Some? {
        var c := e.classification.value;
        assert c == SAFE || c == WARN || c == DANGER;
        ItsClassIsPresent(events, e);
      }
    }
  }

  lemma ItsClassIsPresent(events: seq<Reading>, e: Reading)
    requires e in events && e.classification.Some?
    ensures Present(events, e.classification.value)
  {
  }

  function Latitudes(events: seq<Reading>): seq<real> {
    seq(|events|, i requires 0 <= i < |events| => events[i].latitude)
  }

  function Longitudes(events: seq<Reading>): seq<real> {
    seq(|events|, i requires 0 <= i < |events| => events[i].longitude)
  }

  function MeanOf(xs: seq<real>, round: real -> real): Option<real> {
    if xs == [] then None else Some(round(Mean(xs)))
  }

  ghost predicate IsPeak(xs: seq<real>, peak: Option<real>) {
    if xs == [] then peak.None? else peak.Some? && peak.value in xs && forall x :: x in xs ==> x <= peak.value
  }

  ghost predicate IsLowest(xs: seq<real>, lowest: Option<real>) {
    if xs == [] then lowest.None? else lowest.Some? && lowest.value in xs && forall x :: x in xs ==> lowest.value <= x
  }

  function Peak(xs: seq<real>): (peak: Option<real>)
    ensures IsPeak(xs, peak)
  {
    if xs == [] then None
    else
      var init, last := Peak(xs[..|xs| - 1]), xs[|xs| - 1];
      assert xs == xs[..|xs| - 1] + [last];
      if init.None? || last > init.value then Some(last) else init
  }

  function Lowest(xs: seq<real>): (lowest: Option<real>)
    ensures IsLowest(xs, lowest)
  {
    if xs == [] then None
    else
      var init, last := Lowest(xs[..|xs| - 1]), xs[|xs| - 1];
      assert xs == xs[..|xs| - 1] + [last];
      if init.None? || last < init.value then Some(last) else init
  }

  /** The blob of a cell's events in one window. */
  function BlobOf(events: seq<Reading>, geohash: string, precision: nat, windowStart: int, windowEnd: int,
                  round4: real -> real, round6: real -> real): Blob {
    Blob(geohash, precision, windowStart, windowEnd,
         |events|, MeanOf(Cpms(events), round4), Peak(Cpms(events)), Lowest(Cpms(events)),
         CountClass(events, SAFE), CountClass(events, WARN), CountClass(events, DANGER), WorstClassification(events),
         MeanOf(Latitudes(events), round6), MeanOf(Longitudes(events), round6))
  }

  method Extremes(xs: seq<real>) returns (peak: Option<real>, lowest: Option<real>)
    ensures IsPeak(xs, peak) && IsLowest(xs, lowest)
    ensures peak == Peak(xs) && lowest == Lowest(xs)
  {
    peak, lowest := None, None;
    for i := 0 to |xs|
      invariant IsPeak(xs[..i], peak) && IsLowest(xs[..i], lowest)
    {
      assert xs[..i + 1] == xs[..i] + [xs[i]];
      if peak.None? || xs[i] > peak.value {
        peak := Some(xs[i]);
      }
      if lowest.None? || xs[i] < lowest.value {
        lowest := Some(xs[i]);
      }
    }
    assert xs[..|xs|] == xs;
  }

  /** `aggregate_bucket`; `round4` and `round6` are the rounding of averages and centroids. */
  method AggregateBucket(events: seq<Reading>, geohash: string, precision: nat, windowStart: int, windowEnd: int,
                         round4: real -> real, round6: real -> real) returns (blob: Blob)
    ensures blob.geohash == geohash && blob.precision == precision
    ensures blob.windowStart == windowStart && blob.windowEnd == windowEnd
    ensures blob.count == |events| && blob.cpmAvg == MeanOf(Cpms(events), round4)
    ensures IsPeak(Cpms(events), blob.cpmMax) && IsLowest(Cpms(events), blob.cpmMin)
    ensures blob.safe == CountClass(events, SAFE) && blob.warn == CountClass(events, WARN) && blob.danger == CountClass(events, DANGER)
    ensures blob.worst == WorstClassification(events)
    ensures blob == BlobOf(events, geohash, precision, windowStart, windowEnd, round4, round6)
    ensures blob.centroidLatitude == MeanOf(Latitudes(events), round6) && blob.centroidLongitude == MeanOf(Longitudes(events), round6)
  {
    var cpms := Cpms(events);
    var safe, warn, danger := 0, 0, 0;
    for i := 0 to |events|
      invariant safe == CountClass(events[..i], SAFE)
      invariant warn == CountClass(events[..i], WARN)
      invariant danger == CountClass(events[..i], DANGER)
    {
      assert events[..i + 1][..i] == events[..i];
      match events[i].classification
      case Some(SAFE) => safe := safe + 1;
      case Some(WARN) => warn := warn + 1;
      case Some(DANGER) => danger := danger + 1;
      case None =>
    }
    assert events[..|events|] == events;
    var peak, lowest := Extremes(cpms);
    blob := Blob(geohash, precision, windowStart, windowEnd, |events|, MeanOf(cpms, round4), peak, lowest,
                 safe, warn, danger, WorstClassification(events),
                 MeanOf(Latitudes(events), round6), MeanOf(Longitudes(events), round6));
  }

  // ---------------------------------------------------------------- counts add up

  function Flatten(groups: seq<seq<Reading>>): seq<Reading> {
    if groups == [] then [] else Flatten(groups[..|groups| - 1]) + groups[|groups| - 1]
  }

  function TotalCount(groups: seq<seq<Reading>>): nat {
    if groups == [] then 0 else TotalCount(groups[..|groups| - 1]) + |groups[|groups| - 1]|
  }

  function TotalClass(groups: seq<seq<Reading>>, c: Class): nat {
    if groups == [] then 0 else TotalClass(groups[..|groups| - 1], c) + CountClass(groups[|groups| - 1], c)
  }

  lemma {:induction false} CountClassConcat(a: seq<Reading>, b: seq<Reading>, c: Class)
    ensures CountClass(a + b, c) == CountClass(a, c) + CountClass(b, c)
  {
    if b == [] {
      assert a + b == a;
    } else {
      assert (a + b)[..|a + b| - 1] == a + b[..|b| - 1];
      CountClassConcat(a, b[..|b| - 1], c);
    }
  }

  lemma {:induction false} CountsOfFlatten(groups: seq<seq<Reading>>, c: Class)
    ensures TotalCount(groups) == |Flatten(groups)| && TotalClass(groups, c) == CountClass(Flatten(groups), c)
  {
    if groups != [] {
      CountsOfFlatten(groups[..|groups| - 1], c);
      CountClassConcat(Flatten(groups[..|groups| - 1]), groups[|groups| - 1], c);
    }
  }

  lemma {:induction false} CountClassIsFilter(events: seq<Reading>, c: Class)
    ensures CountClass(events, c) == |Filter((e: Reading) => e.classification == Some(c), events)|
  {
    if events != [] {
      CountClassIsFilter(events[..|events| - 1], c);
    }
  }

  /** Counts and per-class counts add up over any partition of the events into cells and windows. */
  lemma CountsAddUp(events: seq<Reading>, groups: seq<seq<Reading>>, c: Class)
    requires multiset(Flatten(groups)) == multiset(events)
    ensures TotalCount(groups) == |events| && TotalClass(groups, c) == CountClass(events, c)
  {
    var p := (e: Reading) => e.classification == Some(c);
    CountsOfFlatten(groups, c);
    CountClassIsFilter(Flatten(groups), c);
    CountClassIsFilter(events, c);
    FilterMultiset(p, Flatten(groups), events);
    assert |multiset(Flatten(groups))| == |multiset(events)|;
    assert |multiset(Filter(p, Flatten(groups)))| == |multiset(Filter(p, events))|;
  }

  // ---------------------------------------------------------------- the mean of means

  /** What the archive keeps of a blob for the count-weighted mean. */
  datatype Cell = Cell(avg: Option<real>, count: nat)

  /** `sum(cpm_avg * count)`: a null average adds nothing, though its count may be weighed in. */
  function WeightedSum(cells: seq<Cell>): real {
    if cells == [] then 0.0
    else
      var last := cells[|cells| - 1];
      WeightedSum(cells[..|cells| - 1]) + if last.avg.Some? then Scale(last.avg.value, last.count) else 0.0
  }

  function CountSum(cells: seq<Cell>): nat {
    if cells == [] then 0 else CountSum(cells[..|cells| - 1]) + cells[|cells| - 1].count
  }

  /** `sum(cpm_avg * count) / NULLIF(sum(count), 0)`, which is null when every average is. */
  function WeightedMean(cells: seq<Cell>): Option<real> {
    if CountSum(cells) == 0 || (forall i :: 0 <= i < |cells| ==> cells[i].avg.None?) then None
    else Some(WeightedSum(cells) / (CountSum(cells) as real))
  }

  ghost predicate NoNullCpm(events: seq<Reading>) {
    forall e :: e in events ==> e.cpm.Some?
  }

  /** The cells are the groups' statistics, each average within `eps` of the exact one. */
  ghost predicate Summarize(groups: seq<seq<Reading>>, cells: seq<Cell>, eps: real) {
    |groups| == |cells| &&
    (groups != [] ==>
       var events, cell := groups[|groups| - 1], cells[|cells| - 1];
       && NoNullCpm(events) && cell.count == |events|
       && cell.avg.Some? && CloseToMean(Cpms(events), cell.avg.value, eps)
       && Summarize(groups[..|groups| - 1], cells[..|cells| - 1], eps))
  }

  lemma {:induction false} CpmsConcat(a: seq<Reading>, b: seq<Reading>)
    ensures Cpms(a + b) == Cpms(a) + Cpms(b)
  {
    if b == [] {
      assert a + b == a;
    } else {
      assert (a + b)[..|a + b| - 1] == a + b[..|b| - 1];
      CpmsConcat(a, b[..|b| - 1]);
    }
  }

  lemma {:induction false} CpmsCount(events: seq<Reading>)
    requires NoNullCpm(events)
    ensures |Cpms(events)| == |events|
  {
    if events != [] {
      CpmsCount(events[..|events| - 1]);
    }
  }

  lemma CellClose(events: seq<Reading>, avg: real, eps: real)
    requires NoNullCpm(events) && CloseToMean(Cpms(events), avg, eps)
    ensures Abs(Scale(avg, |events|) - Sum(Cpms(events))) <= Scale(eps, |events|) && events != []
  {
    CpmsCount(events);
    var m :| IsMean(Cpms(events), m) && Abs(avg - m) <= eps;
    ScaledClose(avg, m, |events|, eps);
  }

  function GroupSums(groups: seq<seq<Reading>>): real {
    if groups == [] then 0.0 else GroupSums(groups[..|groups| - 1]) + Sum(Cpms(groups[|groups| - 1]))
  }

  lemma {:induction false} FlattenSums(groups: seq<seq<Reading>>)
    ensures Sum(Cpms(Flatten(groups))) == GroupSums(groups)
  {
    if groups != [] {
      var init, events := groups[..|groups| - 1], groups[|groups| - 1];
      FlattenSums(init);
      CpmsConcat(Flatten(init), events);
      SumConcat(Cpms(Flatten(init)), Cpms(events));
    }
  }

  lemma {:induction false} SummarizedCounts(groups: seq<seq<Reading>>, cells: seq<Cell>, eps: real)
    requires Summarize(groups, cells, eps)
    ensures CountSum(cells) == |Cpms(Flatten(groups))| && (groups != [] ==> CountSum(cells) > 0)
  {
    if groups != [] {
      var init, events := groups[..|groups| - 1], groups[|groups| - 1];
      SummarizedCounts(init, cells[..|cells| - 1], eps);
      CpmsConcat(Flatten(init), events);
      CpmsCount(events);
    }
  }

  lemma {:induction false} SumsClose(groups: seq<seq<Reading>>, cells: seq<Cell>, eps: real)
    requires Summarize(groups, cells, eps)
    ensures Abs(WeightedSum(cells) - GroupSums(groups)) <= Scale(eps, CountSum(cells))
  {
    if groups != [] {
      var front, events, cell := cells[..|cells| - 1], groups[|groups| - 1], cells[|cells| - 1];
      SumsClose(groups[..|groups| - 1], front, eps);
      CellClose(events, cell.avg.value, eps);
      ScaleSum(eps, CountSum(front), cell.count);
      Triangle(WeightedSum(front), GroupSums(groups[..|groups| - 1]), Scale(eps, CountSum(front)),
               Scale(cell.avg.value, cell.count), Sum(Cpms(events)), Scale(eps, cell.count));
    }
  }

  /**
   Mean of means: with no null CPM the count-weighted mean over any set of blobs is within
   the rounding of the mean of all underlying readings, and equal to it without rounding.
   */
  lemma MeanOfMeans(groups: seq<seq<Reading>>, cells: seq<Cell>, eps: real)
    requires groups != [] && Summarize(groups, cells, eps)
    ensures Cpms(Flatten(groups)) != [] && WeightedMean(cells).Some?
    ensures Abs(WeightedMean(cells).value - Mean(Cpms(Flatten(groups)))) <= eps
  {
    FlattenSums(groups);
    SummarizedCounts(groups, cells, eps);
    SumsClose(groups, cells, eps);
    assert cells[|cells| - 1].avg.Some?;
    QuotientScales(WeightedSum(cells), CountSum(cells));
    MeanIsMean(Cpms(Flatten(groups)));
    UnscaledClose(WeightedMean(cells).value, Mean(Cpms(Flatten(groups))), CountSum(cells), eps);
  }

  /** The blobs the aggregation makes are such summaries, with the rounding of averages. */
  lemma {:induction false} BlobsSummarize(groups: seq<seq<Reading>>, cells: seq<Cell>, round4: real -> real)
    requires |groups| == |cells| && RoundsWithin(round4, AVG_ROUNDING)
    requires forall i :: 0 <= i < |groups| ==>
               groups[i] != [] && NoNullCpm(groups[i]) && cells[i] == Cell(MeanOf(Cpms(groups[i]), round4), |groups[i]|)
    ensures Summarize(groups, cells, AVG_ROUNDING)
  {
    if groups != [] {
      var events := groups[|groups| - 1];
      CpmsCount(events);
      MeanIsMean(Cpms(events));
      BlobsSummarize(groups[..|groups| - 1], cells[..|cells| - 1], round4);
    }
  }

  /** A null CPM biases it: its event counts in the weight, but not in the average. */
  lemma NullCpmBiasesTheMean(one: Reading, absent: Reading, two: Reading)
    requires one.cpm == Some(10.0) && absent.cpm.None? && two.cpm == Some(40.0)
    ensures IsMean(Cpms([one, absent]), 10.0) && IsMean(Cpms([two]), 40.0) && IsMean(Cpms([one, absent, two]), 25.0)
    ensures WeightedMean([Cell(Some(10.0), |[one, absent]|), Cell(Some(40.0), |[two]|)]) == Some(20.0)
  {
    assert [one][..0] == [] && [two][..0] == [] && [one, absent][..1] == [one] && [one, absent, two][..2] == [one, absent];
    assert Cpms([one]) == [10.0];
    assert Cpms([one, absent]) == [10.0];
    assert [10.0][..0] == [] && [40.0][..0] == [] && [10.0, 40.0][..1] == [10.0];
    assert Sum([10.0]) == 10.0 && Sum([40.0]) == 40.0 && Sum([10.0, 40.0]) == 50.0;
    assert Scale(10.0, 1) == 10.0 && Scale(40.0, 1) == 40.0 && Scale(25.0, 2) == 50.0;
    TwoCells();
  }

  lemma TwoCells()
    ensures WeightedMean([Cell(Some(10.0), 2), Cell(Some(40.0), 1)]) == Some(20.0)
  {
    var a, b := Cell(Some(10.0), 2), Cell(Some(40.0), 1);
    assert [a, b][..1] == [a] && [a][..0] == [];
    assert Scale(10.0, 2) == 20.0 && Scale(40.0, 1) == 40.0;
    assert WeightedSum([a]) == 20.0 && CountSum([a]) == 2;
    assert WeightedSum([a, b]) == 60.0 && CountSum([a, b]) == 3;
    assert [a, b][0].avg.Some?;
  }
}
