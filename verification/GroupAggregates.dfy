/** What the archive's queries answer for a window or a cell, each as one total over the rows that pass. */
module GroupAggregates {
  import opened Sequences
  import opened Statistics
  import opened GeoAggregation
  import opened HistoryDb
  import opened HistoryInsights

  /** `n` added up over the rows in the group. */
  function Tally(group: ArchiveRow -> bool, n: ArchiveRow -> nat, rows: seq<ArchiveRow>): nat {
    if rows == [] then 0
    else
      var last := rows[|rows| - 1];
      Tally(group, n, rows[..|rows| - 1]) + if group(last) then n(last) else 0
  }

  /** The numbers among `x` added up over the rows in the group. */
  function Amount(group: ArchiveRow -> bool, x: ArchiveRow -> Option<real>, rows: seq<ArchiveRow>): real {
    if rows == [] then 0.0
    else
      var last := rows[|rows| - 1];
      Amount(group, x, rows[..|rows| - 1]) + if group(last) && x(last).Some? then x(last).value else 0.0
  }

  predicate InWindow(r: ArchiveRow, w: int) {
    r.windowStart == w
  }

  function Readings(r: ArchiveRow): nat {
    r.count
  }

  function Dangers(r: ArchiveRow): nat {
    if r.dangerCount.Some? then r.dangerCount.value else 0
  }

  function Flagged(r: ArchiveRow): nat {
    if r.anomaly == Some(true) then 1 else 0
  }

  function One(r: ArchiveRow): nat {
    1
  }

  /** The average weighed by the count. */
  function Weighed(r: ArchiveRow): Option<real> {
    if r.cpmAvg.Some? then Some(r.cpmAvg.value * (r.count as real)) else None
  }

  function Latitude(r: ArchiveRow): Option<real> {
    r.latitude
  }

  function Longitude(r: ArchiveRow): Option<real> {
    r.longitude
  }

  function Has(x: ArchiveRow -> Option<real>): ArchiveRow -> nat {
    (r: ArchiveRow) => if x(r).Some? then 1 else 0
  }

  /** Some row of the group has a number there. */
  predicate AnyIn(group: ArchiveRow -> bool, x: ArchiveRow -> Option<real>, rows: seq<ArchiveRow>) {
    exists r :: r in rows && group(r) && x(r).Some?
  }

  /** Null without numbers, and otherwise the number that, taken `n` times, is their sum. */
  ghost predicate IsQuotient(group: ArchiveRow -> bool, x: ArchiveRow -> Option<real>, n: nat, rows: seq<ArchiveRow>,
                             q: Option<real>) {
    && (q.Some? <==> n > 0 && AnyIn(group, x, rows))
    && (q.Some? ==> Scale(q.value, n) == Amount(group, x, rows))
  }

  /** The greatest of the peaks in the group, null without any. */
  ghost predicate IsPeakOf(group: ArchiveRow -> bool, rows: seq<ArchiveRow>, peak: Option<real>) {
    && (forall r :: r in rows && group(r) && r.cpmMax.Some? ==> peak.Some? && r.cpmMax.value <= peak.value)
    && (peak.Some? ==> exists r :: r in rows && group(r) && r.cpmMax == peak)
  }

  function Everything(): ArchiveRow -> bool {
    (r: ArchiveRow) => true
  }

  lemma {:induction false} TallyOfGroup(group: ArchiveRow -> bool, n: ArchiveRow -> nat, rows: seq<ArchiveRow>)
    ensures Tally(Everything(), n, Filter(group, rows)) == Tally(group, n, rows)
  {
    if rows != [] {
      var init := rows[..|rows| - 1];
      TallyOfGroup(group, n, init);
      assert (Filter(group, init) + [rows[|rows| - 1]])[..|Filter(group, init)|] == Filter(group, init);
    }
  }

  lemma {:induction false} AmountOfGroup(group: ArchiveRow -> bool, x: ArchiveRow -> Option<real>, rows: seq<ArchiveRow>)
    ensures Amount(Everything(), x, Filter(group, rows)) == Amount(group, x, rows)
  {
    if rows != [] {
      var init := rows[..|rows| - 1];
      AmountOfGroup(group, x, init);
      assert (Filter(group, init) + [rows[|rows| - 1]])[..|Filter(group, init)|] == Filter(group, init);
    }
  }

  lemma {:induction false} CountsAre(rows: seq<ArchiveRow>)
    ensures CountSum(Cells(rows)) == Tally(Everything(), Readings, rows)
    ensures Coalesce(SumDanger(rows), 0) == Tally(Everything(), Dangers, rows)
    ensures |rows| == Tally(Everything(), One, rows)
  {
    if rows != [] {
      CountsAre(rows[..|rows| - 1]);
      assert Cells(rows)[..|rows| - 1] == Cells(rows[..|rows| - 1]);
    }
  }

  lemma {:induction false} FlagsAre(rows: seq<ArchiveRow>)
    ensures Anomalies(rows) == Tally(Everything(), Flagged, rows)
  {
    if rows != [] {
      FlagsAre(rows[..|rows| - 1]);
    }
  }

  lemma {:induction false} WeightsAre(rows: seq<ArchiveRow>)
    ensures WeightedSum(Cells(rows)) == Amount(Everything(), Weighed, rows)
  {
    if rows != [] {
      var last := rows[|rows| - 1];
      WeightsAre(rows[..|rows| - 1]);
      assert Cells(rows)[..|rows| - 1] == Cells(rows[..|rows| - 1]);
      if last.cpmAvg.Some? {
        ScaleIsProduct(last.cpmAvg.value, last.count);
      }
    }
  }

  /** What SQL's `avg` averages. */
  function Present(x: ArchiveRow -> Option<real>, rows: seq<ArchiveRow>): seq<Option<real>> {
    Filter((v: Option<real>) => v.Some?, seq(|rows|, i requires 0 <= i < |rows| => x(rows[i])))
  }

  lemma PresentStep(x: ArchiveRow -> Option<real>, rows: seq<ArchiveRow>)
    requires rows != []
    ensures var init, last := Present(x, rows[..|rows| - 1]), x(rows[|rows| - 1]);
            Present(x, rows) == if last.Some? then init + [last] else init
  {
    var n := |rows| - 1;
    var all := seq(|rows|, i requires 0 <= i < |rows| => x(rows[i]));
    assert all[..n] == seq(n, i requires 0 <= i < n => x(rows[..n][i]));
  }

  lemma {:induction false} PresentAre(x: ArchiveRow -> Option<real>, rows: seq<ArchiveRow>)
    ensures |Present(x, rows)| == Tally(Everything(), Has(x), rows)
    ensures Sum(Values(Present(x, rows))) == Amount(Everything(), x, rows)
  {
    if rows != [] {
      var init := Present(x, rows[..|rows| - 1]);
      PresentAre(x, rows[..|rows| - 1]);
      PresentStep(x, rows);
      assert Values(Present(x, rows))[..|init|] == Values(init);
    }
  }

  lemma {:induction false} SomePresent(group: ArchiveRow -> bool, x: ArchiveRow -> Option<real>, rows: seq<ArchiveRow>)
    ensures Tally(group, Has(x), rows) > 0 <==> AnyIn(group, x, rows)
  {
    if rows != [] {
      var init, last := rows[..|rows| - 1], rows[|rows| - 1];
      SomePresent(group, x, init);
      assert rows == init + [last];
      if group(last) && x(last).Some? {
        assert last in rows;
      }
    }
  }

  /** SQL's average over a group. */
  lemma AverageIs(group: ArchiveRow -> bool, x: ArchiveRow -> Option<real>, rows: seq<ArchiveRow>, xs: seq<Option<real>>)
    requires var mine := Filter(group, rows); |xs| == |mine| && forall i :: 0 <= i < |mine| ==> xs[i] == x(mine[i])
    ensures IsQuotient(group, x, Tally(group, Has(x), rows), rows, Average(xs))
  {
    var mine := Filter(group, rows);
    assert xs == seq(|mine|, i requires 0 <= i < |mine| => x(mine[i]));
    PresentAre(x, mine);
    TallyOfGroup(group, Has(x), rows);
    AmountOfGroup(group, x, rows);
    SomePresent(group, x, rows);
    var values := Values(Present(x, mine));
    if values != [] {
      QuotientScales(Sum(values), |values|);
    }
  }

  /** The count-weighted mean over a group. */
  lemma WeightedMeanIs(group: ArchiveRow -> bool, rows: seq<ArchiveRow>)
    ensures IsQuotient(group, Weighed, Tally(group, Readings, rows), rows, WeightedMean(Cells(Filter(group, rows))))
  {
    var mine := Filter(group, rows);
    assert CountSum(Cells(mine)) == Tally(group, Readings, rows) by {
      CountsAre(mine);
      TallyOfGroup(group, Readings, rows);
    }
    assert WeightedSum(Cells(mine)) == Amount(group, Weighed, rows) by {
      WeightsAre(mine);
      AmountOfGroup(group, Weighed, rows);
    }
    HasAverage(group, rows);
    WeightedMeanOf(Cells(mine));
  }

  predicate AnyAverage(cells: seq<Cell>) {
    exists i :: 0 <= i < |cells| && cells[i].avg.Some?
  }

  lemma WeightedMeanOf(cells: seq<Cell>)
    ensures var mean := WeightedMean(cells);
            && (mean.Some? <==> CountSum(cells) > 0 && AnyAverage(cells))
            && (mean.Some? ==> Scale(mean.value, CountSum(cells)) == WeightedSum(cells))
  {
    if CountSum(cells) > 0 {
      QuotientScales(WeightedSum(cells), CountSum(cells));
    }
  }

  lemma HasAverage(group: ArchiveRow -> bool, rows: seq<ArchiveRow>)
    ensures AnyIn(group, Weighed, rows) <==> AnyAverage(Cells(Filter(group, rows)))
  {
    var mine := Filter(group, rows);
    FilterMembers(group, rows);
    if AnyIn(group, Weighed, rows) {
      var r :| r in rows && group(r) && Weighed(r).Some?;
      assert r in mine;
      var i :| 0 <= i < |mine| && mine[i] == r;
      assert Cells(mine)[i].avg.Some?;
    }
    if i :| 0 <= i < |mine| && Cells(mine)[i].avg.Some? {
      assert mine[i] in mine && Weighed(mine[i]).Some?;
    }
  }

  lemma MaxIs(group: ArchiveRow -> bool, rows: seq<ArchiveRow>)
    ensures IsPeakOf(group, rows, MaxCpm(Filter(group, rows)))
  {
    FilterMembers(group, rows);
    var mine := Filter(group, rows);
    var peak := MaxCpm(mine);
    if peak.Some? {
      var i :| 0 <= i < |mine| && mine[i].cpmMax == peak;
      assert mine[i] in mine;
    }
    forall r | r in rows && group(r) && r.cpmMax.Some? ensures peak.Some? && r.cpmMax.value <= peak.value {
      var i :| 0 <= i < |mine| && mine[i] == r;
    }
  }

  /** The rows of a group: how many, with how many readings, danger readings and anomalies. */
  lemma TalliesAre(group: ArchiveRow -> bool, rows: seq<ArchiveRow>)
    ensures var mine := Filter(group, rows);
            && |mine| == Tally(group, One, rows) && CountSum(Cells(mine)) == Tally(group, Readings, rows)
            && Coalesce(SumDanger(mine), 0) == Tally(group, Dangers, rows) && Anomalies(mine) == Tally(group, Flagged, rows)
  {
    CountsAre(Filter(group, rows));
    FlagsAre(Filter(group, rows));
    TallyOfGroup(group, One, rows);
    TallyOfGroup(group, Readings, rows);
    TallyOfGroup(group, Dangers, rows);
    TallyOfGroup(group, Flagged, rows);
  }

  /** A point of the trend chart, number by number. */
  lemma PointIs(rows: seq<ArchiveRow>, w: int)
    ensures var mine, p := (r: ArchiveRow) => InWindow(r, w), PointOf(rows, w);
            && p.windowStart == w && p.totalCount == Tally(mine, Readings, rows)
            && IsQuotient(mine, Weighed, p.totalCount, rows, p.avgCpm) && IsPeakOf(mine, rows, p.maxCpm)
            && p.danger == Tally(mine, Dangers, rows) && p.anomalyCells == Tally(mine, Flagged, rows)
  {
    var mine := (r: ArchiveRow) => InWindow(r, w);
    FilterAgrees((r: ArchiveRow) => r.windowStart == w, mine, rows);
    TalliesAre(mine, rows);
    WeightedMeanIs(mine, rows);
    MaxIs(mine, rows);
  }

  lemma CentroidIs(group: ArchiveRow -> bool, rows: seq<ArchiveRow>)
    ensures var cell := Filter(group, rows);
            && IsQuotient(group, Latitude, Tally(group, Has(Latitude), rows), rows,
                          Average(seq(|cell|, i requires 0 <= i < |cell| => cell[i].latitude)))
            && IsQuotient(group, Longitude, Tally(group, Has(Longitude), rows), rows,
                          Average(seq(|cell|, i requires 0 <= i < |cell| => cell[i].longitude)))
  {
    hide IsQuotient;
    var cell := Filter(group, rows);
    AverageIs(group, Latitude, rows, seq(|cell|, i requires 0 <= i < |cell| => cell[i].latitude));
    AverageIs(group, Longitude, rows, seq(|cell|, i requires 0 <= i < |cell| => cell[i].longitude));
  }

  /** A hotspot, number by number: each coordinate is averaged over the rows that have it. */
  lemma HotspotIs(rows: seq<ArchiveRow>, geohash: string)
    ensures var mine, h := (r: ArchiveRow) => r.geohash == geohash, HotspotOf(rows, geohash);
            && h.geohash == geohash && h.windows == Tally(mine, One, rows) && h.totalCount == Tally(mine, Readings, rows)
            && IsQuotient(mine, Weighed, h.totalCount, rows, h.avgCpm) && IsPeakOf(mine, rows, h.peakCpm)
            && IsQuotient(mine, Latitude, Tally(mine, Has(Latitude), rows), rows, h.latitude)
            && IsQuotient(mine, Longitude, Tally(mine, Has(Longitude), rows), rows, h.longitude)
            && h.anomalyWindows == Tally(mine, Flagged, rows)
  {
    var mine := (r: ArchiveRow) => r.geohash == geohash;
    FilterAgrees((r: ArchiveRow) => r.geohash == geohash, mine, rows);
    var cell := Filter(mine, rows);
    assert OfCell(rows, geohash) == cell;
    TalliesAre(mine, rows);
    WeightedMeanIs(mine, rows);
    MaxIs(mine, rows);
    CentroidIs(mine, rows);
  }

  /** The hottest cells, told by the rows: every hotspot shown is a cell of its own, hotter ones come first. */
  ghost predicate AreHottest(answer: seq<Hotspot>, rows: seq<ArchiveRow>, limit: nat) {
    && |answer| == Min(limit, |set r | r in rows :: r.geohash|)
    && (forall i :: 0 <= i < |answer| ==> Occurs(answer[i].geohash, rows) && answer[i] == HotspotOf(rows, answer[i].geohash))
    && (forall i, j :: 0 <= i < j < |answer| ==> answer[i].geohash != answer[j].geohash)
    && (forall i, j :: 0 <= i < j < |answer| && answer[j].peakCpm.Some? ==>
          answer[i].peakCpm.Some? && answer[i].peakCpm.value >= answer[j].peakCpm.value)
    && (forall i, r :: 0 <= i < |answer| && r in rows && !IsShown(r.geohash, answer) && r.cpmMax.Some? ==>
          answer[i].peakCpm.Some? && answer[i].peakCpm.value >= r.cpmMax.value)
  }

  predicate Occurs(geohash: string, rows: seq<ArchiveRow>) {
    exists r :: r in rows && r.geohash == geohash
  }

  predicate IsShown(geohash: string, answer: seq<Hotspot>) {
    exists i :: 0 <= i < |answer| && answer[i].geohash == geohash
  }

  lemma GeohashesAre(rows: seq<ArchiveRow>)
    ensures Geohashes(rows) == set r | r in rows :: r.geohash
    ensures forall g {:trigger g in Geohashes(rows)} :: g in Geohashes(rows) <==> Occurs(g, rows)
  {
    forall r | r in rows ensures r.geohash in Geohashes(rows) {
      var i :| 0 <= i < |rows| && rows[i] == r;
    }
  }

  lemma PeakIsThatOfTheCell(rows: seq<ArchiveRow>, geohash: string)
    ensures PeakIn(rows)(geohash) == HotspotOf(rows, geohash).peakCpm
    ensures forall r :: r in rows && r.geohash == geohash && r.cpmMax.Some? ==>
              PeakIn(rows)(geohash).Some? && r.cpmMax.value <= PeakIn(rows)(geohash).value
  {
    HotspotIs(rows, geohash);
  }

  /** No row of a cell that is left out is hotter than a cell that is shown. */
  lemma HotspotsAre(rows: seq<ArchiveRow>, top: seq<string>, answer: seq<Hotspot>, limit: nat)
    requires IsHottest(top, Geohashes(rows), PeakIn(rows), limit)
    requires |answer| == |top| && forall i :: 0 <= i < |top| ==> answer[i] == HotspotOf(rows, top[i])
    ensures AreHottest(answer, rows, limit)
  {
    GeohashesAre(rows);
    forall i | 0 <= i < |top| ensures answer[i].geohash == top[i] && answer[i].peakCpm == PeakIn(rows)(top[i]) {
      PeakIsThatOfTheCell(rows, top[i]);
      HotspotIs(rows, top[i]);
    }
    forall i, r | 0 <= i < |answer| && r in rows && !IsShown(r.geohash, answer) && r.cpmMax.Some?
      ensures answer[i].peakCpm.Some? && answer[i].peakCpm.value >= r.cpmMax.value {
      PeakIsThatOfTheCell(rows, r.geohash);
      assert r.geohash in Geohashes(rows);
      assert r.geohash !in top;
      assert RanksAtLeast(PeakIn(rows)(top[i]), PeakIn(rows)(r.geohash));
    }
  }

  /** The newest windows, told by the rows: a point for each, in order of time. */
  ghost predicate AreNewest(answer: seq<Point>, rows: seq<ArchiveRow>, limit: nat) {
    && |answer| <= limit
    && (forall i :: 0 <= i < |answer| ==>
          HasWindow(answer[i].windowStart, rows) && answer[i] == PointOf(rows, answer[i].windowStart))
    && (forall i, j :: 0 <= i < j < |answer| ==> answer[i].windowStart < answer[j].windowStart)
    && (forall i, r :: 0 <= i < |answer| && r in rows ==> IsPlotted(r.windowStart, answer) || r.windowStart < answer[i].windowStart)
    && (forall r :: r in rows ==> IsPlotted(r.windowStart, answer) || |answer| == limit)
  }

  predicate HasWindow(w: int, rows: seq<ArchiveRow>) {
    exists r :: r in rows && r.windowStart == w
  }

  predicate IsPlotted(w: int, answer: seq<Point>) {
    exists i :: 0 <= i < |answer| && answer[i].windowStart == w
  }

  lemma WindowsOfRows(rows: seq<ArchiveRow>, w: int)
    ensures w in Windows(rows) <==> HasWindow(w, rows)
  {
    WindowsAre(rows, w);
    FilterMembers((r: ArchiveRow) => r.windowStart == w, rows);
    if w in Windows(rows) {
      assert OfWindow(rows, w)[0] in OfWindow(rows, w);
    }
  }

  /** A window that the limit leaves out is older than all that are plotted. */
  lemma PointsAre(rows: seq<ArchiveRow>, answer: seq<Point>, limit: nat)
    requires answer == Points(rows, LastN(Windows(rows), limit))
    ensures AreNewest(answer, rows, limit)
  {
    var ws, tail := Windows(rows), LastN(Windows(rows), limit);
    WindowsAreAscending(rows);
    forall i | 0 <= i < |answer|
      ensures answer[i].windowStart == tail[i] && HasWindow(tail[i], rows) && answer[i] == PointOf(rows, tail[i]) {
      PointIs(rows, tail[i]);
      assert tail[i] in ws;
      WindowsOfRows(rows, tail[i]);
    }
    forall r | r in rows && !IsPlotted(r.windowStart, answer)
      ensures |answer| == limit && forall i :: 0 <= i < |answer| ==> r.windowStart < answer[i].windowStart {
      LeftOut(rows, answer, limit, r);
    }
  }

  lemma LeftOut(rows: seq<ArchiveRow>, answer: seq<Point>, limit: nat, r: ArchiveRow)
    requires r in rows && !IsPlotted(r.windowStart, answer)
    requires var tail := LastN(Windows(rows), limit);
             |answer| == |tail| && forall i :: 0 <= i < |tail| ==> answer[i].windowStart == tail[i]
    ensures |answer| == limit && forall i :: 0 <= i < |answer| ==> r.windowStart < answer[i].windowStart
  {
    var ws, tail := Windows(rows), LastN(Windows(rows), limit);
    WindowsOfRows(rows, r.windowStart);
    assert r.windowStart !in tail;
    if tail != [] {
      NewestWindowsAreShown(rows, limit, r.windowStart, tail[0]);
    }
    forall i | 0 <= i < |answer| ensures r.windowStart < answer[i].windowStart {
      NewestWindowsAreShown(rows, limit, r.windowStart, tail[i]);
    }
  }
}
