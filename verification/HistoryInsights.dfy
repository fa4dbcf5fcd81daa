/** The archive's insights: per-window aggregates of the newest windows, and the hottest cells. */
module HistoryInsights {
  import opened Sequences
  import opened Statistics
  import opened WindowOperator
  import opened GeoAggregation
  import opened HistoryDb

  datatype Point = Point(
    windowStart: int, totalCount: nat, avgCpm: Option<real>, maxCpm: Option<real>, danger: nat, anomalyCells: nat)

  /** What the count-weighted mean uses of the rows. */
  function Cells(rows: seq<ArchiveRow>): seq<Cell> {
    seq(|rows|, i requires 0 <= i < |rows| => Cell(rows[i].cpmAvg, rows[i].count))
  }

  /** SQL's `max`: nulls do not take part. */
  function MaxCpm(rows: seq<ArchiveRow>): (peak: Option<real>)
    ensures peak.None? <==> forall i :: 0 <= i < |rows| ==> rows[i].cpmMax.None?
    ensures peak.Some? ==> exists i :: 0 <= i < |rows| && rows[i].cpmMax == peak
    ensures peak.Some? ==> forall i :: 0 <= i < |rows| && rows[i].cpmMax.Some? ==> rows[i].cpmMax.value <= peak.value
  {
    if rows == [] then None
    else
      var init, last := MaxCpm(rows[..|rows| - 1]), rows[|rows| - 1].cpmMax;
      if init.None? then last
      else if last.None? || last.value <= init.value then init
      else last
  }

  /** SQL's `sum`: null when every value is. */
  function SumDanger(rows: seq<ArchiveRow>): Option<nat> {
    if rows == [] then None
    else
      var init, last := SumDanger(rows[..|rows| - 1]), rows[|rows| - 1].dangerCount;
      if last.None? then init else Some(last.value + if init.None? then 0 else init.value)
  }

  function Coalesce(x: Option<nat>, default: nat): nat {
    if x.Some? then x.value else default
  }

  /** An absent flag is not an anomaly. */
  function Anomalies(rows: seq<ArchiveRow>): nat {
    |Filter((r: ArchiveRow) => r.anomaly == Some(true), rows)|
  }

  function OfWindow(rows: seq<ArchiveRow>, w: int): seq<ArchiveRow> {
    Filter((r: ArchiveRow) => r.windowStart == w, rows)
  }

  function PointOf(rows: seq<ArchiveRow>, w: int): Point {
    var mine := OfWindow(rows, w);
    Point(w, CountSum(Cells(mine)), WeightedMean(Cells(mine)), MaxCpm(mine), Coalesce(SumDanger(mine), 0), Anomalies(mine))
  }

  // ---------------------------------------------------------------- GROUP BY, ORDER BY, LIMIT

  ghost predicate Ascending(ws: seq<int>) {
    forall i, j {:trigger ws[i], ws[j]} :: 0 <= i < j < |ws| ==> ws[i] < ws[j]
  }

  /** One more group key, in its place. */
  function InsertWindow(ws: seq<int>, w: int): seq<int> {
    if ws == [] then [w]
    else
      var n := |ws| - 1;
      if ws[n] < w then ws + [w]
      else if ws[n] == w then ws
      else InsertWindow(ws[..n], w) + [ws[n]]
  }

  /** The groups of the rows, in order. */
  function Windows(rows: seq<ArchiveRow>): seq<int> {
    if rows == [] then [] else InsertWindow(Windows(rows[..|rows| - 1]), rows[|rows| - 1].windowStart)
  }

  /** `ORDER BY window_start DESC LIMIT limit` over ascending groups. */
  function NewestFirst(ws: seq<int>, limit: nat): seq<int> {
    if ws == [] || limit == 0 then [] else [ws[|ws| - 1]] + NewestFirst(ws[..|ws| - 1], limit - 1)
  }

  /** `ORDER BY window_start`. */
  function Ordered(ws: seq<int>): seq<int> {
    if ws == [] then [] else InsertWindow(Ordered(ws[1..]), ws[0])
  }

  function Points(rows: seq<ArchiveRow>, ws: seq<int>): seq<Point> {
    seq(|ws|, i requires 0 <= i < |ws| => PointOf(rows, ws[i]))
  }

  function Selected(archive: seq<ArchiveRow>, bbox: BBox, start: Option<int>, end: Option<int>): seq<ArchiveRow> {
    Filter((r: ArchiveRow) => Passes(r, bbox, start, end), archive)
  }

  /** What the database answers to the query with these parameters, the last of which is the limit. */
  function ExecuteTimeseries(archive: seq<ArchiveRow>, clauses: seq<Clause>, params: seq<Value>): seq<Point>
    requires params != [] && params[|params| - 1].Limit?
  {
    var rows := Filter((r: ArchiveRow) => Eval(clauses, params, r) == True, archive);
    Points(rows, Ordered(NewestFirst(Windows(rows), params[|params| - 1].limit)))
  }

  lemma {:induction false} FilterAgrees(p: ArchiveRow -> bool, q: ArchiveRow -> bool, xs: seq<ArchiveRow>)
    requires forall x {:trigger p(x)} {:trigger q(x)} :: p(x) == q(x)
    ensures Filter(p, xs) == Filter(q, xs)
  {
    if xs != [] {
      FilterAgrees(p, q, xs[..|xs| - 1]);
    }
  }

  /** The bound clauses and the later limit select the rows that pass. */
  lemma SelectsPassing(archive: seq<ArchiveRow>, clauses: seq<Clause>, params: seq<Value>, more: seq<Value>,
                       bbox: BBox, start: Option<int>, end: Option<int>)
    requires Means(clauses, params, bbox, start, end)
    ensures Filter((r: ArchiveRow) => Eval(clauses, params + more, r) == True, archive) == Selected(archive, bbox, start, end)
  {
    var p, q := (r: ArchiveRow) => Eval(clauses, params + more, r) == True, (r: ArchiveRow) => Passes(r, bbox, start, end);
    forall r {:trigger p(r)} {:trigger q(r)} ensures p(r) == q(r) {
      LaterValuesDoNotDisturb(clauses, params, more, r);
      assert Passes(r, bbox, start, end) <==> Eval(clauses, params, r) == True;
    }
    FilterAgrees(p, q, archive);
  }

  /** The newest `limit` windows of the rows that pass, oldest first; no answer when the query fails. */
  method Timeseries(archive: seq<ArchiveRow>, bbox: BBox, start: Option<int>, end: Option<int>, limit: nat, reachable: bool)
    returns (r: Option<seq<Point>>)
    ensures r.Some? <==> reachable
    ensures r.Some? ==>
              var rows := Selected(archive, bbox, start, end);
              r.value == Points(rows, LastN(Windows(rows), limit))
  {
    var params := new Params();
    var clauses := Where(bbox, start, end, params);
    ghost var bound := params.values;
    params.Extend([Limit(limit)]);
    if !reachable {
      return None;
    }
    SelectsPassing(archive, clauses, bound, [Limit(limit)], bbox, start, end);
    WindowsAreAscending(Selected(archive, bbox, start, end));
    NewestThenOrdered(Windows(Selected(archive, bbox, start, end)), limit);
    r := Some(ExecuteTimeseries(archive, clauses, params.values));
  }

  // ---------------------------------------------------------------- the windows shown

  lemma {:induction false} InsertKeepsAscending(ws: seq<int>, w: int)
    requires Ascending(ws)
    ensures Ascending(InsertWindow(ws, w))
    ensures forall v {:trigger v in ws} :: v in InsertWindow(ws, w) <==> v in ws || v == w
  {
    if ws != [] && ws[|ws| - 1] >= w {
      var n := |ws| - 1;
      assert ws == ws[..n] + [ws[n]];
      if ws[n] > w {
        InsertKeepsAscending(ws[..n], w);
        var front := InsertWindow(ws[..n], w);
        forall i | 0 <= i < |front| ensures front[i] < ws[n] {
          assert front[i] in ws[..n] || front[i] == w;
        }
      }
    }
  }

  lemma {:induction false} WindowsAreAscending(rows: seq<ArchiveRow>)
    ensures Ascending(Windows(rows))
  {
    if rows != [] {
      WindowsAreAscending(rows[..|rows| - 1]);
      InsertKeepsAscending(Windows(rows[..|rows| - 1]), rows[|rows| - 1].windowStart);
    }
  }

  /** The groups are exactly the windows of the rows. */
  lemma {:induction false} WindowsAre(rows: seq<ArchiveRow>, w: int)
    ensures w in Windows(rows) <==> OfWindow(rows, w) != []
  {
    if rows != [] {
      var init := rows[..|rows| - 1];
      WindowsAre(init, w);
      WindowsAreAscending(init);
      InsertKeepsAscending(Windows(init), rows[|rows| - 1].windowStart);
      assert w in Windows(init) || w !in Windows(init);
    }
  }

  lemma LastNStep(ws: seq<int>, limit: nat)
    requires ws != [] && limit > 0
    ensures LastN(ws, limit) == LastN(ws[..|ws| - 1], limit - 1) + [ws[|ws| - 1]]
  {
  }

  lemma {:induction false} InsertLast(ws: seq<int>, limit: nat)
    requires Ascending(ws) && ws != []
    ensures var tail := LastN(ws[..|ws| - 1], limit);
            InsertWindow(tail, ws[|ws| - 1]) == tail + [ws[|ws| - 1]]
  {
    var init := ws[..|ws| - 1];
    var tail := LastN(init, limit);
    if tail != [] {
      assert tail[|tail| - 1] == ws[|init| - 1];
    }
  }

  lemma {:induction false} OrderedCons(w: int, ws: seq<int>)
    ensures Ordered([w] + ws) == InsertWindow(Ordered(ws), w)
  {
    assert ([w] + ws)[1..] == ws;
  }

  /** Newest first, limited and put in order again, is the tail of the windows. */
  lemma {:induction false} NewestThenOrdered(ws: seq<int>, limit: nat)
    requires Ascending(ws)
    ensures Ordered(NewestFirst(ws, limit)) == LastN(ws, limit)
    decreases limit
  {
    if ws != [] && limit > 0 {
      var init, last := ws[..|ws| - 1], ws[|ws| - 1];
      var newest := NewestFirst(init, limit - 1);
      assert Ordered(newest) == LastN(init, limit - 1) by {
        NewestThenOrdered(init, limit - 1);
      }
      OrderedCons(last, newest);
      assert InsertWindow(LastN(init, limit - 1), last) == LastN(ws, limit) by {
        InsertLast(ws, limit - 1);
        LastNStep(ws, limit);
      }
    }
  }

  lemma {:induction false} TailMember(ws: seq<int>, limit: nat, i: nat)
    requires i < |ws|
    ensures i < |ws| - |LastN(ws, limit)| || ws[i] in LastN(ws, limit)
  {
    var tail := LastN(ws, limit);
    var skipped := |ws| - |tail|;
    if i >= skipped {
      assert tail[i - skipped] == ws[i];
    }
  }

  /** A window left out by the limit is older than every window shown. */
  lemma NewestWindowsAreShown(rows: seq<ArchiveRow>, limit: nat, w: int, shown: int)
    requires w in Windows(rows) && w !in LastN(Windows(rows), limit)
    requires shown in LastN(Windows(rows), limit)
    ensures w < shown && |LastN(Windows(rows), limit)| == limit
  {
    var ws := Windows(rows);
    WindowsAreAscending(rows);
    var i :| 0 <= i < |ws| && ws[i] == w;
    var tail := LastN(ws, limit);
    var j :| 0 <= j < |tail| && tail[j] == shown;
    var skipped := |ws| - |tail|;
    assert tail[j] == ws[skipped + j];
    TailMember(ws, limit, i);
  }

  // ---------------------------------------------------------------- totals and means

  function TotalOver(rows: seq<ArchiveRow>, ws: seq<int>): nat {
    if ws == [] then 0 else TotalOver(rows, ws[..|ws| - 1]) + CountSum(Cells(OfWindow(rows, ws[|ws| - 1])))
  }

  lemma CellsAppend(rows: seq<ArchiveRow>, r: ArchiveRow)
    ensures CountSum(Cells(rows + [r])) == CountSum(Cells(rows)) + r.count
  {
    assert Cells(rows + [r])[..|rows|] == Cells(rows);
  }

  lemma OneMoreRow(rows: seq<ArchiveRow>, r: ArchiveRow, w: int)
    ensures CountSum(Cells(OfWindow(rows + [r], w))) == CountSum(Cells(OfWindow(rows, w))) + if r.windowStart == w then r.count else 0
  {
    assert (rows + [r])[..|rows|] == rows;
    CellsAppend(OfWindow(rows, w), r);
  }

  lemma {:induction false} TotalStep(rows: seq<ArchiveRow>, r: ArchiveRow, ws: seq<int>)
    requires Ascending(ws)
    ensures TotalOver(rows + [r], ws) == TotalOver(rows, ws) + if r.windowStart in ws then r.count else 0
  {
    if ws != [] {
      var init, w := ws[..|ws| - 1], ws[|ws| - 1];
      TotalStep(rows, r, init);
      OneMoreRow(rows, r, w);
      assert ws == init + [w];
      assert w !in init;
    }
  }

  lemma {:induction false} TotalOfNothing(ws: seq<int>)
    ensures TotalOver([], ws) == 0
  {
    if ws != [] {
      TotalOfNothing(ws[..|ws| - 1]);
    }
  }

  lemma {:induction false} TotalOfAll(rows: seq<ArchiveRow>, ws: seq<int>)
    requires Ascending(ws) && forall i :: 0 <= i < |rows| ==> rows[i].windowStart in ws
    ensures TotalOver(rows, ws) == CountSum(Cells(rows))
  {
    if rows == [] {
      TotalOfNothing(ws);
    } else {
      var init, r := rows[..|rows| - 1], rows[|rows| - 1];
      TotalOfAll(init, ws);
      TotalStep(init, r, ws);
      CellsAppend(init, r);
      assert rows == init + [r];
    }
  }

  /** Without a limit the windows' counts add up to the count of all rows that pass. */
  lemma CountsOverWindows(rows: seq<ArchiveRow>)
    ensures TotalOver(rows, Windows(rows)) == CountSum(Cells(rows))
  {
    WindowsAreAscending(rows);
    forall i | 0 <= i < |rows| ensures rows[i].windowStart in Windows(rows) {
      WindowsAre(rows, rows[i].windowStart);
      FilterMembers((r: ArchiveRow) => r.windowStart == rows[i].windowStart, rows);
      assert rows[i] in OfWindow(rows, rows[i].windowStart);
    }
    TotalOfAll(rows, Windows(rows));
  }

  /**
   With no null CPM a window's average is, within the rounding of the blobs' averages, the
   mean of all readings behind the window's blobs.
   */
  lemma PointMeanIsReadingsMean(rows: seq<ArchiveRow>, w: int, groups: seq<seq<Reading>>, eps: real)
    requires groups != [] && Summarize(groups, Cells(OfWindow(rows, w)), eps)
    ensures Cpms(Flatten(groups)) != [] && PointOf(rows, w).avgCpm.Some?
    ensures Abs(PointOf(rows, w).avgCpm.value - Mean(Cpms(Flatten(groups)))) <= eps
    ensures PointOf(rows, w).totalCount == |Cpms(Flatten(groups))|
  {
    MeanOfMeans(groups, Cells(OfWindow(rows, w)), eps);
    SummarizedCounts(groups, Cells(OfWindow(rows, w)), eps);
  }

  /** A null danger count counts as none, also when all of them are null. */
  lemma {:induction false} DangerIsNeverNull(rows: seq<ArchiveRow>, r: ArchiveRow)
    ensures Coalesce(SumDanger(rows + [r]), 0) == Coalesce(SumDanger(rows), 0) + Coalesce(r.dangerCount, 0)
    ensures Coalesce(SumDanger([]), 0) == 0
  {
    assert (rows + [r])[..|rows|] == rows;
  }

  // ---------------------------------------------------------------- hotspots

  /** `ORDER BY peak_cpm DESC NULLS LAST`. */
  predicate RanksAtLeast(a: Option<real>, b: Option<real>) {
    b.None? || (a.Some? && a.value >= b.value)
  }

  /**
   An answer to the query for the `limit` hottest cells of `all`: distinct cells, hottest
   first, none of the others hotter. Ties leave a choice.
   */
  ghost predicate IsHottest(top: seq<string>, all: set<string>, peak: string -> Option<real>, limit: nat) {
    && |top| == Min(limit, |all|)
    && (forall i :: 0 <= i < |top| ==> top[i] in all)
    && (forall i, j :: 0 <= i < j < |top| ==> top[i] != top[j])
    && (forall i, j :: 0 <= i < j < |top| ==> RanksAtLeast(peak(top[i]), peak(top[j])))
    && (forall i, g :: 0 <= i < |top| && g in all && g !in top ==> RanksAtLeast(peak(top[i]), peak(g)))
  }

  datatype Hotspot = Hotspot(
    geohash: string, latitude: Option<real>, longitude: Option<real>, peakCpm: Option<real>, avgCpm: Option<real>,
    totalCount: nat, windows: nat, anomalyWindows: nat)

  function OfCell(rows: seq<ArchiveRow>, geohash: string): seq<ArchiveRow> {
    Filter((r: ArchiveRow) => r.geohash == geohash, rows)
  }

  /** SQL's `avg`: nulls do not take part. */
  function Average(xs: seq<Option<real>>): Option<real> {
    var present := Filter((x: Option<real>) => x.Some?, xs);
    if present == [] then None else Some(Mean(Values(present)))
  }

  function Values(xs: seq<Option<real>>): (vs: seq<real>)
    ensures |vs| == |xs|
  {
    seq(|xs|, i requires 0 <= i < |xs| => if xs[i].Some? then xs[i].value else 0.0)
  }

  function HotspotOf(rows: seq<ArchiveRow>, geohash: string): Hotspot {
    var mine := OfCell(rows, geohash);
    Hotspot(geohash,
            Average(seq(|mine|, i requires 0 <= i < |mine| => mine[i].latitude)),
            Average(seq(|mine|, i requires 0 <= i < |mine| => mine[i].longitude)),
            MaxCpm(mine), WeightedMean(Cells(mine)), CountSum(Cells(mine)), |mine|, Anomalies(mine))
  }

  function Geohashes(rows: seq<ArchiveRow>): set<string> {
    set i | 0 <= i < |rows| :: rows[i].geohash
  }

  function PeakIn(rows: seq<ArchiveRow>): string -> Option<real> {
    (geohash: string) => MaxCpm(OfCell(rows, geohash))
  }

  /** A hotspot's average is the mean of the readings behind the cell, within the rounding of its blobs. */
  lemma HotspotMeanIsReadingsMean(rows: seq<ArchiveRow>, geohash: string, groups: seq<seq<Reading>>, eps: real)
    requires groups != [] && Summarize(groups, Cells(OfCell(rows, geohash)), eps)
    ensures Cpms(Flatten(groups)) != [] && HotspotOf(rows, geohash).avgCpm.Some?
    ensures Abs(HotspotOf(rows, geohash).avgCpm.value - Mean(Cpms(Flatten(groups)))) <= eps
    ensures HotspotOf(rows, geohash).totalCount == |Cpms(Flatten(groups))| && HotspotOf(rows, geohash).windows == |groups|
  {
    MeanOfMeans(groups, Cells(OfCell(rows, geohash)), eps);
    SummarizedCounts(groups, Cells(OfCell(rows, geohash)), eps);
    SameNumber(groups, Cells(OfCell(rows, geohash)), eps);
  }

  lemma SameNumber(groups: seq<seq<Reading>>, cells: seq<Cell>, eps: real)
    requires Summarize(groups, cells, eps)
    ensures |groups| == |cells|
  {
  }

  lemma {:induction false} HottestExists(cells: set<string>, peak: string -> Option<real>) returns (g: string)
    requires cells != {}
    ensures g in cells && forall h :: h in cells ==> RanksAtLeast(peak(g), peak(h))
    decreases |cells|
  {
    var x :| x in cells;
    var rest := cells - {x};
    assert cells == rest + {x};
    if rest == {} {
      g := x;
    } else {
      var y := HottestExists(rest, peak);
      g := if RanksAtLeast(peak(x), peak(y)) then x else y;
    }
  }

  /** Every cell taken ranks at least as high as every cell left. */
  ghost predicate Above(top: seq<string>, left: set<string>, peak: string -> Option<real>) {
    forall i, g {:trigger top[i], g in left} :: 0 <= i < |top| && g in left ==> RanksAtLeast(peak(top[i]), peak(g))
  }

  /** What the database answers: the hottest cell, the hottest of the others, and so on. */
  method TakeHottest(all: set<string>, peak: string -> Option<real>, limit: nat) returns (top: seq<string>)
    ensures IsHottest(top, all, peak, limit)
  {
    top := [];
    var left := all;
    while |top| < limit && left != {}
      invariant |top| <= limit && |top| + |left| == |all| && left <= all
      invariant forall g :: g in all ==> (g in left <==> g !in top)
      invariant forall i :: 0 <= i < |top| ==> top[i] in all
      invariant forall i, j :: 0 <= i < j < |top| ==> top[i] != top[j]
      invariant forall i, j :: 0 <= i < j < |top| ==> RanksAtLeast(peak(top[i]), peak(top[j]))
      invariant Above(top, left, peak)
      decreases |left|
    {
      ghost var hottest := HottestExists(left, peak);
      var g :| g in left && forall h :: h in left ==> RanksAtLeast(peak(g), peak(h));
      top := top + [g];
      left := left - {g};
    }
  }

  /** The hottest cells of the rows that pass, each with its aggregates; no answer when the query fails. */
  method Hotspots(archive: seq<ArchiveRow>, bbox: BBox, start: Option<int>, end: Option<int>, limit: nat, reachable: bool)
    returns (r: Option<seq<Hotspot>>, ghost top: seq<string>)
    ensures r.Some? <==> reachable
    ensures r.Some? ==>
              var rows := Selected(archive, bbox, start, end);
              && IsHottest(top, Geohashes(rows), PeakIn(rows), limit)
              && |r.value| == |top|
              && forall i :: 0 <= i < |top| ==> r.value[i] == HotspotOf(rows, top[i])
  {
    var params := new Params();
    var clauses := Where(bbox, start, end, params);
    ghost var bound := params.values;
    params.Extend([Limit(limit)]);
    if !reachable {
      return None, [];
    }
    SelectsPassing(archive, clauses, bound, [Limit(limit)], bbox, start, end);
    var values := params.values;
    var rows := Filter((row: ArchiveRow) => Eval(clauses, values, row) == True, archive);
    var shown := TakeHottest(Geohashes(rows), PeakIn(rows), values[|values| - 1].limit);
    top := shown;
    r := Some(seq(|shown|, i requires 0 <= i < |shown| => HotspotOf(rows, shown[i])));
  }

  function Prefix(top: seq<string>, n: nat): set<string>
    requires n <= |top|
  {
    set i | 0 <= i < n :: top[i]
  }

  lemma {:induction false} PrefixSize(top: seq<string>, n: nat)
    requires n <= |top| && forall i, j :: 0 <= i < j < |top| ==> top[i] != top[j]
    ensures |Prefix(top, n)| == n
  {
    if n > 0 {
      PrefixSize(top, n - 1);
      assert Prefix(top, n) == Prefix(top, n - 1) + {top[n - 1]};
      assert top[n - 1] !in Prefix(top, n - 1);
    }
  }

  lemma SubsetSize(a: set<string>, b: set<string>)
    requires a <= b
    ensures |a| <= |b|
  {
    var rest := b - a;
    assert b == a + rest;
  }

  /** No answer has a strictly hotter cell at a position than another answer. */
  lemma NotHotter(a: seq<string>, b: seq<string>, all: set<string>, peak: string -> Option<real>, limit: nat, i: nat)
    requires IsHottest(a, all, peak, limit) && IsHottest(b, all, peak, limit) && i < |a|
    ensures RanksAtLeast(peak(b[i]), peak(a[i]))
  {
    if !RanksAtLeast(peak(b[i]), peak(a[i])) {
      forall g | g in Prefix(a, i + 1) ensures g in Prefix(b, i) {
        var k :| 0 <= k < i + 1 && a[k] == g;
        assert RanksAtLeast(peak(a[k]), peak(a[i])) || k == i;
        assert !RanksAtLeast(peak(b[i]), peak(g));
        assert g in all;
        var l :| 0 <= l < |b| && b[l] == g;
        assert l < i;
      }
      PrefixSize(a, i + 1);
      PrefixSize(b, i);
      SubsetSize(Prefix(a, i + 1), Prefix(b, i));
    }
  }

  /** Any two answers list the same peaks; only which of several equal cells is shown can differ. */
  lemma PeaksAreDetermined(a: seq<string>, b: seq<string>, all: set<string>, peak: string -> Option<real>,
                           limit: nat, i: nat)
    requires IsHottest(a, all, peak, limit) && IsHottest(b, all, peak, limit) && i < |a|
    ensures |a| == |b| && peak(a[i]) == peak(b[i])
  {
    NotHotter(a, b, all, peak, limit, i);
    NotHotter(b, a, all, peak, limit, i);
  }
}
