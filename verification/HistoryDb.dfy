/** The archive's read queries: the filter builder with its positional parameters, and the insights. */
module HistoryDb {
  import opened Sequences
  import opened Statistics
  import opened WindowOperator
  import opened GeoAggregation

  datatype ArchiveRow = ArchiveRow(
    geohash: string, windowStart: int, count: nat, cpmAvg: Option<real>, cpmMax: Option<real>,
    dangerCount: Option<nat>, anomaly: Option<bool>, latitude: Option<real>, longitude: Option<real>)

  // ---------------------------------------------------------------- the bounding box

  datatype BBox = Anywhere | Within(minLat: real, maxLat: real, minLon: real, maxLon: real)

  /** All four bounds or none, each minimum below its maximum; anything else is an error. */
  function MakeBBox(minLat: Option<real>, maxLat: Option<real>, minLon: Option<real>,
                    maxLon: Option<real>): (b: Option<BBox>)
    ensures b == Some(Anywhere) <==> minLat.None? && maxLat.None? && minLon.None? && maxLon.None?
    ensures b.Some? && b.value.Within? ==>
              b.value.minLat < b.value.maxLat && b.value.minLon < b.value.maxLon
              && [minLat, maxLat, minLon, maxLon]
                 == [Some(b.value.minLat), Some(b.value.maxLat), Some(b.value.minLon), Some(b.value.maxLon)]
    ensures b.None? && minLat.Some? && maxLat.Some? && minLon.Some? && maxLon.Some? ==>
              minLat.value >= maxLat.value || minLon.value >= maxLon.value
  {
    var anySet := minLat.Some? || maxLat.Some? || minLon.Some? || maxLon.Some?;
    var allSet := minLat.Some? && maxLat.Some? && minLon.Some? && maxLon.Some?;
    if anySet && !allSet then None
    else if !anySet then Some(Anywhere)
    else if !(minLat.value < maxLat.value) || !(minLon.value < maxLon.value) then None
    else Some(Within(minLat.value, maxLat.value, minLon.value, maxLon.value))
  }

  predicate Passes(row: ArchiveRow, bbox: BBox, start: Option<int>, end: Option<int>) {
    && (bbox.Within? ==>
          && row.latitude.Some? && bbox.minLat <= row.latitude.value <= bbox.maxLat
          && row.longitude.Some? && bbox.minLon <= row.longitude.value <= bbox.maxLon)
    && (start.Some? ==> row.windowStart >= start.value)
    && (end.Some? ==> row.windowStart <= end.value)
  }

  // ---------------------------------------------------------------- SQL conditions

  datatype Value = Number(number: real) | Time(time: int) | Limit(limit: nat)

  /** SQL's three truth values. */
  datatype Truth = True | False | Unknown

  function And(a: Truth, b: Truth): Truth {
    if a.False? || b.False? then False else if a.Unknown? || b.Unknown? then Unknown else True
  }

  function FromBool(b: bool): Truth {
    if b then True else False
  }

  /** A condition with its parameters' positions, which count from 1. */
  datatype Clause =
    | CentroidBetween(latLo: int, latHi: int, lonLo: int, lonHi: int)
    | StartsAtLeast(p: int)
    | StartsAtMost(p: int)

  predicate IsNumber(params: seq<Value>, p: int) {
    1 <= p <= |params| && params[p - 1].Number?
  }

  predicate IsTime(params: seq<Value>, p: int) {
    1 <= p <= |params| && params[p - 1].Time?
  }

  /** Every position the condition names is bound to a value of its type. */
  predicate Bound(c: Clause, params: seq<Value>) {
    match c
    case CentroidBetween(a, b, c, d) => IsNumber(params, a) && IsNumber(params, b) && IsNumber(params, c) && IsNumber(params, d)
    case StartsAtLeast(p) => IsTime(params, p)
    case StartsAtMost(p) => IsTime(params, p)
  }

  function Between(x: Option<real>, lo: real, hi: real): Truth {
    if x.None? then Unknown else FromBool(lo <= x.value <= hi)
  }

  function EvalClause(c: Clause, params: seq<Value>, row: ArchiveRow): Truth {
    if !Bound(c, params) then Unknown
    else
      match c
      case CentroidBetween(a, b, c, d) =>
        And(Between(row.latitude, params[a - 1].number, params[b - 1].number),
            Between(row.longitude, params[c - 1].number, params[d - 1].number))
      case StartsAtLeast(p) => FromBool(row.windowStart >= params[p - 1].time)
      case StartsAtMost(p) => FromBool(row.windowStart <= params[p - 1].time)
  }

  /** The clauses joined by AND. */
  function Eval(clauses: seq<Clause>, params: seq<Value>, row: ArchiveRow): Truth {
    if clauses == [] then True
    else And(Eval(clauses[..|clauses| - 1], params, row), EvalClause(clauses[|clauses| - 1], params, row))
  }

  predicate AllBound(clauses: seq<Clause>, params: seq<Value>) {
    clauses != [] ==> AllBound(clauses[..|clauses| - 1], params) && Bound(clauses[|clauses| - 1], params)
  }

  /** Values appended later do not disturb the clauses already built. */
  lemma {:induction false} ClausesStayBound(clauses: seq<Clause>, params: seq<Value>, more: seq<Value>)
    requires AllBound(clauses, params)
    ensures AllBound(clauses, params + more)
  {
    if clauses != [] {
      ClausesStayBound(clauses[..|clauses| - 1], params, more);
    }
  }

  lemma {:induction false} LaterValuesDoNotDisturb(clauses: seq<Clause>, params: seq<Value>, more: seq<Value>,
        row: ArchiveRow)
    requires AllBound(clauses, params)
    ensures Eval(clauses, params + more, row) == Eval(clauses, params, row)
  {
    if clauses != [] {
      LaterValuesDoNotDisturb(clauses[..|clauses| - 1], params, more, row);
    }
  }

  /** The clauses are bound, and true of exactly the rows that pass. */
  ghost predicate Means(clauses: seq<Clause>, params: seq<Value>, bbox: BBox, start: Option<int>, end: Option<int>) {
    && AllBound(clauses, params)
    && forall row {:trigger Eval(clauses, params, row)} ::
         Eval(clauses, params, row) == True <==> Passes(row, bbox, start, end)
  }

  lemma AddBound(clauses: seq<Clause>, c: Clause, params: seq<Value>, more: seq<Value>)
    requires AllBound(clauses, params) && Bound(c, params + more)
    ensures AllBound(clauses + [c], params + more)
  {
    ClausesStayBound(clauses, params, more);
    assert (clauses + [c])[..|clauses|] == clauses;
  }

  lemma AddClause(clauses: seq<Clause>, c: Clause, params: seq<Value>, more: seq<Value>, row: ArchiveRow)
    requires AllBound(clauses, params)
    ensures Eval(clauses + [c], params + more, row) == And(Eval(clauses, params, row), EvalClause(c, params + more, row))
  {
    LaterValuesDoNotDisturb(clauses, params, more, row);
    assert (clauses + [c])[..|clauses|] == clauses;
  }

  class Params {
    var values: seq<Value>

    constructor ()
      ensures values == []
    {
      values := [];
    }

    method Extend(more: seq<Value>)
      modifies this
      ensures values == old(values) + more
    {
      values := values + more;
    }
  }

  lemma AddBox(params: seq<Value>, bbox: BBox)
    requires bbox.Within?
    ensures var more := [Number(bbox.minLat), Number(bbox.maxLat), Number(bbox.minLon), Number(bbox.maxLon)];
            var n := |params + more|;
            Means([CentroidBetween(n - 3, n - 2, n - 1, n)], params + more, bbox, None, None)
  {
    var more := [Number(bbox.minLat), Number(bbox.maxLat), Number(bbox.minLon), Number(bbox.maxLon)];
    var n := |params + more|;
    var c := CentroidBetween(n - 3, n - 2, n - 1, n);
    assert [] + [c] == [c];
    AddBound([], c, params, more);
    forall row {:trigger Passes(row, bbox, None, None)}
      ensures Eval([c], params + more, row) == True <==> Passes(row, bbox, None, None)
    {
      AddClause([], c, params, more, row);
    }
  }

  lemma NoClauses(params: seq<Value>)
    ensures Means([], params, Anywhere, None, None)
  {
  }

  lemma AddStart(clauses: seq<Clause>, params: seq<Value>, bbox: BBox, start: int)
    requires Means(clauses, params, bbox, None, None)
    ensures var c := StartsAtLeast(|params| + 1);
            Means(clauses + [c], params + [Time(start)], bbox, Some(start), None)
  {
    var c := StartsAtLeast(|params| + 1);
    AddBound(clauses, c, params, [Time(start)]);
    forall row {:trigger Passes(row, bbox, Some(start), None)}
      ensures Eval(clauses + [c], params + [Time(start)], row) == True <==> Passes(row, bbox, Some(start), None)
    {
      AddClause(clauses, c, params, [Time(start)], row);
      assert Passes(row, bbox, None, None) <==> Eval(clauses, params, row) == True;
    }
  }

  lemma AddEnd(clauses: seq<Clause>, params: seq<Value>, bbox: BBox, start: Option<int>, end: int)
    requires Means(clauses, params, bbox, start, None)
    ensures var c := StartsAtMost(|params| + 1);
            Means(clauses + [c], params + [Time(end)], bbox, start, Some(end))
  {
    var c := StartsAtMost(|params| + 1);
    AddBound(clauses, c, params, [Time(end)]);
    forall row {:trigger Passes(row, bbox, start, Some(end))}
      ensures Eval(clauses + [c], params + [Time(end)], row) == True <==> Passes(row, bbox, start, Some(end))
    {
      AddClause(clauses, c, params, [Time(end)], row);
      assert Passes(row, bbox, start, None) <==> Eval(clauses, params, row) == True;
    }
  }

  method WhereBox(bbox: BBox, params: Params) returns (clauses: seq<Clause>)
    modifies params
    ensures old(params.values) <= params.values
    ensures Means(clauses, params.values, bbox, None, None)
    ensures clauses == [] <==> bbox == Anywhere
  {
    if bbox.Within? {
      AddBox(params.values, bbox);
      params.Extend([Number(bbox.minLat), Number(bbox.maxLat), Number(bbox.minLon), Number(bbox.maxLon)]);
      var n := |params.values|;
      clauses := [CentroidBetween(n - 3, n - 2, n - 1, n)];
    } else {
      NoClauses(params.values);
      clauses := [];
    }
  }

  method WhereStart(before: seq<Clause>, ghost bbox: BBox, start: Option<int>, params: Params) returns (clauses: seq<Clause>)
    requires Means(before, params.values, bbox, None, None)
    modifies params
    ensures old(params.values) <= params.values
    ensures Means(clauses, params.values, bbox, start, None)
    ensures clauses == [] <==> before == [] && start.None?
  {
    clauses := before;
    if start.Some? {
      AddStart(before, params.values, bbox, start.value);
      params.Extend([Time(start.value)]);
      clauses := before + [StartsAtLeast(|params.values|)];
    }
  }

  method WhereEnd(before: seq<Clause>, ghost bbox: BBox, ghost start: Option<int>, end: Option<int>, params: Params)
    returns (clauses: seq<Clause>)
    requires Means(before, params.values, bbox, start, None)
    modifies params
    ensures old(params.values) <= params.values
    ensures Means(clauses, params.values, bbox, start, end)
    ensures clauses == [] <==> before == [] && end.None?
  {
    clauses := before;
    if end.Some? {
      AddEnd(before, params.values, bbox, start, end.value);
      params.Extend([Time(end.value)]);
      clauses := before + [StartsAtMost(|params.values|)];
    }
  }

  /** On any list of parameters, the clauses it returns are true of exactly the rows that pass. */
  method Where(bbox: BBox, start: Option<int>, end: Option<int>, params: Params) returns (clauses: seq<Clause>)
    modifies params
    ensures old(params.values) <= params.values
    ensures Means(clauses, params.values, bbox, start, end)
    ensures clauses == [] <==> bbox == Anywhere && start.None? && end.None?
  {
    clauses := WhereBox(bbox, params);
    clauses := WhereStart(clauses, bbox, start, params);
    clauses := WhereEnd(clauses, bbox, start, end, params);
  }
}
