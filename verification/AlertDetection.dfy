/** Sustained-high detection: one sensor's events in one window reduced to at most one alert. */
module AlertDetection {
  import opened Sequences
  import opened ConfigOperators
  import opened WindowOperator

  datatype Alert = Alert(
    sensorId: string, windowStart: int, windowEnd: int, cpm: Option<real>, breachCount: nat,
    latitude: real, longitude: real, triggeredAt: int)

  const DEFAULT_MIN_BREACHES: nat := 3

  predicate IsBreach(e: Reading) {
    e.classification == Some(DANGER)
  }

  function Breaches(events: seq<Reading>): seq<Reading> {
    Filter(IsBreach, events)
  }

  /** The peak CPM among readings that have one. */
  function PeakCpm(bs: seq<Reading>): (peak: Option<real>)
    ensures peak.None? <==> forall b :: b in bs ==> b.cpm.None?
    ensures peak.Some? ==> (exists b :: b in bs && b.cpm == peak) && forall b :: b in bs && b.cpm.Some? ==> b.cpm.value <= peak.value
  {
    if bs == [] then None
    else
      var init, last := bs[..|bs| - 1], bs[|bs| - 1];
      assert bs == init + [last];
      var peak := PeakCpm(init);
      if last.cpm.None? || (peak.Some? && last.cpm.value <= peak.value) then peak else last.cpm
  }

  /** Python's `max(..., key=captured_at)`: among equally late readings, the first. */
  function Latest(bs: seq<Reading>): (r: Reading)
    requires bs != []
    ensures exists i :: 0 <= i < |bs| && bs[i] == r
                        && (forall j :: 0 <= j < |bs| ==> bs[j].capturedAt <= r.capturedAt)
                        && (forall j :: 0 <= j < i ==> bs[j].capturedAt < r.capturedAt)
  {
    if |bs| == 1 then bs[0]
    else
      var init, last := bs[..|bs| - 1], bs[|bs| - 1];
      var r := Latest(init);
      assert forall j :: 0 <= j < |init| ==> bs[j] == init[j];
      if last.capturedAt > r.capturedAt then
        assert bs[|bs| - 1] == last;
        last
      else r
  }

  /** `detect_sustained_high`; with no breach required the source would take `max` of nothing. */
  function Detect(events: seq<Reading>, sensorId: string, windowStart: int, windowEnd: int, minBreaches: nat): Option<Alert>
    requires minBreaches >= 1
  {
    var bs := Breaches(events);
    if |bs| < minBreaches then None
    else
      var latest := Latest(bs);
      Some(Alert(sensorId, windowStart, windowEnd, PeakCpm(bs), |bs|, latest.latitude, latest.longitude, latest.capturedAt))
  }

  lemma {:induction false} BreachesAre(events: seq<Reading>)
    ensures Breaches(events) == Filter((e: Reading) => e.classification == Some(DANGER), events)
  {
    if events != [] {
      BreachesAre(events[..|events| - 1]);
    }
  }

  /**
   An alert is raised exactly for enough DANGER readings. Its place and time are those of a
   latest one among them, its value is the greatest they carry.
   */
  lemma AlertDescribesBreaches(events: seq<Reading>, sensorId: string, windowStart: int, windowEnd: int, minBreaches: nat)
    requires minBreaches >= 1
    ensures var alert := Detect(events, sensorId, windowStart, windowEnd, minBreaches);
            var dangerous := |Filter((e: Reading) => e.classification == Some(DANGER), events)|;
            && (alert.Some? <==> dangerous >= minBreaches)
            && (alert.Some? ==>
                  var a := alert.value;
                  && a.sensorId == sensorId && a.windowStart == windowStart && a.windowEnd == windowEnd
                  && a.breachCount == dangerous
                  && (exists e :: IsLatestBreach(events, e) && PlaceAndTime(a, e))
                  && (forall e :: e in events && e.classification == Some(DANGER) && e.cpm.Some? ==>
                            a.cpm.Some? && e.cpm.value <= a.cpm.value)
                  && (a.cpm.Some? ==> exists e :: e in events && e.classification == Some(DANGER) && e.cpm == a.cpm))
  {
    var bs := Breaches(events);
    FilterMembers(IsBreach, events);
    BreachesAre(events);
    if |bs| >= minBreaches {
      var a := Detect(events, sensorId, windowStart, windowEnd, minBreaches).value;
      LatestOfBreaches(events);
      assert IsLatestBreach(events, Latest(bs)) && PlaceAndTime(a, Latest(bs));
    }
  }

  lemma LatestOfBreaches(events: seq<Reading>)
    requires Breaches(events) != []
    ensures IsLatestBreach(events, Latest(Breaches(events)))
  {
    var bs := Breaches(events);
    FilterMembers(IsBreach, events);
    var latest := Latest(bs);
    assert latest in bs && IsBreach(latest);
    forall b | b in events && b.classification == Some(DANGER) ensures b.capturedAt <= latest.capturedAt {
      assert IsBreach(b);
      assert b in bs;
    }
  }

  predicate PlaceAndTime(a: Alert, e: Reading) {
    a.latitude == e.latitude && a.longitude == e.longitude && a.triggeredAt == e.capturedAt
  }

  /** The latest breaches of a window are all in one place. */
  ghost predicate OneLatestPlace(events: seq<Reading>) {
    forall a, b {:trigger IsLatestBreach(events, a), IsLatestBreach(events, b)} ::
      IsLatestBreach(events, a) && IsLatestBreach(events, b) ==> a.latitude == b.latitude && a.longitude == b.longitude
  }

  ghost predicate IsLatestBreach(events: seq<Reading>, a: Reading) {
    && a in events && a.classification == Some(DANGER)
    && forall b :: b in events && b.classification == Some(DANGER) ==> b.capturedAt <= a.capturedAt
  }

  lemma {:induction false} PeakOfPermutation(xs: seq<Reading>, ys: seq<Reading>)
    requires forall e :: e in xs <==> e in ys
    ensures PeakCpm(xs) == PeakCpm(ys)
  {
    var p, q := PeakCpm(xs), PeakCpm(ys);
    if p.Some? && q.Some? {
      var b :| b in xs && b.cpm == p;
      var c :| c in ys && c.cpm == q;
    }
  }

  /** The order of the events does not matter when the latest breaches are all in one place. */
  lemma DetectIgnoresOrder(xs: seq<Reading>, ys: seq<Reading>, sensorId: string, windowStart: int, windowEnd: int,
                           minBreaches: nat)
    requires minBreaches >= 1 && multiset(xs) == multiset(ys) && OneLatestPlace(xs)
    ensures Detect(xs, sensorId, windowStart, windowEnd, minBreaches) == Detect(ys, sensorId, windowStart, windowEnd, minBreaches)
  {
    var bs, cs := Breaches(xs), Breaches(ys);
    FilterMultiset(IsBreach, xs, ys);
    SameMembers(bs, cs);
    SameMembers(xs, ys);
    PeakOfPermutation(bs, cs);
    FilterMembers(IsBreach, xs);
    FilterMembers(IsBreach, ys);
    if |bs| >= minBreaches {
      LatestOfBreaches(xs);
      LatestOfBreaches(ys);
      assert IsLatestBreach(xs, Latest(cs));
    }
  }

  /** And only then: a tie between two places is decided by the order of arrival. */
  lemma TieIsDecidedByOrder(xs: seq<Reading>, sensorId: string, windowStart: int, windowEnd: int, minBreaches: nat)
    returns (one: seq<Reading>, other: seq<Reading>)
    requires minBreaches >= 1 && !OneLatestPlace(xs) && |Breaches(xs)| >= minBreaches
    ensures multiset(one) == multiset(xs) == multiset(other)
    ensures Detect(one, sensorId, windowStart, windowEnd, minBreaches) != Detect(other, sensorId, windowStart, windowEnd, minBreaches)
  {
    var a, b :| IsLatestBreach(xs, a) && IsLatestBreach(xs, b) && !(a.latitude == b.latitude && a.longitude == b.longitude);
    one := MoveFirst(xs, a, minBreaches);
    other := MoveFirst(xs, b, minBreaches);
  }

  lemma MoveFirst(xs: seq<Reading>, a: Reading, minBreaches: nat) returns (ys: seq<Reading>)
    requires IsLatestBreach(xs, a) && |Breaches(xs)| >= minBreaches >= 1
    ensures multiset(ys) == multiset(xs) && |Breaches(ys)| >= minBreaches
    ensures Latest(Breaches(ys)) == a
  {
    var i :| 0 <= i < |xs| && xs[i] == a;
    var rest := xs[..i] + xs[i + 1..];
    ys := [a] + rest;
    assert multiset(ys) == multiset(xs) by {
      assert xs == xs[..i] + [a] + xs[i + 1..];
    }
    assert |Breaches(ys)| == |Breaches(xs)| by {
      FilterMultiset(IsBreach, xs, ys);
      SameMembers(Breaches(xs), Breaches(ys));
    }
    assert forall b :: b in rest ==> b in xs;
    FirstBreach(a, rest);
  }

  lemma FirstBreach(a: Reading, rest: seq<Reading>)
    requires IsBreach(a) && forall b :: b in rest && IsBreach(b) ==> b.capturedAt <= a.capturedAt
    ensures Breaches([a] + rest) == [a] + Breaches(rest) && Latest(Breaches([a] + rest)) == a
  {
    assert Breaches([a] + rest) == [a] + Breaches(rest) by {
      FilterConcat(IsBreach, [a], rest);
      assert [a][..0] == [];
    }
    FilterMembers(IsBreach, rest);
    LatestFirst(a, Breaches(rest));
  }

  lemma {:induction false} LatestFirst(a: Reading, rest: seq<Reading>)
    requires forall b :: b in rest ==> b.capturedAt <= a.capturedAt
    ensures Latest([a] + rest) == a
  {
    if rest != [] {
      var init := rest[..|rest| - 1];
      LatestFirst(a, init);
      assert ([a] + rest)[..|rest|] == [a] + init;
    }
  }

  // ---------------------------------------------------------------- the stream of candidates

  /** `SustainedHighWindowFunction.process` on every fired window, in order. */
  function Candidates(sensorId: string, size: int, minBreaches: nat, firings: seq<Firing>): seq<Alert>
    requires minBreaches >= 1
  {
    if firings == [] then []
    else
      var f := firings[0];
      var alert := Detect(f.elements, sensorId, f.start, f.start + size, minBreaches);
      (if alert.Some? then [alert.value] else []) + Candidates(sensorId, size, minBreaches, firings[1..])
  }

  ghost predicate OneLatestPlaces(firings: seq<Firing>) {
    firings != [] ==> OneLatestPlace(firings[0].elements) && OneLatestPlaces(firings[1..])
  }

  lemma {:induction false} CandidatesIgnoreOrder(sensorId: string, size: int, minBreaches: nat, a: seq<Firing>,
        b: seq<Firing>)
    requires minBreaches >= 1 && SameUpToOrder(a, b)
    requires OneLatestPlaces(a)
    ensures Candidates(sensorId, size, minBreaches, a) == Candidates(sensorId, size, minBreaches, b)
  {
    if a != [] {
      assert Detect(a[0].elements, sensorId, a[0].start, a[0].start + size, minBreaches)
          == Detect(b[0].elements, sensorId, b[0].start, b[0].start + size, minBreaches) by {
        DetectIgnoresOrder(a[0].elements, b[0].elements, sensorId, a[0].start, a[0].start + size, minBreaches);
      }
      assert SameUpToOrder(a[1..], b[1..]) by {
        assert forall i {:trigger a[1..][i]} {:trigger b[1..][i]} :: 0 <= i < |a| - 1 ==> a[1..][i] == a[i + 1] && b[1..][i] == b[i + 1];
      }
      CandidatesIgnoreOrder(sensorId, size, minBreaches, a[1..], b[1..]);
    }
  }

  ghost predicate EndsRise(alerts: seq<Alert>) {
    forall i, j {:trigger alerts[i], alerts[j]} :: 0 <= i < j < |alerts| ==> alerts[i].windowEnd < alerts[j].windowEnd
  }

  ghost predicate EndAfter(alerts: seq<Alert>, end: int) {
    forall i {:trigger alerts[i]} :: 0 <= i < |alerts| ==> alerts[i].windowEnd > end
  }

  lemma RiseFrom(alert: Alert, later: seq<Alert>)
    requires EndsRise(later) && EndAfter(later, alert.windowEnd)
    ensures EndsRise([alert] + later)
  {
  }

  lemma RestAscends(firings: seq<Firing>)
    requires Ascending(firings) && firings != []
    ensures Ascending(firings[1..]) && (|firings| > 1 ==> firings[0].start < firings[1].start)
  {
  }

  lemma {:induction false} CandidatesEndAfter(sensorId: string, size: int, minBreaches: nat, firings: seq<Firing>, end: int)
    requires minBreaches >= 1 && Ascending(firings) && (firings != [] ==> firings[0].start + size > end)
    ensures EndAfter(Candidates(sensorId, size, minBreaches, firings), end)
  {
    if firings != [] {
      RestAscends(firings);
      CandidatesEndAfter(sensorId, size, minBreaches, firings[1..], end);
    }
  }

  /** Candidates come in window_end order, because windows fire in order of time. */
  lemma {:induction false} CandidatesRise(sensorId: string, size: int, minBreaches: nat, firings: seq<Firing>)
    requires minBreaches >= 1 && Ascending(firings)
    ensures EndsRise(Candidates(sensorId, size, minBreaches, firings))
  {
    if firings != [] {
      var f := firings[0];
      RestAscends(firings);
      CandidatesRise(sensorId, size, minBreaches, firings[1..]);
      CandidatesEndAfter(sensorId, size, minBreaches, firings[1..], f.start + size);
      var alert := Detect(f.elements, sensorId, f.start, f.start + size, minBreaches);
      if alert.Some? {
        RiseFrom(alert.value, Candidates(sensorId, size, minBreaches, firings[1..]));
      } else {
        assert Candidates(sensorId, size, minBreaches, firings) == Candidates(sensorId, size, minBreaches, firings[1..]);
      }
    }
  }

  /** The alerts raised in these windows. */
  ghost predicate Raised(alert: Alert, sensorId: string, size: int, minBreaches: nat, firings: seq<Firing>)
    requires minBreaches >= 1
  {
    exists f :: f in firings && Detect(f.elements, sensorId, f.start, f.start + size, minBreaches) == Some(alert)
  }

  /** The candidates are the alerts of the fired windows and no others. */
  lemma {:induction false} CandidatesAre(sensorId: string, size: int, minBreaches: nat, firings: seq<Firing>, alert: Alert)
    requires minBreaches >= 1
    ensures alert in Candidates(sensorId, size, minBreaches, firings) <==> Raised(alert, sensorId, size, minBreaches, firings)
  {
    if firings != [] {
      CandidatesAre(sensorId, size, minBreaches, firings[1..], alert);
      assert firings == [firings[0]] + firings[1..];
    }
  }

  /** A window with enough breaches contributes its candidate. */
  lemma {:induction false} CandidateOf(sensorId: string, size: int, minBreaches: nat, firings: seq<Firing>, f: Firing)
    requires minBreaches >= 1 && f in firings && |Breaches(f.elements)| >= minBreaches
    ensures Detect(f.elements, sensorId, f.start, f.start + size, minBreaches).Some?
    ensures Detect(f.elements, sensorId, f.start, f.start + size, minBreaches).value in Candidates(sensorId, size, minBreaches, firings)
  {
    if firings[0] != f {
      assert f in firings[1..];
      CandidateOf(sensorId, size, minBreaches, firings[1..], f);
    }
  }
}
