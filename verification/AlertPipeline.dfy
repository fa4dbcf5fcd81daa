/** The alert branch of one sensor end to end: windows, detection and cooldown together. */
module AlertPipeline {
  import opened Sequences
  import opened Multiples
  import opened EventTimeWindows
  import opened WindowOperator
  import opened AlertDetection
  import opened AlertCooldown

  /** The alerts of one sensor for one arrival order of the stream. */
  ghost function Alerts(g: Geometry, ins: seq<Input>, sensorId: string, minBreaches: nat, cooldownSeconds: int): seq<Alert>
    requires g.Valid() && minBreaches >= 1
  {
    Emitted(Candidates(sensorId, g.size, minBreaches, Result(g, ins)), None, cooldownSeconds)
  }

  /** Breaches at one instant are all in one place. */
  ghost predicate NoTies(xs: seq<Reading>) {
    forall a, b {:trigger a in xs, b in xs} ::
      a in xs && b in xs && IsBreach(a) && IsBreach(b) && a.capturedAt == b.capturedAt
      ==> a.latitude == b.latitude && a.longitude == b.longitude
  }

  lemma {:induction false} NoTiesInWindows(xs: seq<Reading>, firings: seq<Firing>)
    requires NoTies(xs) && forall f :: f in firings ==> forall e :: e in f.elements ==> e in xs
    ensures OneLatestPlaces(firings)
  {
    if firings != [] {
      var events := firings[0].elements;
      forall a, b | IsLatestBreach(events, a) && IsLatestBreach(events, b)
        ensures a.latitude == b.latitude && a.longitude == b.longitude
      {
        assert a in xs && b in xs;
      }
      NoTiesInWindows(xs, firings[1..]);
    }
  }

  /** The alerts do not depend on the arrival order, as long as it stays within the bound. */
  lemma {:induction false} AlertsIgnoreArrivalOrder(g: Geometry, one: seq<Input>, other: seq<Input>,
        sensorId: string, minBreaches: nat, cooldownSeconds: int)
    requires g.Valid() && minBreaches >= 1 && Bounded(g, one) && Bounded(g, other)
    requires multiset(Arrived(one)) == multiset(Arrived(other)) && NoTies(Arrived(one))
    ensures Alerts(g, one, sensorId, minBreaches, cooldownSeconds) == Alerts(g, other, sensorId, minBreaches, cooldownSeconds)
  {
    ArrivalOrderIrrelevant(g, one, other);
    StreamingEqualsBatch(g, one);
    BatchIs(g, Arrived(one));
    forall f, e | f in Result(g, one) && e in f.elements ensures e in Arrived(one) {
      FilterMembers(InWindowOf(g, f.start), Arrived(one));
    }
    NoTiesInWindows(Arrived(one), Result(g, one));
    CandidatesIgnoreOrder(sensorId, g.size, minBreaches, Result(g, one), Result(g, other));
  }

  /** Candidates reach the cooldown in window_end order, so its choice is a largest one. */
  lemma {:induction false} AlertsAreOptimal(g: Geometry, ins: seq<Input>, sensorId: string, minBreaches: nat,
                                        cooldownSeconds: int, chosen: seq<Alert>)
    requires g.Valid() && minBreaches >= 1
    requires Subsequence(chosen, Candidates(sensorId, g.size, minBreaches, Result(g, ins))) && Spaced(chosen, None, cooldownSeconds)
    ensures |chosen| <= |Alerts(g, ins, sensorId, minBreaches, cooldownSeconds)|
    ensures Spaced(Alerts(g, ins, sensorId, minBreaches, cooldownSeconds), None, cooldownSeconds)
  {
    CandidatesInOrder(g, ins, sensorId, minBreaches);
    GreedyIsOptimal(Candidates(sensorId, g.size, minBreaches, Result(g, ins)), chosen, cooldownSeconds);
  }

  ghost function BreachIn(a: int, b: int): Reading -> bool {
    (e: Reading) => IsBreach(e) && a <= e.capturedAt <= b
  }

  lemma {:induction false} BreachesInWindow(g: Geometry, xs: seq<Reading>, a: int, b: int, start: int)
    requires g.Valid() && forall ts :: a <= ts <= b ==> start in Starts(g, ts)
    ensures |Filter(BreachIn(a, b), xs)| <= |Breaches(Filter(InWindowOf(g, start), xs))|
  {
    if xs != [] {
      var init, last := xs[..|xs| - 1], xs[|xs| - 1];
      BreachesInWindow(g, init, a, b, start);
      var kept := Filter(InWindowOf(g, start), init);
      if InWindowOf(g, start)(last) {
        assert (kept + [last])[..|kept|] == kept;
      }
    }
  }

  /** Enough DANGER readings of the sensor within size - slide make a candidate of one window. */
  lemma BurstMakesCandidate(g: Geometry, ins: seq<Input>, sensorId: string, minBreaches: nat, a: int,
                            b: int) returns (c: Alert)
    requires g.Valid() && minBreaches >= 1 && Bounded(g, ins)
    requires a <= b && b - a <= g.size - g.slide
    requires |Filter(BreachIn(a, b), Arrived(ins))| >= minBreaches
    ensures c in Candidates(sensorId, g.size, minBreaches, Result(g, ins))
    ensures c.windowStart == Floor(a, g.slide) && c.windowEnd == c.windowStart + g.size && c.breachCount >= minBreaches
  {
    var f := BurstFires(g, ins, minBreaches, a, b);
    CandidateOf(sensorId, g.size, minBreaches, Result(g, ins), f);
    c := Detect(f.elements, sensorId, f.start, f.start + g.size, minBreaches).value;
  }

  lemma BurstFires(g: Geometry, ins: seq<Input>, minBreaches: nat, a: int, b: int) returns (f: Firing)
    requires g.Valid() && minBreaches >= 1 && Bounded(g, ins)
    requires a <= b && b - a <= g.size - g.slide
    requires |Filter(BreachIn(a, b), Arrived(ins))| >= minBreaches
    ensures f in Result(g, ins) && f.start == Floor(a, g.slide) && |Breaches(f.elements)| >= minBreaches
  {
    var xs, start := Arrived(ins), Floor(a, g.slide);
    f := Firing(start, Filter(InWindowOf(g, start), xs));
    assert |Breaches(f.elements)| >= minBreaches by {
      ShortSpanSharesWindow(g, a, b);
      BreachesInWindow(g, xs, a, b, start);
    }
    assert Result(g, ins) == Batch(g, xs) by {
      StreamingEqualsBatch(g, ins);
    }
    assert f.elements != [];
    BatchIs(g, xs);
  }

  /**
   Detection guarantee: such a burst has an alert emitted at its window's end or less than
   one cooldown before it.
   */
  lemma BurstIsReported(g: Geometry, ins: seq<Input>, sensorId: string, minBreaches: nat, cooldownSeconds: int,
                        a: int, b: int)
    requires g.Valid() && minBreaches >= 1 && cooldownSeconds > 0 && Bounded(g, ins)
    requires a <= b && b - a <= g.size - g.slide
    requires |Filter(BreachIn(a, b), Arrived(ins))| >= minBreaches
    ensures exists alert :: alert in Alerts(g, ins, sensorId, minBreaches, cooldownSeconds)
                            && 0 <= Floor(a, g.slide) + g.size - alert.windowEnd < cooldownSeconds * 1000
  {
    var c := BurstMakesCandidate(g, ins, sensorId, minBreaches, a, b);
    CandidatesInOrder(g, ins, sensorId, minBreaches);
    EveryCandidateCovered(Candidates(sensorId, g.size, minBreaches, Result(g, ins)), c, None, cooldownSeconds);
  }

  lemma CandidatesInOrder(g: Geometry, ins: seq<Input>, sensorId: string, minBreaches: nat)
    requires g.Valid() && minBreaches >= 1
    ensures InOrder(Candidates(sensorId, g.size, minBreaches, Result(g, ins)))
  {
    EveryWindowFiresOnce(g, ins);
    CandidatesRise(sensorId, g.size, minBreaches, Result(g, ins));
  }
}
