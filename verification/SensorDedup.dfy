/** Duplicate suppression: each sensor's readings pass once per dedup key. */
module SensorDedup {
  import opened Sequences

  datatype Event = Event(sensorId: string, md5sum: Option<string>, capturedAt: Option<string>, reading: string)

  const CAPTURED_AT_PREFIX: string := "captured_at:"

  predicate HasMd5(e: Event) {
    e.md5sum.Some? && e.md5sum.value != ""
  }

  /** How an absent `captured_at` prints. */
  function CapturedAt(e: Event): string {
    if e.capturedAt.Some? then e.capturedAt.value else "None"
  }

  function DedupKey(e: Event): string {
    if HasMd5(e) then e.md5sum.value else CAPTURED_AT_PREFIX + CapturedAt(e)
  }

  predicate IsDigest(md5sum: string) {
    ':' !in md5sum
  }

  /**
   Between readings whose md5sums are digests, two have one key exactly when they carry the
   same md5sum, or neither carries one and they were captured at the same time.
   */
  lemma SameKeyIff(e: Event, f: Event)
    requires HasMd5(e) ==> IsDigest(e.md5sum.value)
    requires HasMd5(f) ==> IsDigest(f.md5sum.value)
    ensures DedupKey(e) == DedupKey(f) <==>
            HasMd5(e) == HasMd5(f) && (if HasMd5(e) then e.md5sum == f.md5sum else CapturedAt(e) == CapturedAt(f))
  {
    var n := |CAPTURED_AT_PREFIX|;
    assert CAPTURED_AT_PREFIX[n - 1] == ':';
    if !HasMd5(e) {
      assert DedupKey(e)[n - 1] == ':' && DedupKey(e)[n..] == CapturedAt(e);
    }
    if !HasMd5(f) {
      assert DedupKey(f)[n - 1] == ':' && DedupKey(f)[n..] == CapturedAt(f);
    }
  }

  /** An absent and an empty md5sum are none. */
  predicate SameDigest(e: Event, f: Event) {
    e.md5sum.Some? && e.md5sum.value != "" && e.md5sum == f.md5sum
  }

  predicate NoDigest(e: Event) {
    e.md5sum.None? || e.md5sum.value == ""
  }

  /** Capture times are compared as they print: an absent one is the text None. */
  predicate SameTime(e: Event, f: Event) {
    || e.capturedAt == f.capturedAt
    || (e.capturedAt.None? && f.capturedAt == Some("None")) || (e.capturedAt == Some("None") && f.capturedAt.None?)
  }

  /** Field by field: two readings are duplicates exactly with one digest, or both without and at one capture time. */
  lemma DuplicatesIff(e: Event, f: Event)
    requires e.md5sum.Some? ==> ':' !in e.md5sum.value
    requires f.md5sum.Some? ==> ':' !in f.md5sum.value
    ensures DedupKey(e) == DedupKey(f) <==> SameDigest(e, f) || (NoDigest(e) && NoDigest(f) && SameTime(e, f))
  {
    SameKeyIff(e, f);
  }

  /** What the key is made of: the digest itself, or the capture time under a prefix of its own. */
  lemma KeyIs(e: Event)
    ensures !NoDigest(e) ==> DedupKey(e) == e.md5sum.value
    ensures NoDigest(e) ==> DedupKey(e) == "captured_at:" + if e.capturedAt.Some? then e.capturedAt.value else "None"
  {
  }

  function Keys(events: seq<Event>): set<string> {
    if events == [] then {} else Keys(events[..|events| - 1]) + {DedupKey(events[|events| - 1])}
  }

  /** What an operator that has seen `seen` lets through. */
  function Passed(events: seq<Event>, seen: set<string>): seq<Event> {
    if events == [] then []
    else
      var init, last := events[..|events| - 1], events[|events| - 1];
      Passed(init, seen) + if DedupKey(last) in seen + Keys(init) then [] else [last]
  }

  function OfSensor(events: seq<Event>, sensorId: string): seq<Event> {
    Filter((e: Event) => e.sensorId == sensorId, events)
  }

  /** A reading adds its key, and itself when the key is new, to its own sensor's side only. */
  lemma {:induction false} SensorStep(events: seq<Event>, e: Event, sensorId: string)
    ensures var mine, now := OfSensor(events, sensorId), OfSensor(events + [e], sensorId);
            && (e.sensorId != sensorId ==> now == mine)
            && (e.sensorId == sensorId ==>
                  && Keys(now) == Keys(mine) + {DedupKey(e)}
                  && Passed(now, {}) == Passed(mine, {}) + if DedupKey(e) in Keys(mine) then [] else [e])
  {
    assert (events + [e])[..|events|] == events;
    var mine := OfSensor(events, sensorId);
    assert (mine + [e])[..|mine|] == mine;
  }

  /** The operator with its keyed state: the keys seen by each sensor. */
  class SensorDedupOperator {
    var seen: map<string, set<string>>
    ghost var events: seq<Event>

    function SeenBy(sensorId: string): set<string>
      reads this
    {
      if sensorId in seen then seen[sensorId] else {}
    }

    ghost predicate Valid()
      reads this
    {
      forall s :: SeenBy(s) == Keys(OfSensor(events, s))
    }

    constructor ()
      ensures Valid() && events == []
    {
      seen, events := map[], [];
    }

    /** A sensor's output so far grows by the reading exactly when its key is new to the sensor. */
    method ProcessElement(e: Event) returns (out: seq<Event>)
      requires Valid()
      modifies this
      ensures Valid() && events == old(events) + [e]
      ensures forall s :: Passed(OfSensor(events, s), {})
                          == Passed(OfSensor(old(events), s), {}) + if s == e.sensorId then out else []
    {
      forall s {
        SensorStep(events, e, s);
      }
      events := events + [e];
      var key := DedupKey(e);
      if key in SeenBy(e.sensorId) {
        return [];
      }
      seen := seen[e.sensorId := SeenBy(e.sensorId) + {key}];
      out := [e];
    }
  }

  // ---------------------------------------------------------------- first occurrences

  /** No reading before it has its key. */
  predicate IsFirst(events: seq<Event>, i: nat)
    requires i < |events|
  {
    forall j {:trigger events[j]} :: 0 <= j < i ==> DedupKey(events[j]) != DedupKey(events[i])
  }

  lemma {:induction false} KeyOccurs(events: seq<Event>, key: string) returns (i: nat)
    requires key in Keys(events)
    ensures i < |events| && DedupKey(events[i]) == key
  {
    var init := events[..|events| - 1];
    if key in Keys(init) {
      i := KeyOccurs(init, key);
    } else {
      i := |init|;
    }
  }

  lemma {:induction false} KeyIsListed(events: seq<Event>, i: nat)
    requires i < |events|
    ensures DedupKey(events[i]) in Keys(events)
  {
    if i < |events| - 1 {
      KeyIsListed(events[..|events| - 1], i);
    }
  }

  /** The positions of the first occurrences. */
  function FirstPositions(events: seq<Event>): seq<nat> {
    if events == [] then []
    else
      FirstPositions(events[..|events| - 1]) + if IsFirst(events, |events| - 1) then [|events| - 1] else []
  }

  lemma {:induction false} FirstInPrefix(events: seq<Event>, i: nat)
    requires i < |events| - 1
    ensures IsFirst(events[..|events| - 1], i) <==> IsFirst(events, i)
  {
    var init := events[..|events| - 1];
    assert forall j {:trigger events[j]} {:trigger init[j]} :: 0 <= j <= i ==> init[j] == events[j];
  }

  lemma NewKeyIsFirst(events: seq<Event>)
    requires events != []
    ensures var n := |events| - 1;
            DedupKey(events[n]) !in Keys(events[..n]) <==> IsFirst(events, n)
  {
    var n := |events| - 1;
    var init, key := events[..n], DedupKey(events[n]);
    if key in Keys(init) {
      var i := KeyOccurs(init, key);
      assert events[i] == init[i];
    } else {
      forall j {:trigger events[j]} | 0 <= j < n ensures DedupKey(events[j]) != key {
        KeyIsListed(init, j);
      }
    }
  }

  lemma {:induction false} PositionsAreInBounds(events: seq<Event>)
    ensures forall k {:trigger FirstPositions(events)[k]} :: 0 <= k < |FirstPositions(events)| ==> FirstPositions(events)[k] < |events|
  {
    if events != [] {
      PositionsAreInBounds(events[..|events| - 1]);
    }
  }

  /** A position is listed exactly when it holds a first occurrence. */
  lemma {:induction false} PositionsAre(events: seq<Event>, i: nat)
    requires i < |events|
    ensures i in FirstPositions(events) <==> IsFirst(events, i)
  {
    var init := events[..|events| - 1];
    if i < |init| {
      PositionsAre(init, i);
      FirstInPrefix(events, i);
    } else {
      PositionsAreInBounds(init);
      assert i !in FirstPositions(init);
    }
  }

  /** The positions rise. */
  lemma {:induction false} PositionsRise(events: seq<Event>, k: nat)
    requires 1 <= k < |FirstPositions(events)|
    ensures FirstPositions(events)[k - 1] < FirstPositions(events)[k]
  {
    var init := events[..|events| - 1];
    if k < |FirstPositions(init)| {
      PositionsRise(init, k);
    } else {
      PositionsAreInBounds(init);
    }
  }

  /** The output is what the input holds at these positions: the subsequence of first occurrences. */
  lemma {:induction false} PassedIsFirstOccurrences(events: seq<Event>, k: nat)
    ensures |Passed(events, {})| == |FirstPositions(events)|
    ensures k < |FirstPositions(events)| ==>
              FirstPositions(events)[k] < |events| && Passed(events, {})[k] == events[FirstPositions(events)[k]]
  {
    if events != [] {
      PassedIsFirstOccurrences(events[..|events| - 1], k);
      NewKeyIsFirst(events);
    }
  }

  // ---------------------------------------------------------------- replay and restart

  lemma {:induction false} KeysConcat(a: seq<Event>, b: seq<Event>)
    ensures Keys(a + b) == Keys(a) + Keys(b)
  {
    if b == [] {
      assert a + b == a;
    } else {
      assert (a + b)[..|a + b| - 1] == a + b[..|b| - 1];
      KeysConcat(a, b[..|b| - 1]);
    }
  }

  /** Saving the state at any point and resuming from it gives the uninterrupted output. */
  lemma {:induction false} RestartIsInvisible(a: seq<Event>, b: seq<Event>, seen: set<string>)
    ensures Passed(a + b, seen) == Passed(a, seen) + Passed(b, seen + Keys(a))
  {
    if b == [] {
      assert a + b == a;
    } else {
      var init := b[..|b| - 1];
      assert (a + b)[..|a + b| - 1] == a + init;
      RestartIsInvisible(a, init, seen);
      KeysConcat(a, init);
    }
  }

  lemma {:induction false} NothingNewPasses(c: seq<Event>, seen: set<string>)
    requires Keys(c) <= seen
    ensures Passed(c, seen) == []
  {
    if c != [] {
      NothingNewPasses(c[..|c| - 1], seen);
    }
  }

  /** Readings already seen change nothing, wherever and however often they are sent again. */
  lemma ReplayIsInvisible(a: seq<Event>, c: seq<Event>, b: seq<Event>, seen: set<string>)
    requires Keys(c) <= seen + Keys(a)
    ensures Passed(a + c + b, seen) == Passed(a + b, seen)
  {
    assert seen + Keys(a + c) == seen + Keys(a) by {
      KeysConcat(a, c);
    }
    assert Passed(a + c, seen) == Passed(a, seen) by {
      RestartIsInvisible(a, c, seen);
      NothingNewPasses(c, seen + Keys(a));
    }
    RestartIsInvisible(a + c, b, seen);
    RestartIsInvisible(a, b, seen);
  }
}
