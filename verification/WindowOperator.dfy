/**
 The keyed window operator on one key of a stream: elements join the open windows of their
 timestamp, emitted watermarks fire windows in time order, and the end of the stream fires
 what is left. Under the bound on disorder this is the batch computation.
 */
module WindowOperator {
  import opened Sequences
  import opened Multiples
  import opened EventTimeWindows
  import opened ConfigOperators

  /** A classified event. Its `captured_at` has been parsed when the event was cleaned. */
  datatype Reading = Reading(capturedAt: int, latitude: real, longitude: real, cpm: Option<real>, classification: Option<Class>)

  /** What arrives: an event of this key, one of another key, or a watermark being emitted. */
  datatype Input = Own(e: Reading) | Other(ts: int) | Tick

  datatype Firing = Firing(start: int, elements: seq<Reading>)

  datatype Op = Op(seen: Option<int>, wm: Option<int>, pending: map<int, seq<Reading>>, fired: seq<Firing>)

  /** The watermark has reached the last millisecond of the window. */
  predicate Closed(g: Geometry, start: int, wm: Option<int>) {
    wm.Some? && start + g.size - 1 <= wm.value
  }

  predicate Holds(g: Geometry, start: int, e: Reading)
    requires g.Valid()
  {
    start in Starts(g, e.capturedAt)
  }

  lemma HasMember(s: set<int>)
    requires s != {}
    ensures exists x :: x in s
  {
    if !exists x :: x in s {
      assert false;
    }
  }

  ghost function MinOf(s: set<int>): (m: int)
    requires s != {}
    ensures m in s && forall x :: x in s ==> m <= x
  {
    HasMember(s);
    var x :| x in s;
    if s == {x} then x
    else
      assert s == (s - {x}) + {x};
      Min(x, MinOf(s - {x}))
  }

  /** Fires the windows `due`, earliest first. */
  ghost function Fire(pending: map<int, seq<Reading>>, due: set<int>): seq<Firing>
    requires due <= pending.Keys
  {
    if due == {} then []
    else
      var m := MinOf(due);
      [Firing(m, pending[m])] + Fire(pending, due - {m})
  }

  function Add(pending: map<int, seq<Reading>>, open: set<int>, e: Reading): map<int, seq<Reading>> {
    map s | s in pending.Keys + open :: (if s in pending then pending[s] else []) + if s in open then [e] else []
  }

  ghost function Step(g: Geometry, op: Op, input: Input): Op
    requires g.Valid()
  {
    match input
    case Own(e) =>
      var open := set s | s in Starts(g, e.capturedAt) && !Closed(g, s, op.wm);
      op.(seen := Later(op.seen, e.capturedAt), pending := Add(op.pending, open, e))
    case Other(ts) => op.(seen := Later(op.seen, ts))
    case Tick =>
      if op.seen.None? then op
      else
        var wm := Later(op.wm, op.seen.value - g.bound - 1);
        var due := set s | s in op.pending && Closed(g, s, wm);
        op.(wm := wm, pending := op.pending - due, fired := op.fired + Fire(op.pending, due))
  }

  ghost function Play(g: Geometry, ins: seq<Input>): Op
    requires g.Valid()
  {
    if ins == [] then Op(None, None, map[], []) else Step(g, Play(g, ins[..|ins| - 1]), ins[|ins| - 1])
  }

  /** Everything the operator emits: at the end of the stream the open windows fire too. */
  ghost function Result(g: Geometry, ins: seq<Input>): seq<Firing>
    requires g.Valid()
  {
    var op := Play(g, ins);
    op.fired + Fire(op.pending, op.pending.Keys)
  }

  // ---------------------------------------------------------------- what a window collects

  /** The events of this key, in order of arrival. */
  function Arrived(ins: seq<Input>): seq<Reading> {
    if ins == [] then []
    else
      var rest := Arrived(ins[..|ins| - 1]);
      if ins[|ins| - 1].Own? then rest + [ins[|ins| - 1].e] else rest
  }

  /** The events of a window that arrive before it closes. */
  ghost function Content(g: Geometry, ins: seq<Input>, start: int): seq<Reading>
    requires g.Valid()
  {
    if ins == [] then []
    else
      var init, input := ins[..|ins| - 1], ins[|ins| - 1];
      if input.Own? && Holds(g, start, input.e) && !Closed(g, start, Play(g, init).wm)
      then Content(g, init, start) + [input.e]
      else Content(g, init, start)
  }

  ghost predicate Ascending(fs: seq<Firing>) {
    forall i, j {:trigger fs[i], fs[j]} :: 0 <= i < j < |fs| ==> fs[i].start < fs[j].start
  }

  lemma {:induction false} FireIs(pending: map<int, seq<Reading>>, due: set<int>)
    requires due <= pending.Keys
    ensures Ascending(Fire(pending, due))
    ensures forall f {:trigger f in Fire(pending, due)} :: f in Fire(pending, due) <==> f.start in due && f.elements == pending[f.start]
    decreases due
  {
    if due != {} {
      var m := MinOf(due);
      var rest := Fire(pending, due - {m});
      FireIs(pending, due - {m});
      forall i, j | 0 <= i < j < |rest| + 1
        ensures ([Firing(m, pending[m])] + rest)[i].start < ([Firing(m, pending[m])] + rest)[j].start
      {
        assert rest[j - 1] in rest;
      }
    }
  }

  ghost predicate PendingInv(g: Geometry, ins: seq<Input>)
    requires g.Valid()
  {
    var op := Play(g, ins);
    forall s {:trigger s in op.pending} {:trigger Content(g, ins, s)} ::
      if !Closed(g, s, op.wm) && Content(g, ins, s) != [] then s in op.pending && op.pending[s] == Content(g, ins, s)
      else s !in op.pending
  }

  ghost predicate FiredInv(g: Geometry, ins: seq<Input>)
    requires g.Valid()
  {
    var op := Play(g, ins);
    && Ascending(op.fired)
    && forall f {:trigger f in op.fired} ::
         f in op.fired <==> Closed(g, f.start, op.wm) && f.elements == Content(g, ins, f.start) && f.elements != []
  }

  lemma {:induction false} OwnKeeps(g: Geometry, ins: seq<Input>, e: Reading)
    requires g.Valid() && PendingInv(g, ins) && FiredInv(g, ins)
    ensures PendingInv(g, ins + [Own(e)]) && FiredInv(g, ins + [Own(e)])
  {
    var next := ins + [Own(e)];
    assert next[..|ins|] == ins;
    var op, op' := Play(g, ins), Play(g, next);
    forall s ensures if !Closed(g, s, op'.wm) && Content(g, next, s) != [] then s in op'.pending && op'.pending[s] == Content(g, next, s)
                     else s !in op'.pending {
      assert s in op.pending || s !in op.pending;
    }
    forall f ensures f in op'.fired <==> Closed(g, f.start, op'.wm) && f.elements == Content(g, next, f.start) && f.elements != [] {
      assert f in op.fired || f !in op.fired;
    }
  }

  lemma {:induction false} OtherKeeps(g: Geometry, ins: seq<Input>, ts: int)
    requires g.Valid() && PendingInv(g, ins) && FiredInv(g, ins)
    ensures PendingInv(g, ins + [Other(ts)]) && FiredInv(g, ins + [Other(ts)])
  {
    var next := ins + [Other(ts)];
    assert next[..|ins|] == ins;
    assert forall s :: Content(g, next, s) == Content(g, ins, s);
  }

  lemma {:induction false} TickKeeps(g: Geometry, ins: seq<Input>)
    requires g.Valid() && PendingInv(g, ins) && FiredInv(g, ins)
    ensures PendingInv(g, ins + [Tick]) && FiredInv(g, ins + [Tick])
  {
    var next := ins + [Tick];
    assert next[..|ins|] == ins;
    var op, op' := Play(g, ins), Play(g, next);
    assert forall s :: Content(g, next, s) == Content(g, ins, s);
    if op.seen.Some? {
      var due := set s | s in op.pending && Closed(g, s, op'.wm);
      FireIs(op.pending, due);
      forall s ensures if !Closed(g, s, op'.wm) && Content(g, next, s) != [] then s in op'.pending && op'.pending[s] == Content(g, next, s)
                       else s !in op'.pending {
        assert s in op.pending || s !in op.pending;
      }
      DueAfterFired(g, ins, due);
      forall f ensures f in op'.fired <==> Closed(g, f.start, op'.wm) && f.elements == Content(g, next, f.start) && f.elements != [] {
        assert f in op'.fired <==> f in op.fired || f in Fire(op.pending, due);
        assert f.start in op.pending || f.start !in op.pending;
      }
    }
  }

  lemma AscendingJoin(a: seq<Firing>, b: seq<Firing>)
    requires Ascending(a) && Ascending(b)
    requires forall f, h {:trigger f in a, h in b} :: f in a && h in b ==> f.start < h.start
    ensures Ascending(a + b)
  {
    var c := a + b;
    forall i, j | 0 <= i < j < |c| ensures c[i].start < c[j].start {
      if j < |a| {
        assert c[i] == a[i] && c[j] == a[j];
      } else if i < |a| {
        assert c[i] in a && c[j] == b[j - |a|] && c[j] in b;
      } else {
        assert c[i] == b[i - |a|] && c[j] == b[j - |a|];
      }
    }
  }

  /** Windows fired later end later: the order of firing is the order of time. */
  lemma {:induction false} DueAfterFired(g: Geometry, ins: seq<Input>, due: set<int>)
    requires g.Valid() && PendingInv(g, ins) && FiredInv(g, ins) && due <= Play(g, ins).pending.Keys
    ensures Ascending(Play(g, ins).fired + Fire(Play(g, ins).pending, due))
  {
    var op := Play(g, ins);
    var more := Fire(op.pending, due);
    FireIs(op.pending, due);
    forall f, h | f in op.fired && h in more ensures f.start < h.start {
      assert h.start in op.pending;
    }
    AscendingJoin(op.fired, more);
  }

  lemma {:induction false} PlayKeepsInvariant(g: Geometry, ins: seq<Input>)
    requires g.Valid()
    ensures PendingInv(g, ins) && FiredInv(g, ins)
  {
    if ins != [] {
      var init := ins[..|ins| - 1];
      PlayKeepsInvariant(g, init);
      assert ins == init + [ins[|ins| - 1]];
      match ins[|ins| - 1]
      case Own(e) => OwnKeeps(g, init, e);
      case Other(ts) => OtherKeeps(g, init, ts);
      case Tick => TickKeeps(g, init);
    }
  }

  /**
   For every arrival order, in bounds or not: each window that collects anything fires exactly
   once, with the events that arrived before it closed, and windows fire in order of time.
   */
  lemma EveryWindowFiresOnce(g: Geometry, ins: seq<Input>)
    requires g.Valid()
    ensures Ascending(Result(g, ins))
    ensures forall f :: f in Result(g, ins) <==> f.elements == Content(g, ins, f.start) && f.elements != []
  {
    var op := Play(g, ins);
    PlayKeepsInvariant(g, ins);
    DueAfterFired(g, ins, op.pending.Keys);
    FireIs(op.pending, op.pending.Keys);
    forall f ensures f in Result(g, ins) <==> f.elements == Content(g, ins, f.start) && f.elements != [] {
      assert f in Result(g, ins) <==> f in op.fired || f in Fire(op.pending, op.pending.Keys);
      assert f.start in op.pending || f.start !in op.pending;
    }
  }

  // ---------------------------------------------------------------- bounded disorder

  /** The greatest timestamp of the stream so far. */
  function Seen(ins: seq<Input>): Option<int> {
    if ins == [] then None
    else
      match ins[|ins| - 1]
      case Own(e) => Later(Seen(ins[..|ins| - 1]), e.capturedAt)
      case Other(ts) => Later(Seen(ins[..|ins| - 1]), ts)
      case Tick => Seen(ins[..|ins| - 1])
  }

  /** No event of this key is more than the bound older than one that arrived before it. */
  ghost predicate Bounded(g: Geometry, ins: seq<Input>) {
    ins != [] ==>
      var init, input := ins[..|ins| - 1], ins[|ins| - 1];
      Bounded(g, init) && (input.Own? && Seen(init).Some? ==> input.e.capturedAt >= Seen(init).value - g.bound)
  }

  lemma {:induction false} WatermarkTrails(g: Geometry, ins: seq<Input>)
    requires g.Valid()
    ensures Play(g, ins).seen == Seen(ins)
    ensures Play(g, ins).wm.Some? ==> Seen(ins).Some? && Play(g, ins).wm.value <= Seen(ins).value - g.bound - 1
  {
    if ins != [] {
      WatermarkTrails(g, ins[..|ins| - 1]);
    }
  }

  ghost function InWindowOf(g: Geometry, start: int): Reading -> bool
    requires g.Valid()
  {
    (e: Reading) => Holds(g, start, e)
  }

  /** Within the bound nothing is late: a window collects every event of its time. */
  lemma {:induction false} NothingIsLate(g: Geometry, ins: seq<Input>, start: int)
    requires g.Valid() && Bounded(g, ins)
    ensures Content(g, ins, start) == Filter(InWindowOf(g, start), Arrived(ins))
  {
    if ins != [] {
      var init := ins[..|ins| - 1];
      NothingIsLate(g, init, start);
      WatermarkTrails(g, init);
      if ins[|ins| - 1].Own? {
        assert Arrived(ins)[..|Arrived(init)|] == Arrived(init);
      }
    }
  }

  /** The bound is sharp: one millisecond more of disorder, and a window can miss its event. */
  lemma OneMillisecondTooLate(g: Geometry, early: Reading, late: Reading)
    requires g.Valid() && early.capturedAt == g.size + g.bound && late.capturedAt == early.capturedAt - (g.bound + 1)
    ensures var ins := [Own(early), Tick, Own(late)];
            Content(g, ins, 0) == [] && Filter(InWindowOf(g, 0), Arrived(ins)) == [late]
  {
    var one, two, ins := [Own(early)], [Own(early), Tick], [Own(early), Tick, Own(late)];
    assert one[..0] == [] && two[..1] == one && ins[..2] == two;
    assert Arrived(one) == [early] && Arrived(two) == [early] && Arrived(ins) == [early, late];
    assert [early, late][..1] == [early] && [early][..0] == [];
    assert Play(g, []).seen == None;
    assert Play(g, one).seen == Some(early.capturedAt) && Play(g, one).wm == None;
    assert Play(g, two).wm == Some(late.capturedAt);
    assert !Holds(g, 0, early) && Holds(g, 0, late) && Closed(g, 0, Play(g, two).wm);
    assert Filter(InWindowOf(g, 0), [early]) == [];
    assert Content(g, one, 0) == [] by {
      assert Content(g, [], 0) == [];
    }
    assert Content(g, two, 0) == [];
  }

  function AllStarts(g: Geometry, xs: seq<Reading>): set<int>
    requires g.Valid()
  {
    if xs == [] then {} else AllStarts(g, xs[..|xs| - 1]) + Starts(g, xs[|xs| - 1].capturedAt)
  }

  /** The batch computation: group all events by window, windows in order of time. */
  ghost function Batch(g: Geometry, xs: seq<Reading>): seq<Firing>
    requires g.Valid()
  {
    Fire(map s | s in AllStarts(g, xs) :: Filter(InWindowOf(g, s), xs), AllStarts(g, xs))
  }

  lemma {:induction false} StartsOfMembers(g: Geometry, xs: seq<Reading>, s: int)
    requires g.Valid()
    ensures s in AllStarts(g, xs) <==> Filter(InWindowOf(g, s), xs) != []
  {
    if xs != [] {
      StartsOfMembers(g, xs[..|xs| - 1], s);
    }
  }

  lemma BatchIs(g: Geometry, xs: seq<Reading>)
    requires g.Valid()
    ensures Ascending(Batch(g, xs))
    ensures forall f {:trigger f in Batch(g, xs)} ::
              f in Batch(g, xs) <==> f.elements == Filter(InWindowOf(g, f.start), xs) && f.elements != []
  {
    var groups := map s | s in AllStarts(g, xs) :: Filter(InWindowOf(g, s), xs);
    FireIs(groups, AllStarts(g, xs));
    forall f ensures f in Batch(g, xs) <==> f.elements == Filter(InWindowOf(g, f.start), xs) && f.elements != [] {
      StartsOfMembers(g, xs, f.start);
    }
  }

  lemma {:induction false} MembersByTime(g: Geometry, xs: seq<Reading>, start: int)
    requires g.Valid()
    ensures Filter(InWindowOf(g, start), xs)
            == if start % g.slide == 0 then Filter((e: Reading) => start <= e.capturedAt < start + g.size, xs) else []
  {
    if xs != [] {
      MembersByTime(g, xs[..|xs| - 1], start);
      StartsAre(g, xs[|xs| - 1].capturedAt, start);
    }
  }

  /** The batch by the times of the readings alone: each stretch on the grid that is not empty, with all that lies in it. */
  lemma BatchByTime(g: Geometry, xs: seq<Reading>, f: Firing)
    requires g.Valid()
    ensures f in Batch(g, xs) <==>
            && f.start % g.slide == 0 && f.elements != []
            && f.elements == Filter((e: Reading) => f.start <= e.capturedAt < f.start + g.size, xs)
  {
    BatchIs(g, xs);
    MembersByTime(g, xs, f.start);
  }

  lemma {:induction false} FirstIsEarliest(a: seq<Firing>, f: Firing)
    requires Ascending(a) && f in a
    ensures a[0] == f || a[0].start < f.start
  {
    var i :| 0 <= i < |a| && a[i] == f;
  }

  lemma NeitherEmpty(a: seq<Firing>, b: seq<Firing>)
    requires forall f {:trigger f in a} {:trigger f in b} :: f in a <==> f in b
    ensures a == [] <==> b == []
  {
    assert a != [] ==> a[0] in a;
    assert b != [] ==> b[0] in b;
  }

  /** Two lists of firings in order of time with the same members are the same list. */
  lemma {:induction false} AscendingUnique(a: seq<Firing>, b: seq<Firing>)
    requires Ascending(a) && Ascending(b)
    requires forall f {:trigger f in a} {:trigger f in b} :: f in a <==> f in b
    ensures a == b
  {
    NeitherEmpty(a, b);
    if a != [] && b != [] {
      FirstIsEarliest(a, b[0]);
      FirstIsEarliest(b, a[0]);
      forall f ensures f in a[1..] <==> f in b[1..] {
        InTail(a, f);
        InTail(b, f);
      }
      AscendingUnique(a[1..], b[1..]);
      assert a == [a[0]] + a[1..] && b == [b[0]] + b[1..];
    }
  }

  lemma {:induction false} InTail(a: seq<Firing>, f: Firing)
    requires Ascending(a) && a != []
    ensures f in a[1..] <==> f in a && f != a[0]
  {
    assert a == [a[0]] + a[1..];
    if f in a[1..] {
      var i :| 0 <= i < |a[1..]| && a[1..][i] == f;
      assert a[0].start < a[i + 1].start;
    }
  }

  /** Streaming windows equal batch windows, for every arrival order within the bound. */
  lemma StreamingEqualsBatch(g: Geometry, ins: seq<Input>)
    requires g.Valid() && Bounded(g, ins)
    ensures Result(g, ins) == Batch(g, Arrived(ins))
  {
    EveryWindowFiresOnce(g, ins);
    BatchIs(g, Arrived(ins));
    forall f ensures f in Result(g, ins) <==> f in Batch(g, Arrived(ins)) {
      NothingIsLate(g, ins, f.start);
    }
    AscendingUnique(Result(g, ins), Batch(g, Arrived(ins)));
  }

  /** The same windows fire, each with the same events, up to their order of arrival. */
  ghost predicate SameUpToOrder(a: seq<Firing>, b: seq<Firing>) {
    && |a| == |b|
    && forall i {:trigger a[i]} {:trigger b[i]} :: 0 <= i < |a| ==>
         a[i].start == b[i].start && multiset(a[i].elements) == multiset(b[i].elements)
  }

  lemma {:induction false} FireUpToOrder(p: map<int, seq<Reading>>, q: map<int, seq<Reading>>, due: set<int>)
    requires due <= p.Keys && due <= q.Keys
    requires forall s {:trigger p[s]} {:trigger q[s]} :: s in due ==> multiset(p[s]) == multiset(q[s])
    ensures SameUpToOrder(Fire(p, due), Fire(q, due))
    decreases due
  {
    if due != {} {
      FireUpToOrder(p, q, due - {MinOf(due)});
    }
  }

  lemma {:induction false} BatchUpToOrder(g: Geometry, xs: seq<Reading>, ys: seq<Reading>)
    requires g.Valid() && multiset(xs) == multiset(ys)
    ensures SameUpToOrder(Batch(g, xs), Batch(g, ys))
  {
    forall s ensures s in AllStarts(g, xs) <==> s in AllStarts(g, ys) {
      StartsOfMembers(g, xs, s);
      StartsOfMembers(g, ys, s);
      FilterMultiset(InWindowOf(g, s), xs, ys);
      var a, b := Filter(InWindowOf(g, s), xs), Filter(InWindowOf(g, s), ys);
      assert |a| == |multiset(a)| == |multiset(b)| == |b|;
    }
    assert AllStarts(g, xs) == AllStarts(g, ys);
    var p := map s | s in AllStarts(g, xs) :: Filter(InWindowOf(g, s), xs);
    var q := map s | s in AllStarts(g, ys) :: Filter(InWindowOf(g, s), ys);
    forall s | s in AllStarts(g, xs) ensures multiset(p[s]) == multiset(q[s]) {
      FilterMultiset(InWindowOf(g, s), xs, ys);
    }
    FireUpToOrder(p, q, AllStarts(g, xs));
  }

  /** Two arrival orders of the same events, both within the bound, fire the same windows. */
  lemma ArrivalOrderIrrelevant(g: Geometry, one: seq<Input>, other: seq<Input>)
    requires g.Valid() && Bounded(g, one) && Bounded(g, other) && multiset(Arrived(one)) == multiset(Arrived(other))
    ensures SameUpToOrder(Result(g, one), Result(g, other))
  {
    StreamingEqualsBatch(g, one);
    StreamingEqualsBatch(g, other);
    BatchUpToOrder(g, Arrived(one), Arrived(other));
  }
}
