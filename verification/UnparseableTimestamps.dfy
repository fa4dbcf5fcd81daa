/**
 What a record with an unparseable timestamp does to the windows of a key: it is stamped with
 the epoch, so it can only push the watermark to the epoch minus the bound.
 */
module UnparseableTimestamps {
  import opened Sequences
  import opened EventTimeWindows
  import opened WindowOperator

  /** The stream with an unparseable record of another key between `a` and `b`. */
  function With(a: seq<Input>, b: seq<Input>): seq<Input> {
    a + [Other(ExtractTimestamp(None))] + b
  }

  /** The watermark that lets the epoch through. */
  function EpochWatermark(g: Geometry): int {
    -g.bound - 1
  }

  lemma WithSnoc(a: seq<Input>, b: seq<Input>)
    requires b != []
    ensures var init, last := b[..|b| - 1], b[|b| - 1];
            && a + b == (a + init) + [last] && (a + b)[..|a + b| - 1] == a + init
            && With(a, b) == With(a, init) + [last] && With(a, b)[..|With(a, b)| - 1] == With(a, init)
  {
  }

  lemma WithNothing(a: seq<Input>)
    ensures With(a, [])[..|a|] == a && With(a, [])[|a|] == Other(0) && |With(a, [])| == |a| + 1 && a + [] == a
  {
  }

  /** `wide` runs with the record, `op` without; `ticked` says that a watermark was emitted since. */
  predicate Beside(g: Geometry, wide: Op, op: Op, ticked: bool) {
    && wide.seen == Later(op.seen, 0)
    && wide.wm == if ticked then Later(op.wm, EpochWatermark(g)) else op.wm
  }

  lemma StepBeside(g: Geometry, wide: Op, op: Op, ticked: bool, input: Input)
    requires g.Valid() && Beside(g, wide, op, ticked)
    ensures Beside(g, Step(g, wide, input), Step(g, op, input), ticked || input == Tick)
  {
  }

  lemma PlaySnoc(g: Geometry, ins: seq<Input>)
    requires g.Valid() && ins != []
    ensures Play(g, ins) == Step(g, Play(g, ins[..|ins| - 1]), ins[|ins| - 1])
  {
  }

  lemma TickSnoc(b: seq<Input>)
    requires b != []
    ensures Tick in b <==> Tick in b[..|b| - 1] || b[|b| - 1] == Tick
  {
    assert b == b[..|b| - 1] + [b[|b| - 1]];
  }

  lemma {:induction false} RunsBeside(g: Geometry, a: seq<Input>, b: seq<Input>)
    requires g.Valid()
    ensures Beside(g, Play(g, With(a, b)), Play(g, a + b), Tick in b)
  {
    if b == [] {
      WithNothing(a);
      PlaySnoc(g, With(a, b));
    } else {
      WithSnoc(a, b);
      TickSnoc(b);
      PlaySnoc(g, With(a, b));
      PlaySnoc(g, a + b);
      RunsBeside(g, a, b[..|b| - 1]);
      StepBeside(g, Play(g, With(a, b[..|b| - 1])), Play(g, a + b[..|b| - 1]), Tick in b[..|b| - 1], b[|b| - 1]);
    }
  }

  /** From the insertion on the greatest timestamp is at least the epoch, and the next emitted watermark shows it. */
  lemma WatermarkWith(g: Geometry, a: seq<Input>, b: seq<Input>)
    requires g.Valid()
    ensures Play(g, With(a, b)).seen == Later(Play(g, a + b).seen, 0)
    ensures Play(g, With(a, b)).wm
            == if Tick in b then Later(Play(g, a + b).wm, EpochWatermark(g)) else Play(g, a + b).wm
  {
    RunsBeside(g, a, b);
  }

  /**
   Event `i` of `b` is lost to the window: it is the key's, a watermark was emitted between the
   record and it, the window ended by the epoch minus the bound, and without the record the
   window would still be open.
   */
  ghost predicate LosesAt(g: Geometry, a: seq<Input>, b: seq<Input>, start: int, i: nat)
    requires g.Valid() && i < |b|
  {
    && b[i].Own? && Holds(g, start, b[i].e)
    && Tick in b[..i] && start + g.size <= -g.bound
    && !Closed(g, start, Play(g, a + b[..i]).wm)
  }

  ghost predicate Loses(g: Geometry, a: seq<Input>, b: seq<Input>, start: int)
    requires g.Valid()
  {
    exists i: nat :: i < |b| && LosesAt(g, a, b, start, i)
  }

  lemma LosesSnoc(g: Geometry, a: seq<Input>, b: seq<Input>, start: int)
    requires g.Valid() && b != []
    ensures Loses(g, a, b, start) <==> Loses(g, a, b[..|b| - 1], start) || LosesAt(g, a, b, start, |b| - 1)
  {
    var init := b[..|b| - 1];
    forall i: nat | i < |init| ensures LosesAt(g, a, b, start, i) <==> LosesAt(g, a, init, start, i) {
      assert init[..i] == b[..i];
    }
  }

  /** Whether the last event is lost is what the two watermarks say about its window. */
  lemma LastIsLost(g: Geometry, a: seq<Input>, b: seq<Input>, start: int)
    requires g.Valid() && b != [] && b[|b| - 1].Own? && Holds(g, start, b[|b| - 1].e)
    ensures var init := b[..|b| - 1];
            var before, without := Closed(g, start, Play(g, With(a, init)).wm), Closed(g, start, Play(g, a + init).wm);
            && (without ==> before)
            && (LosesAt(g, a, b, start, |b| - 1) <==> before && !without)
  {
    WatermarkWith(g, a, b[..|b| - 1]);
  }

  /** A window collects a part of what it would have collected, and all of it exactly when it loses no event. */
  lemma {:induction false} ContentWith(g: Geometry, a: seq<Input>, b: seq<Input>, start: int)
    requires g.Valid()
    ensures |Content(g, With(a, b), start)| <= |Content(g, a + b, start)|
    ensures Content(g, With(a, b), start) == Content(g, a + b, start) <==> !Loses(g, a, b, start)
  {
    if b == [] {
      WithNothing(a);
    } else {
      var init, last := b[..|b| - 1], b[|b| - 1];
      WithSnoc(a, b);
      LosesSnoc(g, a, b, start);
      ContentWith(g, a, init, start);
      if last.Own? && Holds(g, start, last.e) {
        LastIsLost(g, a, b, start);
        SnocInjective(Content(g, With(a, init), start), Content(g, a + init, start), last.e);
      }
    }
  }

  lemma SnocInjective(xs: seq<Reading>, ys: seq<Reading>, e: Reading)
    ensures xs + [e] == ys + [e] <==> xs == ys
  {
    assert (xs + [e])[..|xs|] == xs && (ys + [e])[..|ys|] == ys;
    assert xs + [e] == ys + [e] ==> |xs| == |ys|;
  }

  ghost predicate CollectTheSame(g: Geometry, one: seq<Input>, other: seq<Input>)
    requires g.Valid()
  {
    forall s {:trigger Content(g, one, s)} {:trigger Content(g, other, s)} :: Content(g, one, s) == Content(g, other, s)
  }

  lemma SameContentsSameResult(g: Geometry, one: seq<Input>, other: seq<Input>)
    requires g.Valid() && CollectTheSame(g, one, other)
    ensures Result(g, one) == Result(g, other)
  {
    EveryWindowFiresOnce(g, one);
    EveryWindowFiresOnce(g, other);
    forall f ensures f in Result(g, one) <==> f in Result(g, other) {
      assert Content(g, one, f.start) == Content(g, other, f.start);
    }
    AscendingUnique(Result(g, one), Result(g, other));
  }

  lemma FiringOf(g: Geometry, ins: seq<Input>, s: int, xs: seq<Reading>)
    requires g.Valid()
    ensures Firing(s, xs) in Result(g, ins) <==> xs == Content(g, ins, s) && xs != []
  {
    EveryWindowFiresOnce(g, ins);
    assert Firing(s, xs).start == s && Firing(s, xs).elements == xs;
  }

  lemma SameResultSameContent(g: Geometry, one: seq<Input>, other: seq<Input>, s: int)
    requires g.Valid() && Result(g, one) == Result(g, other)
    ensures Content(g, one, s) == Content(g, other, s)
  {
    var xs, ys := Content(g, one, s), Content(g, other, s);
    FiringOf(g, one, s, xs);
    FiringOf(g, other, s, xs);
    FiringOf(g, one, s, ys);
    FiringOf(g, other, s, ys);
  }

  /** Two streams fire the same windows exactly when every window collects the same. */
  lemma ResultsAgreeIff(g: Geometry, one: seq<Input>, other: seq<Input>)
    requires g.Valid()
    ensures Result(g, one) == Result(g, other) <==> CollectTheSame(g, one, other)
  {
    if CollectTheSame(g, one, other) {
      SameContentsSameResult(g, one, other);
    }
    if Result(g, one) == Result(g, other) {
      forall s ensures Content(g, one, s) == Content(g, other, s) {
        SameResultSameContent(g, one, other, s);
      }
    }
  }

  /**
   An unparseable record changes what the operator emits if and only if, after a watermark
   emitted behind the record, an event arrives for a window that ended more than the bound
   before the epoch and that the other records had not closed.
   */
  lemma UnparseableIsHarmlessIff(g: Geometry, a: seq<Input>, b: seq<Input>)
    requires g.Valid()
    ensures Result(g, With(a, b)) == Result(g, a + b) <==> forall s :: !Loses(g, a, b, s)
  {
    ResultsAgreeIff(g, With(a, b), a + b);
    forall s ensures Content(g, With(a, b), s) == Content(g, a + b, s) <==> !Loses(g, a, b, s) {
      ContentWith(g, a, b, s);
    }
  }

  /** Once something at or after the epoch was seen, an emitted watermark lets at most the epoch through. */
  lemma {:induction false} WatermarkSince(g: Geometry, a: seq<Input>, b: seq<Input>)
    requires g.Valid() && Seen(a).Some? && Seen(a).value >= 0
    ensures Play(g, a + b).seen.Some? && Play(g, a + b).seen.value >= 0
    ensures Tick in b ==> Play(g, a + b).wm.Some? && Play(g, a + b).wm.value >= EpochWatermark(g)
  {
    if b == [] {
      WatermarkTrails(g, a);
      assert a + b == a;
    } else {
      WithSnoc(a, b);
      WatermarkSince(g, a, b[..|b| - 1]);
      TickSnoc(b);
      PlaySnoc(g, a + b);
    }
  }

  /** On a stream that has reached the epoch an unparseable record has no effect, whatever follows. */
  lemma HarmlessAfterTheEpoch(g: Geometry, a: seq<Input>, b: seq<Input>)
    requires g.Valid() && Seen(a).Some? && Seen(a).value >= 0
    ensures Result(g, With(a, b)) == Result(g, a + b)
  {
    forall s ensures !Loses(g, a, b, s) {
      forall i: nat | i < |b| ensures !LosesAt(g, a, b, s, i) {
        WatermarkSince(g, a, b[..i]);
      }
    }
    UnparseableIsHarmlessIff(g, a, b);
  }

  lemma {:induction false} OwnHasArrived(ins: seq<Input>, i: nat)
    requires i < |ins| && ins[i].Own?
    ensures ins[i].e in Arrived(ins)
  {
    if i < |ins| - 1 {
      assert ins[i] == ins[..|ins| - 1][i];
      OwnHasArrived(ins[..|ins| - 1], i);
    }
  }

  /** It has none on a key whose events all lie after the epoch minus the bound, wherever it arrives. */
  lemma HarmlessForRecentEvents(g: Geometry, a: seq<Input>, b: seq<Input>)
    requires g.Valid() && forall e :: e in Arrived(b) ==> e.capturedAt >= -g.bound
    ensures Result(g, With(a, b)) == Result(g, a + b)
  {
    forall s ensures !Loses(g, a, b, s) {
      forall i: nat | i < |b| ensures !LosesAt(g, a, b, s, i) {
        if b[i].Own? {
          OwnHasArrived(b, i);
        }
      }
    }
    UnparseableIsHarmlessIff(g, a, b);
  }

  lemma FirstOfStream(g: Geometry, e: Reading)
    requires g.Valid()
    ensures var b := [Tick, Own(e)];
            b[..1] == [Tick] && [] + b[..1] == [Tick] && Play(g, [Tick]).wm == None
  {
    assert [Tick][..0] == [];
    assert Play(g, []).seen == None && Play(g, []).wm == None;
  }

  /**
   The witness: as the first record of a stream, with a watermark emitted behind it, it costs the
   event that follows exactly when a window of that event ended by the epoch minus the bound.
   */
  lemma CostsTheFirstEventIff(g: Geometry, e: Reading)
    requires g.Valid()
    ensures var b := [Tick, Own(e)];
            Result(g, With([], b)) != Result(g, [] + b)
            <==> exists s :: Holds(g, s, e) && s + g.size <= -g.bound
  {
    var b := [Tick, Own(e)];
    FirstOfStream(g, e);
    assert b[1] == Own(e) && Tick in b[..1] && b[0] == Tick;
    UnparseableIsHarmlessIff(g, [], b);
    forall s ensures Loses(g, [], b, s) <==> Holds(g, s, e) && s + g.size <= -g.bound {
      assert !LosesAt(g, [], b, s, 0);
      assert LosesAt(g, [], b, s, 1) <==> Holds(g, s, e) && s + g.size <= -g.bound;
    }
  }
}
