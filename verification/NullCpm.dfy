/**
 Which readings without a CPM move the archive's count-weighted mean away from the mean of the
 readings: the blobs count them, their averages do not.
 */
module NullCpm {
  import opened Sequences
  import opened Statistics
  import opened ConfigOperators
  import opened WindowOperator
  import opened GeoAggregation

  /** What the archive keeps of the groups, with exact averages. */
  function ExactCells(groups: seq<seq<Reading>>): (cells: seq<Cell>)
    ensures |cells| == |groups|
  {
    if groups == [] then []
    else ExactCells(groups[..|groups| - 1]) + [Cell(MeanOf(Cpms(groups[|groups| - 1]), x => x), |groups[|groups| - 1]|)]
  }

  /** How many readings of the groups have a CPM. */
  function CpmCount(groups: seq<seq<Reading>>): nat {
    if groups == [] then 0 else CpmCount(groups[..|groups| - 1]) + |Cpms(groups[|groups| - 1])|
  }

  /** The archive's mean is the mean of all readings that have a CPM. */
  ghost predicate MeanAgrees(groups: seq<seq<Reading>>) {
    Cpms(Flatten(groups)) != [] && WeightedMean(ExactCells(groups)) == Some(Mean(Cpms(Flatten(groups))))
  }

  /** The same readings have a CPM in both, whatever it is. */
  ghost predicate SamePattern(a: seq<seq<Reading>>, b: seq<seq<Reading>>) {
    |a| == |b| &&
    (a != [] ==>
       && SameNulls(a[|a| - 1], b[|b| - 1])
       && SamePattern(a[..|a| - 1], b[..|b| - 1]))
  }

  ghost predicate SameNulls(xs: seq<Reading>, ys: seq<Reading>) {
    |xs| == |ys| &&
    (xs != [] ==> (xs[|xs| - 1].cpm.Some? <==> ys[|ys| - 1].cpm.Some?) && SameNulls(xs[..|xs| - 1], ys[..|ys| - 1]))
  }

  /** The share of readings with a CPM is `k` in `c` in every group. */
  ghost predicate EvenShare(groups: seq<seq<Reading>>, c: nat, k: nat) {
    groups != [] ==>
      && Scale(|groups[|groups| - 1]| as real, k) == Scale(|Cpms(groups[|groups| - 1])| as real, c)
      && EvenShare(groups[..|groups| - 1], c, k)
  }

  lemma {:induction false} PatternCounts(xs: seq<Reading>, ys: seq<Reading>)
    requires SameNulls(xs, ys)
    ensures |Cpms(xs)| == |Cpms(ys)|
  {
    if xs != [] {
      PatternCounts(xs[..|xs| - 1], ys[..|ys| - 1]);
    }
  }

  lemma {:induction false} EventsCounted(groups: seq<seq<Reading>>)
    ensures CountSum(ExactCells(groups)) == TotalCount(groups)
  {
    if groups != [] {
      EventsCounted(groups[..|groups| - 1]);
      assert ExactCells(groups)[..|groups| - 1] == ExactCells(groups[..|groups| - 1]);
    }
  }

  lemma {:induction false} CpmsCounted(groups: seq<seq<Reading>>)
    ensures CpmCount(groups) == |Cpms(Flatten(groups))| && CpmCount(groups) <= TotalCount(groups)
  {
    if groups != [] {
      CpmsCounted(groups[..|groups| - 1]);
      CpmsConcat(Flatten(groups[..|groups| - 1]), groups[|groups| - 1]);
      CpmsAtMost(groups[|groups| - 1]);
    }
  }

  lemma {:induction false} SomeAverage(groups: seq<seq<Reading>>) returns (i: nat)
    requires CpmCount(groups) > 0
    ensures i < |groups| && ExactCells(groups)[i].avg.Some?
  {
    i := |groups| - 1;
    if Cpms(groups[i]) == [] {
      i := SomeAverage(groups[..i]);
    }
  }

  lemma {:induction false} CpmsAtMost(events: seq<Reading>)
    ensures |Cpms(events)| <= |events|
  {
    if events != [] {
      CpmsAtMost(events[..|events| - 1]);
    }
  }

  // ---------------------------------------------------------------- agreement without division

  lemma CrossMultiply(w: real, s: real, c: nat, k: nat)
    requires c > 0 && k > 0
    ensures w / (c as real) == s / (k as real) <==> Scale(w, k) == Scale(s, c)
  {
    ScaleIsProduct(w, k);
    ScaleIsProduct(s, c);
    QuotientsEqual(w, s, c as real, k as real);
  }

  lemma QuotientsEqual(w: real, s: real, c: real, k: real)
    requires c > 0.0 && k > 0.0
    ensures w / c == s / k <==> w * k == s * c
  {
    var p, q := w / c, s / k;
    assert p * c == w && q * k == s;
    assert w * k == (p * c) * k && s * c == (q * k) * c;
    if w * k == s * c {
      CancelProduct(p, q, c, k);
    }
  }

  lemma CancelProduct(p: real, q: real, c: real, k: real)
    requires c > 0.0 && k > 0.0 && (p * c) * k == (q * k) * c
    ensures p == q
  {
    var r := c * k;
    PositiveProduct(c, k);
    assert (p * c) * k == p * r && (q * k) * c == q * r;
    assert (p * r) / r == p && (q * r) / r == q;
  }

  lemma PositiveProduct(c: real, k: real)
    requires c > 0.0 && k > 0.0
    ensures c * k > 0.0
  {
  }

  /** The archive's mean agrees exactly when the weighted sum and the sum are in the ratio of the counts. */
  lemma AgreesIff(groups: seq<seq<Reading>>)
    requires CpmCount(groups) > 0
    ensures MeanAgrees(groups) <==>
            Scale(WeightedSum(ExactCells(groups)), CpmCount(groups)) == Scale(GroupSums(groups), TotalCount(groups))
  {
    EventsCounted(groups);
    CpmsCounted(groups);
    var i := SomeAverage(groups);
    FlattenSums(groups);
    CrossMultiply(WeightedSum(ExactCells(groups)), GroupSums(groups), TotalCount(groups), CpmCount(groups));
  }

  // ---------------------------------------------------------------- an even share is enough

  lemma ShareOfGroup(avg: real, sum: real, events: nat, cpms: nat, c: nat, k: nat)
    requires Scale(avg, cpms) == sum && Scale(events as real, k) == Scale(cpms as real, c)
    ensures Scale(Scale(avg, events), k) == Scale(sum, c)
  {
    ScaleIsProduct(avg, cpms);
    ScaleIsProduct(events as real, k);
    ScaleIsProduct(cpms as real, c);
    ScaleIsProduct(avg, events);
    ScaleIsProduct(Scale(avg, events), k);
    ScaleIsProduct(sum, c);
    Regroup(avg, events as real, cpms as real, c as real, k as real);
  }

  lemma Regroup(a: real, e: real, n: real, c: real, k: real)
    requires e * k == n * c
    ensures (a * e) * k == (a * n) * c
  {
    assert (a * e) * k == a * (e * k);
    assert (a * n) * c == a * (n * c);
  }

  lemma {:induction false} ScaleZero(n: nat)
    ensures Scale(0.0, n) == 0.0
  {
    if n > 0 {
      ScaleZero(n - 1);
    }
  }

  /** What one group adds to the weighted sum. */
  function GroupWeight(events: seq<Reading>): real {
    if Cpms(events) == [] then 0.0 else Scale(Mean(Cpms(events)), |events|)
  }

  lemma WeightedSumStep(groups: seq<seq<Reading>>)
    requires groups != []
    ensures WeightedSum(ExactCells(groups))
            == WeightedSum(ExactCells(groups[..|groups| - 1])) + GroupWeight(groups[|groups| - 1])
  {
    var cells := ExactCells(groups);
    assert cells[..|cells| - 1] == ExactCells(groups[..|groups| - 1]);
  }

  lemma GroupInRatio(events: seq<Reading>, c: nat, k: nat)
    requires Scale(|events| as real, k) == Scale(|Cpms(events)| as real, c)
    ensures Scale(GroupWeight(events), k) == Scale(Sum(Cpms(events)), c)
  {
    if Cpms(events) == [] {
      ScaleZero(k);
      ScaleZero(c);
    } else {
      MeanIsMean(Cpms(events));
      ShareOfGroup(Mean(Cpms(events)), Sum(Cpms(events)), |events|, |Cpms(events)|, c, k);
    }
  }

  lemma {:induction false} EvenShareKeepsRatio(groups: seq<seq<Reading>>, c: nat, k: nat)
    requires EvenShare(groups, c, k)
    ensures Scale(WeightedSum(ExactCells(groups)), k) == Scale(GroupSums(groups), c)
  {
    if groups == [] {
      ScaleZero(c);
      ScaleZero(k);
    } else {
      var init, last := groups[..|groups| - 1], groups[|groups| - 1];
      EvenShareKeepsRatio(init, c, k);
      WeightedSumStep(groups);
      GroupInRatio(last, c, k);
      ScaleAdds(WeightedSum(ExactCells(init)), GroupWeight(last), k);
      ScaleAdds(GroupSums(init), Sum(Cpms(last)), c);
    }
  }

  lemma {:induction false} PatternKeepsShare(a: seq<seq<Reading>>, b: seq<seq<Reading>>, c: nat, k: nat)
    requires SamePattern(a, b)
    ensures EvenShare(a, c, k) <==> EvenShare(b, c, k)
    ensures TotalCount(a) == TotalCount(b) && CpmCount(a) == CpmCount(b)
  {
    if a != [] {
      PatternKeepsShare(a[..|a| - 1], b[..|b| - 1], c, k);
      PatternCounts(a[|a| - 1], b[|b| - 1]);
    }
  }

  // ---------------------------------------------------------------- and needed

  /** The readings of a group that have a CPM, all set to `v`. */
  function SetAll(events: seq<Reading>, v: real): (ys: seq<Reading>)
    ensures |ys| == |events|
  {
    if events == [] then []
    else
      var last := events[|events| - 1];
      SetAll(events[..|events| - 1], v) + [if last.cpm.Some? then last.(cpm := Some(v)) else last]
  }

  lemma {:induction false} SetAllIs(events: seq<Reading>, v: real)
    ensures SameNulls(events, SetAll(events, v))
    ensures |Cpms(SetAll(events, v))| == |Cpms(events)|
    ensures Sum(Cpms(SetAll(events, v))) == Scale(v, |Cpms(events)|)
  {
    if events != [] {
      var init, ys := events[..|events| - 1], SetAll(events, v);
      SetAllIs(init, v);
      assert ys[..|ys| - 1] == SetAll(init, v);
      var before := Cpms(SetAll(init, v));
      assert (before + [v])[..|before|] == before;
    }
  }

  lemma WeightOfConstant(events: seq<Reading>, v: real)
    ensures GroupWeight(SetAll(events, v)) == if Cpms(events) == [] then 0.0 else Scale(v, |events|)
  {
    SetAllIs(events, v);
    if Cpms(events) != [] {
      var ys := Cpms(SetAll(events, v));
      MeanIsMean(ys);
      ScaleInjective(Mean(ys), v, |ys|);
    }
  }

  /** Group `only` with every CPM 1 and all other groups with every CPM 0; all of them 1 when it is none. */
  function Mark(groups: seq<seq<Reading>>, only: int): (marked: seq<seq<Reading>>)
    ensures |marked| == |groups|
  {
    if groups == [] then []
    else
      Mark(groups[..|groups| - 1], only)
      + [SetAll(groups[|groups| - 1], if only < 0 || only == |groups| - 1 then 1.0 else 0.0)]
  }

  lemma {:induction false} MarkKeepsPattern(groups: seq<seq<Reading>>, only: int)
    ensures SamePattern(groups, Mark(groups, only))
  {
    if groups != [] {
      var marked := Mark(groups, only);
      MarkKeepsPattern(groups[..|groups| - 1], only);
      assert marked[..|marked| - 1] == Mark(groups[..|groups| - 1], only);
      SetAllIs(groups[|groups| - 1], if only < 0 || only == |groups| - 1 then 1.0 else 0.0);
    }
  }

  /** The number of events in the groups whose average is not null. */
  function CountedEvents(groups: seq<seq<Reading>>): nat {
    if groups == [] then 0
    else
      CountedEvents(groups[..|groups| - 1]) + if Cpms(groups[|groups| - 1]) == [] then 0 else |groups[|groups| - 1]|
  }

  lemma MarkStep(groups: seq<seq<Reading>>, only: int)
    requires groups != []
    ensures var v := if only < 0 || only == |groups| - 1 then 1.0 else 0.0;
            var init, last := groups[..|groups| - 1], groups[|groups| - 1];
            && WeightedSum(ExactCells(Mark(groups, only)))
               == WeightedSum(ExactCells(Mark(init, only))) + (if Cpms(last) == [] then 0.0 else Scale(v, |last|))
            && GroupSums(Mark(groups, only)) == GroupSums(Mark(init, only)) + Scale(v, |Cpms(last)|)
  {
    var v := if only < 0 || only == |groups| - 1 then 1.0 else 0.0;
    var marked := Mark(groups, only);
    assert marked[..|marked| - 1] == Mark(groups[..|groups| - 1], only);
    WeightedSumStep(marked);
    WeightOfConstant(groups[|groups| - 1], v);
    SetAllIs(groups[|groups| - 1], v);
  }

  lemma {:induction false} ScaleOne(n: nat)
    ensures Scale(1.0, n) == n as real
  {
    if n > 0 {
      ScaleOne(n - 1);
    }
  }

  lemma {:induction false} SumsOfAll(groups: seq<seq<Reading>>)
    ensures WeightedSum(ExactCells(Mark(groups, -1))) == CountedEvents(groups) as real
    ensures GroupSums(Mark(groups, -1)) == CpmCount(groups) as real
  {
    if groups != [] {
      SumsOfAll(groups[..|groups| - 1]);
      MarkStep(groups, -1);
      ScaleOne(|groups[|groups| - 1]|);
      ScaleOne(|Cpms(groups[|groups| - 1])|);
    }
  }

  lemma {:induction false} SumsOfOne(groups: seq<seq<Reading>>, only: nat)
    ensures WeightedSum(ExactCells(Mark(groups, only)))
            == if only < |groups| && Cpms(groups[only]) != [] then |groups[only]| as real else 0.0
    ensures GroupSums(Mark(groups, only)) == if only < |groups| then |Cpms(groups[only])| as real else 0.0
  {
    if groups != [] {
      var last := groups[|groups| - 1];
      SumsOfOne(groups[..|groups| - 1], only);
      MarkStep(groups, only);
      ScaleOne(|last|);
      ScaleOne(|Cpms(last)|);
      ScaleZero(|last|);
      ScaleZero(|Cpms(last)|);
    }
  }

  lemma {:induction false} CountedAtMost(groups: seq<seq<Reading>>)
    ensures CountedEvents(groups) <= TotalCount(groups)
    ensures forall i :: 0 <= i < |groups| && Cpms(groups[i]) == [] && groups[i] != [] ==> CountedEvents(groups) < TotalCount(groups)
  {
    if groups != [] {
      var init := groups[..|groups| - 1];
      CountedAtMost(init);
      assert forall i :: 0 <= i < |init| ==> groups[i] == init[i];
    }
  }

  lemma {:induction false} ScaleCommutes(m: nat, n: nat)
    ensures Scale(m as real, n) == Scale(n as real, m)
  {
    ScaleIsProduct(m as real, n);
    ScaleIsProduct(n as real, m);
  }

  /** When every choice of values agrees, each group has the even share. */
  lemma ShareIsNeeded(groups: seq<seq<Reading>>, i: nat)
    requires CpmCount(groups) > 0 && i < |groups|
    requires MeanAgrees(Mark(groups, i)) && MeanAgrees(Mark(groups, -1))
    ensures Scale(|groups[i]| as real, CpmCount(groups)) == Scale(|Cpms(groups[i])| as real, TotalCount(groups))
  {
    var c, k := TotalCount(groups), CpmCount(groups);
    MarkKeepsPattern(groups, i);
    PatternKeepsShare(groups, Mark(groups, i), c, k);
    AgreesIff(Mark(groups, i));
    SumsOfOne(groups, i);
    if Cpms(groups[i]) == [] {
      MarkKeepsPattern(groups, -1);
      PatternKeepsShare(groups, Mark(groups, -1), c, k);
      AgreesIff(Mark(groups, -1));
      SumsOfAll(groups);
      ScaleCommutes(k, c);
      ScaleInjective(CountedEvents(groups) as real, c as real, k);
      CountedAtMost(groups);
      ScaleZero(c);
      ScaleZero(k);
    }
  }

  lemma {:induction false} EvenShareAt(groups: seq<seq<Reading>>, c: nat, k: nat)
    ensures EvenShare(groups, c, k) <==>
            forall i {:trigger groups[i]} :: 0 <= i < |groups| ==> Scale(|groups[i]| as real, k) == Scale(|Cpms(groups[i])| as real, c)
  {
    if groups != [] {
      var init := groups[..|groups| - 1];
      EvenShareAt(init, c, k);
      assert forall i {:trigger groups[i]} {:trigger init[i]} :: 0 <= i < |init| ==> groups[i] == init[i];
    }
  }

  /** Of `c` readings and `k` CPM values in all, each group has its share: c(i) * k == k(i) * c. */
  ghost predicate Proportional(groups: seq<seq<Reading>>) {
    forall i {:trigger groups[i]} :: 0 <= i < |groups| ==>
      |groups[i]| * CpmCount(groups) == |Cpms(groups[i])| * TotalCount(groups)
  }

  lemma ScaledCounts(m: nat, n: nat, c: nat, k: nat)
    ensures Scale(m as real, k) == Scale(n as real, c) <==> m * k == n * c
  {
    ScaleIsProduct(m as real, k);
    ScaleIsProduct(n as real, c);
    assert (m as real) * (k as real) == (m * k) as real;
    assert (n as real) * (c as real) == (n * c) as real;
  }

  lemma ProportionalIff(groups: seq<seq<Reading>>)
    ensures Proportional(groups) <==> EvenShare(groups, TotalCount(groups), CpmCount(groups))
  {
    var c, k := TotalCount(groups), CpmCount(groups);
    EvenShareAt(groups, c, k);
    forall i {:trigger groups[i]} | 0 <= i < |groups|
      ensures Scale(|groups[i]| as real, k) == Scale(|Cpms(groups[i])| as real, c) <==> |groups[i]| * k == |Cpms(groups[i])| * c
    {
      ScaledCounts(|groups[i]|, |Cpms(groups[i])|, c, k);
    }
  }

  /**
   Which pattern of null CPMs is harmless: the archive's mean is the mean of the readings for
   every choice of values exactly when each blob has its proportional share of the values.
   */
  lemma NullPatternIsHarmlessIff(groups: seq<seq<Reading>>)
    requires CpmCount(groups) > 0
    ensures Proportional(groups) <==> forall choice :: SamePattern(groups, choice) ==> MeanAgrees(choice)
  {
    var c, k := TotalCount(groups), CpmCount(groups);
    ProportionalIff(groups);
    if Proportional(groups) {
      forall choice | SamePattern(groups, choice) ensures MeanAgrees(choice) {
        PatternKeepsShare(groups, choice, c, k);
        EvenShareKeepsRatio(choice, c, k);
        AgreesIff(choice);
      }
    }
    if forall choice :: SamePattern(groups, choice) ==> MeanAgrees(choice) {
      MarkKeepsPattern(groups, -1);
      forall i {:trigger groups[i]} | 0 <= i < |groups|
        ensures Scale(|groups[i]| as real, k) == Scale(|Cpms(groups[i])| as real, c)
      {
        MarkKeepsPattern(groups, i);
        ShareIsNeeded(groups, i);
      }
      EvenShareAt(groups, c, k);
    }
  }

  /** With no null CPM every pattern is proportional, and so is any single blob. */
  lemma {:induction false} ProportionalCases(groups: seq<seq<Reading>>)
    ensures (forall i {:trigger groups[i]} :: 0 <= i < |groups| ==> |Cpms(groups[i])| == |groups[i]|) ==> Proportional(groups)
    ensures |groups| == 1 ==> Proportional(groups)
  {
    if |groups| == 1 {
      assert groups == [groups[0]];
      OneGroup(groups[0]);
    }
    if forall i {:trigger groups[i]} :: 0 <= i < |groups| ==> |Cpms(groups[i])| == |groups[i]| {
      NoNullCounts(groups);
    }
  }

  lemma OneGroup(a: seq<Reading>)
    ensures TotalCount([a]) == |a| && CpmCount([a]) == |Cpms(a)|
  {
    assert [a][..0] == [];
    assert TotalCount([]) == 0 && CpmCount([]) == 0;
  }

  lemma TwoGroups(a: seq<Reading>, b: seq<Reading>)
    ensures TotalCount([a, b]) == |a| + |b| && CpmCount([a, b]) == |Cpms(a)| + |Cpms(b)|
  {
    OneGroup(a);
    assert [a, b][..1] == [a];
  }

  lemma {:induction false} NoNullCounts(groups: seq<seq<Reading>>)
    requires forall i {:trigger groups[i]} :: 0 <= i < |groups| ==> |Cpms(groups[i])| == |groups[i]|
    ensures CpmCount(groups) == TotalCount(groups)
  {
    if groups != [] {
      var init := groups[..|groups| - 1];
      assert forall i {:trigger init[i]} :: 0 <= i < |init| ==> init[i] == groups[i];
      NoNullCounts(init);
    }
  }

  /** One null CPM in one of two blobs: its pattern is not proportional, and these values show it. */
  lemma OneNullIsNotProportional(one: Reading, absent: Reading, two: Reading)
    requires one.cpm == Some(10.0) && absent.cpm.None? && two.cpm == Some(40.0)
    ensures !Proportional([[one, absent], [two]])
    ensures WeightedMean([Cell(Some(10.0), 2), Cell(Some(40.0), 1)]) == Some(20.0)
    ensures IsMean(Cpms([one, absent, two]), 25.0)
  {
    var groups := [[one, absent], [two]];
    NullCpmBiasesTheMean(one, absent, two);
    TwoGroups([one, absent], [two]);
    assert |Cpms([one, absent])| == 1 && |Cpms([two])| == 1 by {
      assert [one, absent][..1] == [one] && [one][..0] == [] && [two][..0] == [];
      assert Cpms([one]) == [10.0];
    }
    assert |groups[0]| * CpmCount(groups) != |Cpms(groups[0])| * TotalCount(groups);
  }
}
