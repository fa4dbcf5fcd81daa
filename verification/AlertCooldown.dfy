/** The per-sensor cooldown: an alert suppresses the candidates that end too soon after it. */
module AlertCooldown {
  import opened Sequences
  import opened AlertDetection

  predicate IsWithinCooldown(lastEmittedEnd: int, candidateEnd: int, cooldownSeconds: int) {
    candidateEnd - lastEmittedEnd < cooldownSeconds * 1000
  }

  predicate Suppressed(last: Option<int>, candidateEnd: int, cooldownSeconds: int) {
    last.Some? && IsWithinCooldown(last.value, candidateEnd, cooldownSeconds)
  }

  /** What a sensor emits for its candidates, after an alert that ended at `last`, if any. */
  function Emitted(candidates: seq<Alert>, last: Option<int>, cooldownSeconds: int): seq<Alert> {
    if candidates == [] then []
    else if Suppressed(last, candidates[0].windowEnd, cooldownSeconds) then Emitted(candidates[1..], last, cooldownSeconds)
    else [candidates[0]] + Emitted(candidates[1..], Some(candidates[0].windowEnd), cooldownSeconds)
  }

  function LastEnd(emitted: seq<Alert>, last: Option<int>): Option<int> {
    if emitted == [] then last else Some(emitted[|emitted| - 1].windowEnd)
  }

  class AlertCooldownOperator {
    const cooldownSeconds: int
    var lastEmittedEnd: Option<int>
    ghost var candidates: seq<Alert>

    ghost predicate Valid()
      reads this
    {
      lastEmittedEnd == LastEnd(Emitted(candidates, None, cooldownSeconds), None)
    }

    constructor (cooldownSeconds: int)
      ensures Valid() && candidates == [] && this.cooldownSeconds == cooldownSeconds
    {
      this.cooldownSeconds, lastEmittedEnd, candidates := cooldownSeconds, None, [];
    }

    method ProcessElement(alert: Alert) returns (out: seq<Alert>)
      requires Valid()
      modifies this
      ensures Valid() && candidates == old(candidates) + [alert]
      ensures Emitted(candidates, None, cooldownSeconds) == Emitted(old(candidates), None, cooldownSeconds) + out
    {
      EmittedAppend(candidates, alert, None, cooldownSeconds);
      candidates := candidates + [alert];
      if lastEmittedEnd.Some? && IsWithinCooldown(lastEmittedEnd.value, alert.windowEnd, cooldownSeconds) {
        return [];
      }
      lastEmittedEnd := Some(alert.windowEnd);
      out := [alert];
    }
  }

  lemma {:induction false} EmittedAppend(candidates: seq<Alert>, a: Alert, last: Option<int>, cooldownSeconds: int)
    ensures var before := Emitted(candidates, last, cooldownSeconds);
            Emitted(candidates + [a], last, cooldownSeconds)
            == before + if Suppressed(LastEnd(before, last), a.windowEnd, cooldownSeconds) then [] else [a]
  {
    if candidates != [] {
      var c := candidates[0];
      assert (candidates + [a])[1..] == candidates[1..] + [a];
      if Suppressed(last, c.windowEnd, cooldownSeconds) {
        EmittedAppend(candidates[1..], a, last, cooldownSeconds);
      } else {
        EmittedAppend(candidates[1..], a, Some(c.windowEnd), cooldownSeconds);
      }
    }
  }

  // ---------------------------------------------------------------- gaps

  /** Each alert ends at least one cooldown after the one before it. */
  ghost predicate Spaced(alerts: seq<Alert>, last: Option<int>, cooldownSeconds: int) {
    && (alerts != [] ==> !Suppressed(last, alerts[0].windowEnd, cooldownSeconds))
    && forall i {:trigger alerts[i]} :: 1 <= i < |alerts| ==>
         alerts[i].windowEnd - alerts[i - 1].windowEnd >= cooldownSeconds * 1000
  }

  /** For any order of candidates the emitted ends rise by at least the cooldown. */
  lemma {:induction false} EmittedSpaced(candidates: seq<Alert>, last: Option<int>, cooldownSeconds: int)
    ensures Spaced(Emitted(candidates, last, cooldownSeconds), last, cooldownSeconds)
    decreases |candidates|
  {
    if candidates != [] {
      var c := candidates[0];
      if Suppressed(last, c.windowEnd, cooldownSeconds) {
        EmittedSpaced(candidates[1..], last, cooldownSeconds);
      } else {
        EmittedSpaced(candidates[1..], Some(c.windowEnd), cooldownSeconds);
        var rest := Emitted(candidates[1..], Some(c.windowEnd), cooldownSeconds);
        var all := Emitted(candidates, last, cooldownSeconds);
        forall i | 1 <= i < |all| ensures all[i].windowEnd - all[i - 1].windowEnd >= cooldownSeconds * 1000 {
          assert all[i] == rest[i - 1];
        }
      }
    }
  }

  /**
   For any order, a suppressed candidate ends less than one cooldown after, or before, an
   alert already emitted when it came.
   */
  lemma {:induction false} SuppressedHasReason(candidates: seq<Alert>, n: nat, cooldownSeconds: int)
    requires n < |candidates|
    requires Emitted(candidates[..n + 1], None, cooldownSeconds) == Emitted(candidates[..n], None, cooldownSeconds)
    ensures exists e :: e in Emitted(candidates[..n], None, cooldownSeconds)
                        && candidates[n].windowEnd - e.windowEnd < cooldownSeconds * 1000
  {
    assert candidates[..n + 1] == candidates[..n] + [candidates[n]];
    EmittedAppend(candidates[..n], candidates[n], None, cooldownSeconds);
    var emitted := Emitted(candidates[..n], None, cooldownSeconds);
    assert emitted != [];
    assert emitted[|emitted| - 1] in emitted;
  }

  // ---------------------------------------------------------------- greedy is optimal in order

  ghost predicate Subsequence(chosen: seq<Alert>, candidates: seq<Alert>) {
    if chosen == [] then true
    else if candidates == [] then false
    else (chosen[0] == candidates[0] && Subsequence(chosen[1..], candidates[1..])) || Subsequence(chosen, candidates[1..])
  }

  ghost predicate InOrder(candidates: seq<Alert>) {
    forall i, j {:trigger candidates[i], candidates[j]} :: 0 <= i < j < |candidates| ==> candidates[i].windowEnd <= candidates[j].windowEnd
  }

  lemma {:induction false} SubsequenceMember(chosen: seq<Alert>, candidates: seq<Alert>, i: nat)
    requires Subsequence(chosen, candidates) && i < |chosen|
    ensures chosen[i] in candidates
    decreases |candidates|
  {
    if chosen[0] == candidates[0] && Subsequence(chosen[1..], candidates[1..]) {
      if i > 0 {
        SubsequenceMember(chosen[1..], candidates[1..], i - 1);
      }
    } else {
      SubsequenceMember(chosen, candidates[1..], i);
    }
  }

  lemma {:induction false} EmittedIsSubsequence(candidates: seq<Alert>, last: Option<int>, cooldownSeconds: int)
    ensures Subsequence(Emitted(candidates, last, cooldownSeconds), candidates)
    decreases |candidates|
  {
    if candidates != [] {
      var c := candidates[0];
      if Suppressed(last, c.windowEnd, cooldownSeconds) {
        EmittedIsSubsequence(candidates[1..], last, cooldownSeconds);
      } else {
        EmittedIsSubsequence(candidates[1..], Some(c.windowEnd), cooldownSeconds);
      }
    }
  }

  lemma {:induction false} SpacedTail(chosen: seq<Alert>, last: Option<int>, cooldownSeconds: int, from: int)
    requires chosen != [] && Spaced(chosen, last, cooldownSeconds) && from <= chosen[0].windowEnd
    ensures Spaced(chosen[1..], Some(from), cooldownSeconds)
  {
    var tail := chosen[1..];
    if tail != [] {
      assert chosen[1].windowEnd - chosen[0].windowEnd >= cooldownSeconds * 1000;
    }
    forall i | 1 <= i < |tail| ensures tail[i].windowEnd - tail[i - 1].windowEnd >= cooldownSeconds * 1000 {
      assert tail[i] == chosen[i + 1] && tail[i - 1] == chosen[i];
    }
  }

  /** With candidates in window_end order no choice with the same gaps emits more alerts. */
  lemma {:induction false} GreedyIsMaximal(candidates: seq<Alert>, chosen: seq<Alert>, last: Option<int>,
                                        cooldownSeconds: int)
    requires InOrder(candidates) && Subsequence(chosen, candidates) && Spaced(chosen, last, cooldownSeconds)
    ensures |chosen| <= |Emitted(candidates, last, cooldownSeconds)|
    decreases |candidates|
  {
    if chosen != [] {
      var c, rest := candidates[0], candidates[1..];
      assert InOrder(rest) by {
        assert forall i {:trigger rest[i]} :: 0 <= i < |rest| ==> rest[i] == candidates[i + 1];
      }
      if chosen[0] == c && Subsequence(chosen[1..], rest) {
        SpacedTail(chosen, last, cooldownSeconds, c.windowEnd);
        GreedyIsMaximal(rest, chosen[1..], Some(c.windowEnd), cooldownSeconds);
      } else if Suppressed(last, c.windowEnd, cooldownSeconds) {
        GreedyIsMaximal(rest, chosen, last, cooldownSeconds);
      } else {
        SubsequenceMember(chosen, rest, 0);
        assert c.windowEnd <= chosen[0].windowEnd;
        SpacedTail(chosen, last, cooldownSeconds, c.windowEnd);
        DropFirst(chosen, rest);
        GreedyIsMaximal(rest, chosen[1..], Some(c.windowEnd), cooldownSeconds);
      }
    }
  }

  lemma {:induction false} DropFirst(chosen: seq<Alert>, candidates: seq<Alert>)
    requires chosen != [] && Subsequence(chosen, candidates)
    ensures Subsequence(chosen[1..], candidates)
    decreases |candidates|
  {
    if chosen[0] == candidates[0] && Subsequence(chosen[1..], candidates[1..]) {
      if |chosen| > 1 {
        assert Subsequence(chosen[1..], candidates[1..]);
      }
    } else {
      DropFirst(chosen, candidates[1..]);
    }
  }

  /** The alerts emitted are a maximum-size choice of candidates with gaps of a cooldown. */
  lemma GreedyIsOptimal(candidates: seq<Alert>, chosen: seq<Alert>, cooldownSeconds: int)
    requires InOrder(candidates) && Subsequence(chosen, candidates) && Spaced(chosen, None, cooldownSeconds)
    ensures var emitted := Emitted(candidates, None, cooldownSeconds);
            Subsequence(emitted, candidates) && Spaced(emitted, None, cooldownSeconds) && |chosen| <= |emitted|
  {
    EmittedIsSubsequence(candidates, None, cooldownSeconds);
    EmittedSpaced(candidates, None, cooldownSeconds);
    GreedyIsMaximal(candidates, chosen, None, cooldownSeconds);
  }

  /** In order, every candidate has an alert at its own end or less than one cooldown before. */
  lemma {:induction false} EveryCandidateCovered(candidates: seq<Alert>, c: Alert, last: Option<int>, cooldownSeconds: int)
    requires InOrder(candidates) && c in candidates && cooldownSeconds > 0
    requires last.Some? ==> forall d :: d in candidates ==> last.value <= d.windowEnd
    ensures (exists e :: e in Emitted(candidates, last, cooldownSeconds) && 0 <= c.windowEnd - e.windowEnd < cooldownSeconds * 1000)
            || (last.Some? && 0 <= c.windowEnd - last.value < cooldownSeconds * 1000)
    decreases |candidates|
  {
    var d, rest := candidates[0], candidates[1..];
    assert candidates == [d] + rest;
    assert InOrder(rest) by {
      assert forall i {:trigger rest[i]} :: 0 <= i < |rest| ==> rest[i] == candidates[i + 1];
    }
    var next := if Suppressed(last, d.windowEnd, cooldownSeconds) then last else Some(d.windowEnd);
    var emitted := Emitted(candidates, last, cooldownSeconds);
    if !Suppressed(last, d.windowEnd, cooldownSeconds) {
      assert d in emitted;
    }
    if c in rest {
      forall x | x in rest && next.Some? ensures next.value <= x.windowEnd {
        var i :| 0 <= i < |rest| && rest[i] == x;
        assert candidates[i + 1] == x;
      }
      EveryCandidateCovered(rest, c, next, cooldownSeconds);
    }
  }
}
