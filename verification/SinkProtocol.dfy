/**
 The delivery protocol of the aggregated sink.

 One partition of `radiation.aggregated` is polled in batches. A batch is upserted on
 (geohash, window_start) in one transaction, and the Kafka offset is committed after it.
 A crash may fall between any two of these steps; a restarted process reads again from
 the committed offset. Postgres refuses an INSERT statement that names one conflict key
 twice or holds a value its column does not take, and the driver sends a batch as statements
 of PAGE_SIZE rows: a batch with such a statement is rolled back as a whole.

 The log is seen as what each message asks of the database.
 */
module SinkProtocol {
  import opened Sequences
  import opened SinkTable

  /** Where, if anywhere, the process dies while it handles a batch. */
  datatype Fault = NoFault | BeforeDbCommit | AfterDbCommit

  /** `durable` is a history variable: the end of the highest batch ever made durable. */
  datatype SinkState = SinkState(log: seq<Entry>, position: nat, committed: nat, durable: nat, table: Table)

  datatype Event =
    | Produce(msgs: seq<Entry>)
    | Batch(delivered: nat, fault: Fault)
    | Restart

  function Init(): SinkState {
    SinkState([], 0, 0, 0, map[])
  }

  ghost function Step(s: SinkState, e: Event): SinkState {
    match e
    case Produce(msgs) => s.(log := s.log + msgs)
    case Restart => s.(position := s.committed)
    case Batch(delivered, fault) =>
      if s.position >= |s.log| || delivered == 0 then s
      else HandleBatch(s, Min(s.position + delivered, |s.log|), fault)
  }

  /** The records up to `next` are polled; what survives depends on the rows and on the fault. */
  ghost function HandleBatch(s: SinkState, next: nat, fault: Fault): SinkState
    requires s.position < next <= |s.log|
  {
    var rows := RowsOf(s.log[s.position..next]);
    if fault == BeforeDbCommit || !Storable(s.log[s.position..next]) then s.(position := s.committed)
    else
      var t := s.(table := Upsert(s.table, rows), durable := Max(s.durable, next));
      if fault == AfterDbCommit then t.(position := s.committed)
      else t.(position := next, committed := next)
  }

  ghost function Run(s: SinkState, events: seq<Event>): SinkState {
    if events == [] then s else Step(Run(s, events[..|events| - 1]), events[|events| - 1])
  }

  /** Message `m` writes key `k`. */
  predicate Writes(m: Entry, k: Key) {
    m.Write? && KeyOf(m.row) == k
  }

  /** Key `k` holds the row of record `i`, and no record in (i, upTo) writes `k`. */
  ghost predicate HoldsFrom(log: seq<Entry>, table: Table, k: Key, i: nat, upTo: nat) {
    && i < |log| && upTo <= |log|
    && Writes(log[i], k) && k in table && table[k] == log[i].row
    && forall j {:trigger Writes(log[j], k)} :: i < j < upTo ==> !Writes(log[j], k)
  }

  /** Some record below `durable` accounts for the row of `k`. */
  ghost predicate Accounted(log: seq<Entry>, table: Table, durable: nat, upTo: nat, k: Key) {
    exists i :: 0 <= i < durable && HoldsFrom(log, table, k, i, upTo)
  }

  /** Every well-formed record below `durable` has its row, and no row is older than `upTo` allows. */
  ghost predicate Fresh(log: seq<Entry>, table: Table, durable: nat, upTo: nat) {
    && upTo <= durable <= |log|
    && (forall i, k {:trigger Writes(log[i], k)} :: 0 <= i < durable && Writes(log[i], k) ==> k in table)
    && (forall k {:trigger Accounted(log, table, durable, upTo, k)} :: k in table ==> Accounted(log, table, durable, upTo, k))
  }

  /** No key is older than its last record below the read position, and none is invented. */
  ghost predicate Inv(s: SinkState) {
    s.committed == s.position && Fresh(s.log, s.table, s.durable, s.position)
  }

  // ---------------------------------------------------------------- safety over every run

  /** No record in [lo, hi) writes `k`, and `after` has of it what `before` has. */
  ghost predicate Untouched(log: seq<Entry>, before: Table, after: Table, k: Key, lo: nat, hi: nat)
    requires hi <= |log|
  {
    && (forall j {:trigger Writes(log[j], k)} :: lo <= j < hi ==> !Writes(log[j], k))
    && (k in after <==> k in before) && (k in before ==> after[k] == before[k])
  }

  /** Some record in [lo, hi) accounts for the row of `k`. */
  ghost predicate AccountedFrom(log: seq<Entry>, table: Table, k: Key, lo: nat, hi: nat) {
    exists i :: lo <= i < hi && HoldsFrom(log, table, k, i, hi)
  }

  lemma LookupStep(log: seq<Entry>, table: Table, before: Table, after: Table, k: Key, lo: nat, hi: nat)
    requires lo < hi <= |log|
    requires after == if log[hi - 1].Write? then before[KeyOf(log[hi - 1].row) := log[hi - 1].row] else before
    requires Untouched(log, table, before, k, lo, hi - 1) || AccountedFrom(log, before, k, lo, hi - 1)
    ensures Untouched(log, table, after, k, lo, hi) || AccountedFrom(log, after, k, lo, hi)
  {
    if Writes(log[hi - 1], k) {
      assert HoldsFrom(log, after, k, hi - 1, hi);
    } else if !Untouched(log, table, before, k, lo, hi - 1) {
      var i :| lo <= i < hi - 1 && HoldsFrom(log, before, k, i, hi - 1);
      assert HoldsFrom(log, after, k, i, hi);
    }
  }

  /** Upserting a stretch of the log leaves key `k` alone or at its last record there. */
  lemma {:induction false} UpsertLookup(table: Table, log: seq<Entry>, lo: nat, hi: nat, k: Key)
    requires lo <= hi <= |log|
    ensures var after := Upsert(table, RowsOf(log[lo..hi]));
            Untouched(log, table, after, k, lo, hi) || AccountedFrom(log, after, k, lo, hi)
  {
    if lo < hi {
      UpsertLookup(table, log, lo, hi - 1, k);
      var m, part := log[hi - 1], log[lo..hi - 1];
      var before, after := Upsert(table, RowsOf(part)), Upsert(table, RowsOf(log[lo..hi]));
      assert after == if m.Write? then before[KeyOf(m.row) := m.row] else before by {
        assert log[lo..hi] == part + [m];
        OneMoreMessage(table, part, m);
      }
      LookupStep(log, table, before, after, k, lo, hi);
    }
  }

  /** Making a batch durable keeps the invariant's claims about the table. */
  lemma DurableBatch(s: SinkState, next: nat)
    requires Inv(s) && s.position <= next <= |s.log|
    ensures Fresh(s.log, Upsert(s.table, RowsOf(s.log[s.position..next])), Max(s.durable, next), next)
  {
    var t, d := Upsert(s.table, RowsOf(s.log[s.position..next])), Max(s.durable, next);
    forall i, k | 0 <= i < d && Writes(s.log[i], k) ensures k in t {
      UpsertLookup(s.table, s.log, s.position, next, k);
    }
    forall k | k in t ensures Accounted(s.log, t, d, next, k) {
      UpsertLookup(s.table, s.log, s.position, next, k);
      if exists j :: s.position <= j < next && Writes(s.log[j], k) {
        var i :| s.position <= i < next && HoldsFrom(s.log, t, k, i, next);
      } else {
        assert Accounted(s.log, s.table, s.durable, s.position, k);
        var i :| 0 <= i < s.durable && HoldsFrom(s.log, s.table, k, i, s.position);
        assert HoldsFrom(s.log, t, k, i, next);
      }
    }
  }

  lemma ProduceKeepsInvariant(s: SinkState, msgs: seq<Entry>)
    requires Inv(s)
    ensures Inv(s.(log := s.log + msgs))
  {
    var log := s.log + msgs;
    forall k | k in s.table ensures Accounted(log, s.table, s.durable, s.position, k) {
      assert Accounted(s.log, s.table, s.durable, s.position, k);
      var i :| 0 <= i < s.durable && HoldsFrom(s.log, s.table, k, i, s.position);
      assert HoldsFrom(log, s.table, k, i, s.position);
    }
  }

  lemma BatchKeepsInvariant(s: SinkState, delivered: nat, fault: Fault)
    requires Inv(s)
    ensures Inv(Step(s, Batch(delivered, fault)))
  {
    if s.position < |s.log| && delivered > 0 {
      var next := Min(s.position + delivered, |s.log|);
      var rows := RowsOf(s.log[s.position..next]);
      if fault != BeforeDbCommit && Storable(s.log[s.position..next]) {
        DurableBatch(s, next);
        LowerBound(s.log, Upsert(s.table, rows), Max(s.durable, next), next, s.committed);
      }
    }
  }

  lemma StepKeepsInvariant(s: SinkState, e: Event)
    requires Inv(s)
    ensures Inv(Step(s, e))
    ensures s.committed <= Step(s, e).committed && s.durable <= Step(s, e).durable && s.log <= Step(s, e).log
  {
    match e
    case Produce(msgs) => ProduceKeepsInvariant(s, msgs);
    case Restart =>
    case Batch(delivered, fault) => BatchKeepsInvariant(s, delivered, fault);
  }

  /** A lower read position asks less of the table: a restart cannot break the invariant. */
  lemma LowerBound(log: seq<Entry>, table: Table, durable: nat, upTo: nat, lower: nat)
    requires Fresh(log, table, durable, upTo) && lower <= upTo
    ensures Fresh(log, table, durable, lower)
  {
    forall k | k in table ensures Accounted(log, table, durable, lower, k) {
      assert Accounted(log, table, durable, upTo, k);
      var i :| 0 <= i < durable && HoldsFrom(log, table, k, i, upTo);
      assert HoldsFrom(log, table, k, i, lower);
    }
  }

  /**
   Every schedule of batches, faults and restarts: committed == position <= durable, every
   well-formed record below `durable` has its row, and no key is older than its last record
   below the read position.
   */
  lemma RunKeepsInvariant(events: seq<Event>)
    ensures Inv(Run(Init(), events))
  {
    RunKeepsInvariantFrom(Init(), events);
  }

  lemma {:induction false} RunKeepsInvariantFrom(s: SinkState, events: seq<Event>)
    requires Inv(s)
    ensures Inv(Run(s, events)) && s.committed <= Run(s, events).committed && s.log <= Run(s, events).log
  {
    if events != [] {
      RunKeepsInvariantFrom(s, events[..|events| - 1]);
      StepKeepsInvariant(Run(s, events[..|events| - 1]), events[|events| - 1]);
    }
  }

  /** At the high-water mark the table is one latest-wins pass over the log. */
  lemma AtHighWater(s: SinkState)
    requires Inv(s) && s.position == s.durable
    ensures s.table == LatestWins(RowsOf(s.log[..s.durable]))
  {
    var once := LatestWins(RowsOf(s.log[..s.durable]));
    assert s.log[..s.durable] == s.log[0..s.durable];
    forall k ensures (k in s.table <==> k in once) && (k in once ==> s.table[k] == once[k]) {
      UpsertLookup(map[], s.log, 0, s.durable, k);
      if k in s.table {
        assert Accounted(s.log, s.table, s.durable, s.position, k);
        var i :| 0 <= i < s.durable && HoldsFrom(s.log, s.table, k, i, s.position);
        assert Writes(s.log[i], k);
      }
    }
  }

  /** Crash-replay equals exactly-once: two schedules that have read the same log agree. */
  lemma ExactlyOnceForTheTable(crashy: seq<Event>, smooth: seq<Event>)
    requires Run(Init(), crashy).log == Run(Init(), smooth).log
    requires Run(Init(), crashy).position == |Run(Init(), crashy).log|
    requires Run(Init(), smooth).position == |Run(Init(), smooth).log|
    ensures Run(Init(), crashy).table == Run(Init(), smooth).table == LatestWins(RowsOf(Run(Init(), smooth).log))
  {
    RunKeepsInvariant(crashy);
    RunKeepsInvariant(smooth);
    AtHighWater(Run(Init(), crashy));
    AtHighWater(Run(Init(), smooth));
    var log := Run(Init(), smooth).log;
    assert log[..|log|] == log;
  }

  // ---------------------------------------------------------------- replays that revert, and replays that cannot

  /** The rows of [lo, hi) of the log have pairwise different keys. */
  ghost predicate DistinctKeys(log: seq<Entry>, lo: nat, hi: nat) {
    hi <= |log|
    && forall i, j, k {:trigger Writes(log[i], k), Writes(log[j], k)} ::
         lo <= i < j < hi && Writes(log[i], k) ==> !Writes(log[j], k)
  }

  /** The invariant of runs whose batches all fit one page. */
  ghost predicate SmallInv(s: SinkState) {
    && s.committed == s.position <= s.durable <= |s.log|
    && DistinctKeys(s.log, s.committed, s.durable)
    && s.table == LatestWins(RowsOf(s.log[..s.durable]))
  }

  lemma {:induction false} RowsDistinct(msgs: seq<Entry>)
    requires forall i, j :: 0 <= i < j < |RowsOf(msgs)| ==> KeyOf(RowsOf(msgs)[i]) != KeyOf(RowsOf(msgs)[j])
    ensures |RowsOf(msgs)| <= |msgs|
    ensures forall k, i :: 0 <= i < |msgs| && Writes(msgs[i], k) ==> exists r :: 0 <= r < |RowsOf(msgs)| && KeyOf(RowsOf(msgs)[r]) == k
    ensures DistinctKeys(msgs, 0, |msgs|)
  {
    if msgs != [] {
      var init, last := msgs[..|msgs| - 1], msgs[|msgs| - 1];
      var before, rows := RowsOf(init), RowsOf(msgs);
      assert forall r :: 0 <= r < |before| ==> rows[r] == before[r];
      RowsDistinct(init);
      forall k, i | 0 <= i < |msgs| && Writes(msgs[i], k)
        ensures exists r :: 0 <= r < |rows| && KeyOf(rows[r]) == k
      {
        if i < |init| {
          assert Writes(init[i], k);
          var r :| 0 <= r < |before| && KeyOf(before[r]) == k;
          assert KeyOf(rows[r]) == k;
        } else {
          assert KeyOf(rows[|rows| - 1]) == k;
        }
      }
      forall i, j, k | 0 <= i < j < |msgs| && Writes(msgs[i], k) ensures !Writes(msgs[j], k) {
        assert Writes(init[i], k);
        var r :| 0 <= r < |before| && KeyOf(before[r]) == k;
        if j < |init| {
          assert msgs[j] == init[j];
        } else if last.Write? {
          assert KeyOf(rows[r]) != KeyOf(rows[|before|]);
        }
      }
    }
  }

  lemma {:induction false} RowsAtMost(msgs: seq<Entry>)
    ensures |RowsOf(msgs)| <= |msgs|
  {
    if msgs != [] {
      RowsAtMost(msgs[..|msgs| - 1]);
    }
  }

  /** A batch of one page is refused unless its records have different keys. */
  lemma OnePage(log: seq<Entry>, lo: nat, hi: nat)
    requires lo <= hi <= |log| && hi - lo <= PAGE_SIZE
    requires PagesDistinct(RowsOf(log[lo..hi]))
    ensures DistinctKeys(log, lo, hi)
  {
    var msgs := log[lo..hi];
    RowsAtMost(msgs);
    var rows := RowsOf(msgs);
    forall i: nat, j: nat | i < j < |rows| ensures KeyOf(rows[i]) != KeyOf(rows[j]) {
      assert SamePage(i, j);
    }
    RowsDistinct(msgs);
    forall i, j, k | lo <= i < j < hi && Writes(log[i], k) ensures !Writes(log[j], k) {
      assert msgs[i - lo] == log[i] && msgs[j - lo] == log[j];
    }
  }

  lemma LatestWinsExtends(log: seq<Entry>, lo: nat, next: nat, durable: nat)
    requires lo <= next <= |log| && lo <= durable <= |log|
    requires DistinctKeys(log, lo, durable)
    ensures Upsert(LatestWins(RowsOf(log[..durable])), RowsOf(log[lo..next])) == LatestWins(RowsOf(log[..Max(durable, next)]))
  {
    var d := Max(durable, next);
    var table := LatestWins(RowsOf(log[..durable]));
    var t, once := Upsert(table, RowsOf(log[lo..next])), LatestWins(RowsOf(log[..d]));
    assert log[..durable] == log[0..durable] && log[..d] == log[0..d];
    forall k ensures (k in t <==> k in once) && (k in t ==> t[k] == once[k]) {
      UpsertLookup(table, log, lo, next, k);
      UpsertLookup(map[], log, 0, durable, k);
      UpsertLookup(map[], log, 0, d, k);
    }
  }

  lemma SmallBatch(s: SinkState, next: nat, fault: Fault)
    requires SmallInv(s) && s.position < next <= |s.log| && next - s.position <= PAGE_SIZE
    ensures SmallInv(HandleBatch(s, next, fault))
  {
    if fault != BeforeDbCommit && Storable(s.log[s.position..next]) {
      OnePage(s.log, s.position, next);
      LatestWinsExtends(s.log, s.position, next, s.durable);
    }
  }

  lemma SmallProduce(s: SinkState, msgs: seq<Entry>)
    requires SmallInv(s)
    ensures SmallInv(Step(s, Produce(msgs)))
  {
    assert (s.log + msgs)[..s.durable] == s.log[..s.durable];
    assert forall i :: 0 <= i < s.durable ==> (s.log + msgs)[i] == s.log[i];
  }

  lemma StepOfBatch(s: SinkState, delivered: nat, fault: Fault)
    ensures Step(s, Batch(delivered, fault))
            == if s.position < |s.log| && delivered > 0 then HandleBatch(s, Min(s.position + delivered, |s.log|), fault) else s
  {
  }

  lemma SmallPoll(s: SinkState, delivered: nat, fault: Fault)
    requires SmallInv(s) && delivered <= PAGE_SIZE
    ensures SmallInv(Step(s, Batch(delivered, fault)))
  {
    StepOfBatch(s, delivered, fault);
    if s.position < |s.log| && delivered > 0 {
      SmallBatch(s, Min(s.position + delivered, |s.log|), fault);
    }
  }

  lemma SmallStep(s: SinkState, e: Event)
    requires SmallInv(s) && (e.Batch? ==> e.delivered <= PAGE_SIZE)
    ensures SmallInv(Step(s, e))
  {
    match e
    case Produce(msgs) => SmallProduce(s, msgs);
    case Restart =>
    case Batch(delivered, fault) => SmallPoll(s, delivered, fault);
  }

  /** While no poll returns more records than a page, no replay ever reverts a row. */
  lemma {:induction false} SmallBatchesNeverRevert(events: seq<Event>)
    requires forall e :: e in events && e.Batch? ==> e.delivered <= PAGE_SIZE
    ensures SmallInv(Run(Init(), events))
  {
    if events != [] {
      SmallBatchesNeverRevert(events[..|events| - 1]);
      SmallStep(Run(Init(), events[..|events| - 1]), events[|events| - 1]);
    }
  }

  lemma {:induction false} AllRows(msgs: seq<Entry>)
    requires forall m :: m in msgs ==> m.Write?
    ensures |RowsOf(msgs)| == |msgs|
    ensures forall i :: 0 <= i < |msgs| ==> RowsOf(msgs)[i] == msgs[i].row
  {
    if msgs != [] {
      AllRows(msgs[..|msgs| - 1]);
    }
  }

  lemma RunThree(s: SinkState, a: Event, b: Event, c: Event)
    ensures Run(s, [a, b, c]) == Step(Step(Step(s, a), b), c)
  {
    assert [a, b, c][..2] == [a, b] && [a, b][..1] == [a] && [a][..0] == [];
    assert Run(s, [a]) == Step(s, a);
    assert Run(s, [a, b]) == Step(Step(s, a), b);
  }

  lemma {:induction false} OneRow(row: Row, table: Table)
    ensures RowsOf([Write(row)]) == [row] && Storable([Write(row)])
    ensures Upsert(table, [row]) == table[KeyOf(row) := row]
  {
    assert RowsOf([Write(row)]) == [row] by {
      assert [Write(row)][..0] == [];
      assert [] + [row] == [row];
    }
    assert Upsert(table, [row]) == table[KeyOf(row) := row] by {
      assert [row][..0] == [];
    }
  }

  /**
   A batch that may hold a key twice lets a smaller replay of it put the older row back until
   the read position catches up.
   */
  lemma {:induction false} ReplayOfFirstRecord(log: seq<Entry>, k: Key)
    requires |log| > 1 && Writes(log[0], k) && Writes(log[|log| - 1], k)
    requires log[0] != log[|log| - 1] && Storable(log)
    ensures var s := Run(Init(), [Produce(log), Batch(|log|, AfterDbCommit), Batch(1, NoFault)]);
            s.durable == |s.log| == |log| && s.table != LatestWins(RowsOf(s.log[..s.durable]))
  {
    var once, first := LatestWins(RowsOf(log)), log[0].row;
    var s1, s2 := SinkState(log, 0, 0, 0, map[]), SinkState(log, 0, 0, |log|, once);
    RunThree(Init(), Produce(log), Batch(|log|, AfterDbCommit), Batch(1, NoFault));
    assert Step(Init(), Produce(log)) == s1 by {
      assert [] + log == log;
    }
    assert Step(s1, Batch(|log|, AfterDbCommit)) == s2 by {
      assert log[0..|log|] == log;
    }
    assert Step(s2, Batch(1, NoFault)) == SinkState(log, 1, 1, |log|, once[k := first]) by {
      assert log[0..1] == [Write(first)];
      OneRow(first, once);
    }
    assert once[k] == log[|log| - 1].row by {
      assert log[0..|log|] == log;
      UpsertLookup(map[], log, 0, |log|, k);
    }
    assert log[..|log|] == log;
  }

  // ---------------------------------------------------------------- progress

  function Retries(n: nat, delivered: nat): seq<Event> {
    seq(n, _ => Batch(delivered, NoFault))
  }

  /** A poll size whose next batch is not storable is retried forever. */
  lemma {:induction false} PoisonBatchNeverAdvances(s: SinkState, delivered: nat, n: nat)
    requires Inv(s)
    requires s.position < |s.log| && delivered > 0
    requires !Storable(s.log[s.position..Min(s.position + delivered, |s.log|)])
    ensures Run(s, Retries(n, delivered)) == s
  {
    if n > 0 {
      PoisonBatchNeverAdvances(s, delivered, n - 1);
      RetryLast(s, delivered, n);
      PollStep(s, delivered);
    }
  }

  lemma RetryLast(s: SinkState, b: nat, n: nat)
    requires n > 0
    ensures Run(s, Retries(n, b)) == Step(Run(s, Retries(n - 1, b)), Batch(b, NoFault))
  {
    assert Retries(n, b)[..n - 1] == Retries(n - 1, b);
  }

  lemma PollStep(s: SinkState, b: nat)
    requires s.position < |s.log| && b > 0
    ensures var next := Min(s.position + b, |s.log|);
            var t := Step(s, Batch(b, NoFault));
            if Storable(s.log[s.position..next]) then t.log == s.log && t.position == next
            else s.committed == s.position ==> t == s
  {
  }

  /** The batches that polls of size `b` cut from offset `lo` on are all accepted. */
  ghost predicate AllAccepted(log: seq<Entry>, lo: nat, b: nat)
    requires b > 0
    decreases |log| - lo
  {
    lo < |log| ==>
      && Storable(log[lo..Min(lo + b, |log|)])
      && AllAccepted(log, lo + b, b)
  }

  /** From any reachable state, accepted fault-free batches make the table exact. */
  lemma {:induction false} CleanRunCatchesUp(s: SinkState, b: nat, n: nat)
    requires Inv(s) && b > 0 && AllAccepted(s.log, s.position, b) && n * b >= |s.log| - s.position
    ensures Run(s, Retries(n, b)).table == LatestWins(RowsOf(s.log))
    ensures Run(s, Retries(n, b)).committed == |s.log|
  {
    var t := Run(s, Retries(n, b));
    PollsSuffice(|s.log| - s.position, b, n);
    CleanRunReads(s, b, n);
    assert Inv(t) by {
      RunKeepsInvariantFrom(s, Retries(n, b));
    }
    CaughtUp(t);
  }

  /**
   Over all runs of fault-free polls of size `b`: the log is committed in the end exactly when
   every batch the polls cut from it is storable. Otherwise no number of retries helps.
   */
  lemma CatchesUpIff(s: SinkState, b: nat)
    requires Inv(s) && b > 0
    ensures (exists n: nat :: Run(s, Retries(n, b)).committed == |s.log|) <==> AllAccepted(s.log, s.position, b)
  {
    if AllAccepted(s.log, s.position, b) {
      var n := PollsNeeded(|s.log| - s.position, b);
      CleanRunReads(s, b, n);
      RunKeepsInvariantFrom(s, Retries(n, b));
    } else {
      forall n: nat ensures Run(s, Retries(n, b)).committed != |s.log| {
        NeverCatchesUp(s, b, n);
      }
    }
  }

  lemma {:induction false} NeverCatchesUp(s: SinkState, b: nat, n: nat)
    requires Inv(s) && b > 0 && !AllAccepted(s.log, s.position, b)
    ensures Run(s, Retries(n, b)).committed < |s.log|
    decreases n
  {
    if n > 0 {
      var t := Step(s, Batch(b, NoFault));
      if s.position < |s.log| {
        PollStep(s, b);
      }
      StepKeepsInvariant(s, Batch(b, NoFault));
      assert !AllAccepted(t.log, t.position, b) && t.log == s.log;
      NeverCatchesUp(t, b, n - 1);
      RetryFirst(s, b, n);
    }
  }

  /** Polling one record at a time gets past everything but poison. */
  lemma {:induction false} OneByOneIff(log: seq<Entry>, lo: nat)
    requires lo <= |log|
    ensures AllAccepted(log, lo, 1) <==> Poison !in log[lo..]
    decreases |log| - lo
  {
    if lo < |log| {
      OneByOneIff(log, lo + 1);
      assert log[lo..lo + 1] == [log[lo]] && log[lo..] == [log[lo]] + log[lo + 1..];
      SingleIsStorable(log[lo]);
    }
  }

  lemma SingleIsStorable(e: Entry)
    ensures Storable([e]) <==> e != Poison
  {
    RowsAtMost([e]);
  }

  /** No schedule of polls, faults and restarts commits past a poisonous message. */
  lemma {:induction false} PoisonStopsEverySchedule(s: SinkState, events: seq<Event>, p: nat)
    requires Inv(s) && s.position <= p < |s.log| && s.log[p] == Poison
    ensures Run(s, events).committed <= p
  {
    if events != [] {
      var t := Run(s, events[..|events| - 1]);
      PoisonStopsEverySchedule(s, events[..|events| - 1], p);
      RunKeepsInvariantFrom(s, events[..|events| - 1]);
      PoisonStopsStep(t, events[|events| - 1], p);
    }
  }

  lemma PoisonStopsStep(t: SinkState, e: Event, p: nat)
    requires Inv(t) && t.committed <= p < |t.log| && t.log[p] == Poison
    ensures Step(t, e).committed <= p
  {
    if e.Batch? && t.position < |t.log| && e.delivered > 0 {
      var next := Min(t.position + e.delivered, |t.log|);
      if next > p {
        assert t.log[t.position..next][p - t.position] == Poison;
      }
    }
  }

  /** Some schedule commits all of the log. */
  ghost predicate CanCatchUp(s: SinkState) {
    exists events :: Run(s, events).committed >= |s.log|
  }

  /** Some schedule commits the log exactly when what is left of it holds no poison. */
  lemma SomeScheduleCatchesUpIff(s: SinkState)
    requires Inv(s)
    ensures CanCatchUp(s) <==> Poison !in s.log[s.position..]
  {
    OneByOneIff(s.log, s.position);
    CatchesUpIff(s, 1);
    if Poison in s.log[s.position..] {
      var i :| 0 <= i < |s.log| - s.position && s.log[s.position..][i] == Poison;
      forall events ensures Run(s, events).committed < |s.log| {
        PoisonStopsEverySchedule(s, events, s.position + i);
      }
    } else {
      var n: nat :| Run(s, Retries(n, 1)).committed == |s.log|;
    }
  }

  lemma CaughtUp(t: SinkState)
    requires Inv(t) && t.position == |t.log|
    ensures t.table == LatestWins(RowsOf(t.log)) && t.committed == |t.log|
  {
    AtHighWater(t);
    assert t.log[..|t.log|] == t.log;
  }

  lemma {:induction false} CleanRunReads(s: SinkState, b: nat, n: nat)
    requires s.position <= |s.log| && b > 0 && AllAccepted(s.log, s.position, b)
    requires n >= PollsNeeded(|s.log| - s.position, b)
    ensures Run(s, Retries(n, b)).log == s.log && Run(s, Retries(n, b)).position == |s.log|
    decreases n
  {
    if n > 0 {
      var t := Step(s, Batch(b, NoFault));
      CleanStep(s, b, n);
      CleanRunReads(t, b, n - 1);
      RetryFirst(s, b, n);
    }
  }

  lemma {:induction false} RetryFirst(s: SinkState, b: nat, n: nat)
    requires n > 0
    ensures Run(s, Retries(n, b)) == Run(Step(s, Batch(b, NoFault)), Retries(n - 1, b))
  {
    RunFirst(s, Retries(n, b));
    assert Retries(n, b)[1..] == Retries(n - 1, b);
  }

  /** How many polls of `b` records read `waiting` records. */
  function PollsNeeded(waiting: int, b: nat): nat
    requires b > 0
    decreases waiting
  {
    if waiting <= 0 then 0 else 1 + PollsNeeded(waiting - b, b)
  }

  lemma PollsLeft(waiting: nat, b: nat, n: nat)
    requires b > 0 && n > 0 && n >= PollsNeeded(waiting, b)
    ensures n - 1 >= PollsNeeded(waiting - Min(b, waiting), b)
  {
  }

  lemma {:induction false} PollsSuffice(waiting: int, b: nat, n: nat)
    requires b > 0 && n * b >= waiting
    ensures PollsNeeded(waiting, b) <= n
    decreases n
  {
    if waiting > 0 {
      assert (n - 1) * b == n * b - b;
      PollsSuffice(waiting - b, b, n - 1);
    }
  }

  lemma {:induction false} CleanStep(s: SinkState, b: nat, n: nat)
    requires s.position <= |s.log| && b > 0 && n > 0 && AllAccepted(s.log, s.position, b)
    requires n >= PollsNeeded(|s.log| - s.position, b)
    ensures var t := Step(s, Batch(b, NoFault));
            && t.log == s.log && t.position <= |t.log| && AllAccepted(t.log, t.position, b)
            && n - 1 >= PollsNeeded(|t.log| - t.position, b)
  {
    PollsLeft(|s.log| - s.position, b, n);
    if s.position < |s.log| {
      PollStep(s, b);
    }
  }

  lemma {:induction false} RunFirst(s: SinkState, events: seq<Event>)
    requires events != []
    ensures Run(s, events) == Run(Step(s, events[0]), events[1..])
  {
    if |events| > 1 {
      var init := events[..|events| - 1];
      RunFirst(s, init);
      assert init[1..] == events[1..][..|events| - 2];
    } else {
      assert events[..0] == [];
    }
  }
}
