/** Messages of the aggregation job on which the sink's limits show. */
module SinkWitnesses {
  import opened Sequences
  import opened JsonValues
  import opened SinkTable
  import opened SinkProtocol
  import opened AggregatedSink

  const MIDNIGHT: int := 1781827200000  // 2026-06-19T00:00:00Z
  const MINUTE: int := 60 * 1000
  const CELL: string := "xn774"

  function TwoDigits(n: nat): string
    requires n < 100
  {
    ["0123456789"[n / 10], "0123456789"[n % 10]]
  }

  /** The start of the i-th minute of the day, as the window operator writes it. */
  function Iso(i: nat): string
    requires i < 100
  {
    "2026-06-19T" + TwoDigits(i / 60) + ":" + TwoDigits(i % 60) + ":00+00:00"
  }

  /** The blob of a cell's i-th window, with a count to tell two versions apart. */
  function Blob(i: nat, count: real): Message
    requires i < 100
  {
    Decoded(Object(map["geohash" := Text(CELL), "window_start" := Text(Iso(i)), "count" := Number(count)]))
  }

  /** The columns take these blobs, and read their keys as written. */
  ghost predicate ReadsBlobs(columns: Columns) {
    forall i: nat, count: real {:trigger Blob(i, count)} :: i < 100 && count in [1.0, 2.0] ==>
      columns(RecordToRow(Blob(i, count).value).value) == Some(Window(i))
  }

  lemma BlobAsks(columns: Columns, i: nat, count: real)
    requires ReadsBlobs(columns) && i < 100 && count in [1.0, 2.0]
    ensures var e := EntryOf(columns, Blob(i, count));
            e.Write? && e.row.key == Window(i) && e.row.values[4] == Number(count)
  {
  }

  /**
   One blob delivered twice, as the at-least-once Kafka sink may: polled together it is never
   stored, however often it is retried; polled one by one it is.
   */
  lemma RedeliveryPoisonsABatch(columns: Columns, n: nat)
    requires ReadsBlobs(columns)
    ensures var s := Step(Init(), Produce(Entries(columns, [Blob(0, 1.0), Blob(0, 1.0)])));
            && Inv(s) && Run(s, Retries(n, 2)) == s && s.table == map[] && s.committed == 0
            && exists m: nat :: Run(s, Retries(m, 1)).committed == 2
  {
    var e := EntryOf(columns, Blob(0, 1.0));
    BlobAsks(columns, 0, 1.0);
    var log := Entries(columns, [Blob(0, 1.0), Blob(0, 1.0)]);
    assert log == [e, e];
    var s := Step(Init(), Produce(log));
    assert s == SinkState([e, e], 0, 0, 0, map[]) by {
      assert [] + log == log;
    }
    TwiceIsNotStorable(e);
    assert s.log[0..2] == s.log;
    PoisonBatchNeverAdvances(s, 2, n);
    OneByOneIff(s.log, 0);
    assert s.log[0..] == s.log;
    CatchesUpIff(s, 1);
  }

  lemma TwiceIsNotStorable(e: Entry)
    requires e.Write?
    ensures !Storable([e, e])
  {
    AllRows([e, e]);
    assert SamePage(0, 1);
  }

  /** A cell's blobs of a hundred windows, and then the first of them again with another count. */
  function RepeatAcrossPages(): seq<Message> {
    seq(PAGE_SIZE, i requires 0 <= i < PAGE_SIZE => Blob(i, 1.0)) + [Blob(0, 2.0)]
  }

  lemma RepeatIsStorable(columns: Columns)
    requires ReadsBlobs(columns)
    ensures Storable(Entries(columns, RepeatAcrossPages()))
  {
    var log := Entries(columns, RepeatAcrossPages());
    forall i {:trigger log[i]} | 0 <= i < |log| ensures log[i].Write? && (i < PAGE_SIZE ==> log[i].row.key == Window(i)) {
      RepeatAt(columns, i);
    }
    OnePageAndOneMore(log);
  }

  function Window(i: nat): Key {
    Key(CELL, MIDNIGHT + i * MINUTE)
  }

  lemma RepeatAt(columns: Columns, i: nat)
    requires ReadsBlobs(columns) && i <= PAGE_SIZE
    ensures var e := Entries(columns, RepeatAcrossPages())[i];
            e.Write? && (i < PAGE_SIZE ==> e.row.key == Window(i))
  {
    if i < PAGE_SIZE {
      assert RepeatAcrossPages()[i] == Blob(i, 1.0);
      BlobAsks(columns, i, 1.0);
    } else {
      assert RepeatAcrossPages()[i] == Blob(0, 2.0);
      BlobAsks(columns, 0, 2.0);
    }
  }

  lemma OnePageAndOneMore(log: seq<Entry>)
    requires |log| == PAGE_SIZE + 1
    requires forall i {:trigger log[i]} :: 0 <= i < |log| ==> log[i].Write? && (i < PAGE_SIZE ==> log[i].row.key == Window(i))
    ensures Storable(log)
  {
    AllRows(log);
    var rows := RowsOf(log);
    forall i: nat, j: nat | i < j < |rows| && SamePage(i, j) ensures KeyOf(rows[i]) != KeyOf(rows[j]) {
      assert j < PAGE_SIZE;
      assert rows[i] == log[i].row && rows[j] == log[j].row;
    }
  }

  /** One record over the page: a batch holds a key in two pages, and its replay reverts the row. */
  lemma LargeBatchCanRevert(columns: Columns)
    requires ReadsBlobs(columns)
    ensures var log := Entries(columns, RepeatAcrossPages());
            var s := Run(Init(), [Produce(log), Batch(PAGE_SIZE + 1, AfterDbCommit), Batch(1, NoFault)]);
            && s.durable == |s.log| == PAGE_SIZE + 1
            && s.table != LatestWins(RowsOf(s.log[..s.durable]))
  {
    var log := Entries(columns, RepeatAcrossPages());
    assert |log| == PAGE_SIZE + 1;
    assert log[0] == EntryOf(columns, Blob(0, 1.0)) && log[PAGE_SIZE] == EntryOf(columns, Blob(0, 2.0));
    BlobAsks(columns, 0, 1.0);
    BlobAsks(columns, 0, 2.0);
    RepeatIsStorable(columns);
    ReplayOfFirstRecord(log, Key(CELL, MIDNIGHT));
  }

  /** A blob whose window start is no instant is well-formed to the mapping, and stops the sink for good. */
  lemma NoInstantStopsTheSink(columns: Columns, events: seq<Event>)
    requires ReadsBlobs(columns)
    requires var record := Object(map["geohash" := Text(CELL), "window_start" := Text("w"), "count" := Number(1.0)]);
             columns(RecordToRow(record).value).None?
    ensures var bad := Decoded(Object(map["geohash" := Text(CELL), "window_start" := Text("w"), "count" := Number(1.0)]));
            var s := Step(Init(), Produce(Entries(columns, [bad, Blob(0, 1.0)])));
            Run(s, events).committed == 0
  {
    var bad := Decoded(Object(map["geohash" := Text(CELL), "window_start" := Text("w"), "count" := Number(1.0)]));
    var log := Entries(columns, [bad, Blob(0, 1.0)]);
    var s := Step(Init(), Produce(log));
    assert s.log == log && log[0] == Poison;
    PoisonStopsEverySchedule(s, events, 0);
  }
}
