/** The program of the aggregated sink: record mapping, transaction and offset commit. */
module AggregatedSink {
  import opened Sequences
  import opened JsonValues
  import opened SinkTable
  import opened SinkProtocol

  /** A raw message value: bytes that are no UTF-8, text that is no JSON, or some JSON value. */
  datatype Message = NotUtf8 | NotJson | Decoded(value: Json)

  /** The value tuple of a record. */
  datatype Tuple = Tuple(
    geohash: Json, windowStart: Json, windowEnd: Json, precision: Json, count: Json,
    cpmAvg: Json, cpmMax: Json, cpmMin: Json,
    safeCount: Json, warnCount: Json, dangerCount: Json, worstClassification: Json,
    centroidLatitude: Json, centroidLongitude: Json,
    rollingCpmAvg: Json, cpmZscore: Json, anomaly: Json)

  /** What the column types make of a tuple: its key, or None when they refuse one of its values. */
  type Columns = Tuple -> Option<Key>

  /** One record as a tuple, or None where the source raises ValueError. */
  function RecordToRow(record: Json): Option<Tuple> {
    if !record.Object? then None
    else
      var f := record.fields;
      if !Truthy(Get(f, "geohash")) || !Truthy(Get(f, "window_start")) || Get(f, "count").Null? then None
      else
        var counts := Get(f, "class_counts");
        var c := if counts.Object? then counts.fields else map[];
        Some(Tuple(Get(f, "geohash"), Get(f, "window_start"), Get(f, "window_end"), Get(f, "precision"),
                   Get(f, "count"), Get(f, "cpm_avg"), Get(f, "cpm_max"), Get(f, "cpm_min"),
                   Get(c, "SAFE"), Get(c, "WARN"), Get(c, "DANGER"), Get(f, "worst_classification"),
                   Get(f, "centroid_latitude"), Get(f, "centroid_longitude"),
                   Get(f, "rolling_cpm_avg"), Get(f, "cpm_zscore"), Get(f, "anomaly")))
  }

  /** The order of the columns in the INSERT statement. */
  const COLUMNS: seq<string> := [
    "geohash", "window_start", "window_end", "precision", "count", "cpm_avg", "cpm_max", "cpm_min",
    "safe_count", "warn_count", "danger_count", "worst_classification", "centroid_latitude", "centroid_longitude",
    "rolling_cpm_avg", "cpm_zscore", "anomaly"]

  /** The tuple's values, in that order. */
  function Values(t: Tuple): (values: seq<Json>)
    ensures |values| == |COLUMNS|
  {
    [t.geohash, t.windowStart, t.windowEnd, t.precision, t.count, t.cpmAvg, t.cpmMax, t.cpmMin,
     t.safeCount, t.warnCount, t.dangerCount, t.worstClassification, t.centroidLatitude, t.centroidLongitude,
     t.rollingCpmAvg, t.cpmZscore, t.anomaly]
  }

  /** The class counts are nested in the record; every other column has a field of its own name. */
  function FieldOf(fields: map<string, Json>, column: string): Json {
    var counts := Get(fields, "class_counts");
    var c := if counts.Object? then counts.fields else map[];
    match column
    case "safe_count" => Get(c, "SAFE")
    case "warn_count" => Get(c, "WARN")
    case "danger_count" => Get(c, "DANGER")
    case _ => Get(fields, column)
  }

  /** Every column of a tuple holds the field of its name, and only incomplete records have no tuple. */
  lemma RowHoldsItsRecord(record: Json, i: nat)
    requires record.Object? && i < |COLUMNS|
    ensures RecordToRow(record).Some? <==>
            Truthy(FieldOf(record.fields, "geohash")) && Truthy(FieldOf(record.fields, "window_start"))
            && FieldOf(record.fields, "count") != Null
    ensures RecordToRow(record).Some? ==> Values(RecordToRow(record).value)[i] == FieldOf(record.fields, COLUMNS[i])
  {
  }

  /** What a tuple asks of the database. */
  function Ask(columns: Columns, t: Tuple): Entry {
    var key := columns(t);
    if key.Some? then Write(Row(key.value, Values(t))) else Poison
  }

  /** What a message asks of it: bytes that are no UTF-8 fail the poll that delivers them. */
  function EntryOf(columns: Columns, m: Message): Entry {
    match m
    case NotUtf8 => Poison
    case NotJson => Skip
    case Decoded(value) =>
      var t := RecordToRow(value);
      if t.Some? then Ask(columns, t.value) else Skip
  }

  /** The log as the protocol sees it. */
  function Entries(columns: Columns, msgs: seq<Message>): seq<Entry> {
    seq(|msgs|, i requires 0 <= i < |msgs| => EntryOf(columns, msgs[i]))
  }

  function Asks(columns: Columns, tuples: seq<Tuple>): seq<Entry> {
    seq(|tuples|, i requires 0 <= i < |tuples| => Ask(columns, tuples[i]))
  }

  // ---------------------------------------------------------------- the program

  function AsMessages(records: seq<Json>): seq<Message> {
    seq(|records|, i requires 0 <= i < |records| => Decoded(records[i]))
  }

  predicate IsJson(m: Message) {
    m.Decoded?
  }

  /** `_decode`: the JSON values of a batch, skipping what is no JSON. */
  method Decode(values: seq<Message>) returns (records: seq<Json>)
    ensures AsMessages(records) == Filter(IsJson, values)
  {
    records := [];
    for i := 0 to |values|
      invariant AsMessages(records) == Filter(IsJson, values[..i])
    {
      assert values[..i + 1][..i] == values[..i];
      if values[i].Decoded? {
        records := records + [values[i].value];
      }
    }
    assert values[..|values|] == values;
  }

  /** What is left of a batch's entries when nothing is asked for the skipped ones. */
  function Asked(entries: seq<Entry>): seq<Entry> {
    Filter(IsAsked, entries)
  }

  predicate IsAsked(e: Entry) {
    e != Skip
  }

  /** `build_rows`: the tuples of a batch, skipping malformed records. */
  method BuildRows(records: seq<Json>, ghost columns: Columns) returns (tuples: seq<Tuple>)
    ensures Asks(columns, tuples) == Asked(Entries(columns, AsMessages(records)))
  {
    tuples := [];
    ghost var entries := Entries(columns, AsMessages(records));
    for i := 0 to |records|
      invariant Asks(columns, tuples) == Asked(entries[..i])
    {
      assert entries[..i + 1][..i] == entries[..i];
      var t := RecordToRow(records[i]);
      if t.Some? {
        tuples := tuples + [t.value];
      }
    }
    assert entries[..|records|] == entries;
  }

  /** Skipped entries neither store anything nor keep a batch from being stored. */
  lemma {:induction false} AskedIsEnough(entries: seq<Entry>)
    ensures RowsOf(Asked(entries)) == RowsOf(entries)
    ensures Poison in Asked(entries) <==> Poison in entries
  {
    FilterMembers(IsAsked, entries);
    if entries != [] {
      var kept, last := Asked(entries[..|entries| - 1]), entries[|entries| - 1];
      AskedIsEnough(entries[..|entries| - 1]);
      assert (kept + [last])[..|kept|] == kept;
    }
  }

  /** Dropping what is no JSON first asks for the same. */
  lemma {:induction false} DecodedAsks(columns: Columns, msgs: seq<Message>)
    requires NotUtf8 !in msgs
    ensures Asked(Entries(columns, Filter(IsJson, msgs))) == Asked(Entries(columns, msgs))
  {
    if msgs != [] {
      var init, last := msgs[..|msgs| - 1], msgs[|msgs| - 1];
      DecodedAsks(columns, init);
      assert msgs == init + [last];
      EntriesAppend(columns, init, last);
      AskedAppend(Entries(columns, init), EntryOf(columns, last));
      if last.Decoded? {
        var kept := Filter(IsJson, init);
        EntriesAppend(columns, kept, last);
        AskedAppend(Entries(columns, kept), EntryOf(columns, last));
      }
    }
  }

  lemma EntriesAppend(columns: Columns, msgs: seq<Message>, m: Message)
    ensures Entries(columns, msgs + [m]) == Entries(columns, msgs) + [EntryOf(columns, m)]
  {
  }

  lemma AskedAppend(entries: seq<Entry>, e: Entry)
    ensures Asked(entries + [e]) == Asked(entries) + if e != Skip then [e] else []
  {
    assert (entries + [e])[..|entries|] == entries;
  }

  /** The row of each tuple; what stands for a refused one does not matter. */
  ghost function Rowed(columns: Columns, tuples: seq<Tuple>): seq<Row> {
    seq(|tuples|, i requires 0 <= i < |tuples| =>
      var e := Ask(columns, tuples[i]); if e.Write? then e.row else Row(Key("", 0), []))
  }

  lemma {:induction false} AllTaken(columns: Columns, tuples: seq<Tuple>)
    requires Poison !in Asks(columns, tuples)
    ensures RowsOf(Asks(columns, tuples)) == Rowed(columns, tuples)
  {
    var asks := Asks(columns, tuples);
    forall m | m in asks ensures m.Write? {
      assert m != Poison;
    }
    AllRows(asks);
    assert forall i :: 0 <= i < |tuples| ==> asks[i] in asks;
  }

  /** A statement has written `rows`, all of different keys, namely those affected. */
  ghost predicate Affected(rows: seq<Row>, before: Table, working: Table, affected: set<Key>) {
    && DifferentKeys(rows) && working == Upsert(before, rows)
    && affected == set i | 0 <= i < |rows| :: KeyOf(rows[i])
  }

  lemma OneMoreAffected(rows: seq<Row>, row: Row, before: Table, working: Table, affected: set<Key>)
    requires Affected(rows, before, working, affected)
    ensures row.key !in affected ==>
              Affected(rows + [row], before, working[row.key := row], affected + {row.key})
    ensures row.key in affected ==> !DifferentKeys(rows + [row])
  {
    var more := rows + [row];
    assert more[..|rows|] == rows;
    if row.key in affected {
      var i :| 0 <= i < |rows| && KeyOf(rows[i]) == row.key;
      assert KeyOf(more[i]) == KeyOf(more[|rows|]);
    } else {
      assert forall i :: 0 <= i < |rows| ==> KeyOf(rows[i]) in affected;
    }
  }

  lemma KeysStayShared(rows: seq<Row>, n: nat)
    requires n <= |rows| && !DifferentKeys(rows[..n])
    ensures !DifferentKeys(rows)
  {
    var i, j :| 0 <= i < j < n && KeyOf(rows[..n][i]) == KeyOf(rows[..n][j]);
    assert KeyOf(rows[i]) == KeyOf(rows[j]);
  }

  /** The Postgres session: the durable table and the open transaction's view of it. */
  class Connection {
    const columns: Columns
    var table: Table
    var working: Table

    constructor (columns: Columns)
      ensures this.columns == columns && table == map[] && working == map[]
    {
      this.columns, table, working := columns, map[], map[];
    }

    /** Every value of the page is one its column takes. */
    method TypesTake(page: seq<Tuple>) returns (taken: bool)
      ensures taken <==> Poison !in Asks(columns, page)
    {
      for n := 0 to |page|
        invariant forall i :: 0 <= i < n ==> columns(page[i]).Some?
      {
        if columns(page[n]).None? {
          assert Asks(columns, page)[n] == Poison;
          return false;
        }
      }
      taken := true;
    }

    /**
     One INSERT ... ON CONFLICT DO UPDATE statement; false is the error Postgres raises for a
     value its column refuses and for a conflict key named twice.
     */
    method ExecutePage(page: seq<Tuple>) returns (ok: bool)
      modifies this`working
      ensures ok <==> Poison !in Asks(columns, page) && DifferentKeys(RowsOf(Asks(columns, page)))
      ensures ok ==> working == Upsert(old(working), RowsOf(Asks(columns, page)))
      ensures !ok ==> working == old(working)
    {
      var before, affected := working, {};
      ghost var rows := Rowed(columns, page);
      var taken := TypesTake(page);
      if !taken {
        return false;
      }
      AllTaken(columns, page);
      for n := 0 to |page|
        invariant Affected(rows[..n], before, working, affected)
      {
        assert Asks(columns, page)[n] != Poison;
        var row := Ask(columns, page[n]).row;
        OneMoreAffected(rows[..n], row, before, working, affected);
        assert rows[..n + 1] == rows[..n] + [row];
        if row.key in affected {
          KeysStayShared(rows, n + 1);
          working := before;
          return false;
        }
        working, affected := working[row.key := row], affected + {row.key};
      }
      assert rows[..|page|] == rows;
      ok := true;
    }

    method Commit()
      modifies this`table
      ensures table == working
    {
      table := working;
    }

    method Rollback()
      modifies this`working
      ensures working == table
    {
      working := table;
    }
  }

  ghost predicate DifferentKeys(rows: seq<Row>) {
    forall i, j {:trigger rows[i], rows[j]} :: 0 <= i < j < |rows| ==> KeyOf(rows[i]) != KeyOf(rows[j])
  }

  datatype Upserted = Rows(count: nat) | Refused

  /** What a stretch of a batch asks, as its first and its last part. */
  lemma AsksSplit(columns: Columns, tuples: seq<Tuple>, off: nat, next: nat)
    requires off <= next <= |tuples|
    ensures Asks(columns, tuples[..next]) == Asks(columns, tuples[..off]) + Asks(columns, tuples[off..next])
    ensures Rowed(columns, tuples[off..next]) == Rowed(columns, tuples)[off..next]
    ensures Asks(columns, tuples[..next]) == Asks(columns, tuples)[..next]
  {
  }

  /** The first `off` tuples are in the open transaction, as far as their statements were accepted. */
  ghost predicate Written(columns: Columns, tuples: seq<Tuple>, off: nat, table: Table, working: Table) {
    && off <= |tuples| && (off % PAGE_SIZE == 0 || off == |tuples|)
    && Poison !in Asks(columns, tuples[..off]) && PagesDistinct(Rowed(columns, tuples)[..off])
    && working == Upsert(table, Rowed(columns, tuples)[..off])
  }

  lemma PageWritten(columns: Columns, tuples: seq<Tuple>, off: nat, next: nat, table: Table, working: Table)
    requires Written(columns, tuples, off, table, working) && off < next == Min(off + PAGE_SIZE, |tuples|)
    requires var asks := Asks(columns, tuples[off..next]); Poison !in asks && DifferentKeys(RowsOf(asks))
    ensures Written(columns, tuples, next, table, Upsert(working, RowsOf(Asks(columns, tuples[off..next]))))
  {
    var rows := Rowed(columns, tuples);
    AsksSplit(columns, tuples, off, next);
    AllTaken(columns, tuples[off..next]);
    PageStep(rows, off, next);
    UpsertConcat(table, rows[..off], rows[off..next]);
    assert rows[..off] + rows[off..next] == rows[..next];
  }

  lemma AllWritten(columns: Columns, tuples: seq<Tuple>, table: Table, working: Table)
    requires Written(columns, tuples, |tuples|, table, working)
    ensures Storable(Asks(columns, tuples)) && working == Upsert(table, RowsOf(Asks(columns, tuples)))
  {
    assert tuples[..|tuples|] == tuples && Rowed(columns, tuples)[..|tuples|] == Rowed(columns, tuples);
    AllTaken(columns, tuples);
  }

  /** A refused page means a refused batch. */
  lemma RefusedPage(columns: Columns, tuples: seq<Tuple>, off: nat, next: nat)
    requires off < next == Min(off + PAGE_SIZE, |tuples|) && off % PAGE_SIZE == 0
    requires PagesDistinct(Rowed(columns, tuples)[..off])
    requires var asks := Asks(columns, tuples[off..next]); Poison in asks || !DifferentKeys(RowsOf(asks))
    ensures !Storable(Asks(columns, tuples))
  {
    if Poison in Asks(columns, tuples[off..next]) {
      PoisonInPage(columns, tuples, off, next);
    } else if Poison !in Asks(columns, tuples) {
      assert !PagesDistinct(Rowed(columns, tuples)) by {
        AsksSplit(columns, tuples, off, next);
        AllTaken(columns, tuples[off..next]);
        PageStep(Rowed(columns, tuples), off, next);
      }
      AllTaken(columns, tuples);
    }
  }

  lemma PoisonInPage(columns: Columns, tuples: seq<Tuple>, off: nat, next: nat)
    requires off <= next <= |tuples| && Poison in Asks(columns, tuples[off..next])
    ensures Poison in Asks(columns, tuples)
  {
    var page := tuples[off..next];
    var i :| 0 <= i < |page| && Asks(columns, page)[i] == Poison;
    assert Asks(columns, tuples)[off + i] == Poison;
  }

  /** `upsert_batch`: all the rows in one transaction, page by page. */
  method UpsertBatch(conn: Connection, tuples: seq<Tuple>) returns (r: Upserted)
    requires conn.working == conn.table
    modifies conn
    ensures conn.working == conn.table
    ensures r.Rows? <==> Storable(Asks(conn.columns, tuples))
    ensures r.Rows? ==> r.count == |tuples| && conn.table == Upsert(old(conn.table), RowsOf(Asks(conn.columns, tuples)))
    ensures r.Refused? ==> conn.table == old(conn.table)
  {
    ghost var columns := conn.columns;
    assert Written(columns, tuples, 0, conn.table, conn.working);
    if tuples == [] {
      AllWritten(columns, tuples, conn.table, conn.working);
      return Rows(0);
    }
    var off := 0;
    while off < |tuples|
      invariant 0 <= off <= |tuples| && conn.table == old(conn.table)
      invariant Written(columns, tuples, off, conn.table, conn.working)
    {
      var next := Min(off + PAGE_SIZE, |tuples|);
      ghost var working := conn.working;
      var ok := conn.ExecutePage(tuples[off..next]);
      if !ok {
        RefusedPage(columns, tuples, off, next);
        conn.Rollback();
        return Refused;
      }
      PageWritten(columns, tuples, off, next, conn.table, working);
      off := next;
    }
    AllWritten(columns, tuples, conn.table, conn.working);
    conn.Commit();
    r := Rows(|tuples|);
  }

  /** The consumer's view of the partition. Offsets are indices into `log`. */
  class KafkaConsumer {
    var log: seq<Message>
    var position: nat
    var committed: nat

    constructor (log: seq<Message>)
      ensures this.log == log && position == 0 && committed == 0
    {
      this.log, position, committed := log, 0, 0;
    }

    ghost predicate Valid()
      reads this
    {
      committed <= position <= |log|
    }

    /** The broker hands out `n` records; it may hand out fewer than are waiting. */
    method Poll(n: nat) returns (values: seq<Message>)
      requires Valid() && n <= |log| - position
      modifies this`position
      ensures Valid() && position == old(position) + n && values == log[old(position)..position]
    {
      values := log[position..position + n];
      position := position + n;
    }

    /** More messages in the partition. */
    method Receive(msgs: seq<Message>)
      requires Valid()
      modifies this`log
      ensures Valid() && log == old(log) + msgs
    {
      log := log + msgs;
    }

    method CommitOffsets()
      requires Valid()
      modifies this`committed
      ensures Valid() && committed == position
    {
      committed := position;
    }

    /** A new process in the same group resumes at the committed offset. */
    method Reopen()
      requires Valid()
      modifies this`position
      ensures Valid() && position == committed
    {
      position := committed;
    }
  }

  datatype Outcome = Idle | Advanced(written: nat) | Died

  /** What the records in [lo, hi) of the partition ask of the database. */
  function Batched(columns: Columns, log: seq<Message>, lo: nat, hi: nat): seq<Entry>
    requires lo <= hi <= |log|
  {
    Entries(columns, log[lo..hi])
  }

  /** A batch of readable messages asks for the same as its tuples do. */
  lemma SameBatch(columns: Columns, values: seq<Message>, records: seq<Json>, tuples: seq<Tuple>)
    requires NotUtf8 !in values && AsMessages(records) == Filter(IsJson, values)
    requires Asks(columns, tuples) == Asked(Entries(columns, AsMessages(records)))
    ensures RowsOf(Asks(columns, tuples)) == RowsOf(Entries(columns, values))
    ensures Storable(Asks(columns, tuples)) <==> Storable(Entries(columns, values))
    ensures Storable(Asks(columns, tuples)) ==> |RowsOf(Entries(columns, values))| == |tuples|
  {
    DecodedAsks(columns, values);
    AskedIsEnough(Entries(columns, values));
    if Storable(Asks(columns, tuples)) {
      AllTaken(columns, tuples);
    }
  }

  lemma UnreadableBatch(columns: Columns, values: seq<Message>)
    requires NotUtf8 in values
    ensures !Storable(Entries(columns, values))
  {
    var i :| 0 <= i < |values| && values[i] == NotUtf8;
    assert Entries(columns, values)[i] == Poison;
  }

  /** `process_batch`: poll, upsert, and only then commit the offset. */
  method ProcessBatch(consumer: KafkaConsumer, conn: Connection, delivered: nat, fault: Fault) returns (r: Outcome)
    requires consumer.Valid() && conn.working == conn.table
    requires delivered <= |consumer.log| - consumer.position
    modifies consumer`position, consumer`committed, conn
    ensures consumer.Valid() && conn.working == conn.table
    ensures consumer.position == old(consumer.position) + delivered
    ensures var batch := Batched(conn.columns, consumer.log, old(consumer.position), consumer.position);
            match r
            case Idle => delivered == 0 && conn.table == old(conn.table)
            case Advanced(written) => delivered > 0 && fault == NoFault && Storable(batch) && written == |RowsOf(batch)|
            case Died => delivered > 0 && (fault != NoFault || !Storable(batch))
    ensures consumer.committed == if r.Advanced? then consumer.position else old(consumer.committed)
    ensures var batch := Batched(conn.columns, consumer.log, old(consumer.position), consumer.position);
            conn.table == if delivered > 0 && fault != BeforeDbCommit && Storable(batch)
                          then Upsert(old(conn.table), RowsOf(batch)) else old(conn.table)
  {
    var values := consumer.Poll(delivered);
    if values == [] {
      return Idle;
    }
    if NotUtf8 in values {
      UnreadableBatch(conn.columns, values);
      return Died;
    }
    var records := Decode(values);
    var tuples := BuildRows(records, conn.columns);
    SameBatch(conn.columns, values, records, tuples);
    if fault == BeforeDbCommit {
      return Died;
    }
    var written := UpsertBatch(conn, tuples);
    if written.Refused? || fault == AfterDbCommit {
      return Died;
    }
    consumer.CommitOffsets();
    r := Advanced(written.count);
  }

  /** The consumer and the table are in the protocol state `s`. */
  ghost predicate InState(consumer: KafkaConsumer, conn: Connection, s: SinkState)
    reads consumer, conn
  {
    && consumer.Valid() && conn.working == conn.table == s.table
    && s.log == Entries(conn.columns, consumer.log) && s.position == consumer.position && s.committed == consumer.committed
  }

  lemma EntriesSlice(columns: Columns, log: seq<Message>, lo: nat, hi: nat)
    requires lo <= hi <= |log|
    ensures Batched(columns, log, lo, hi) == Entries(columns, log)[lo..hi]
  {
  }

  /** What becomes of a poll of `n` records: `t` after `s`. */
  ghost predicate IsOutcome(s: SinkState, t: SinkState, fault: Fault, n: nat, batch: seq<Entry>) {
    var stored := n > 0 && fault != BeforeDbCommit && Storable(batch);
    && t.log == s.log && t.table == (if stored then Upsert(s.table, RowsOf(batch)) else s.table)
    && t.committed == (if stored && fault == NoFault then s.position + n else s.committed)
    && t.position == if n == 0 then s.position else t.committed
  }

  /** What the protocol makes of it. */
  lemma BatchOutcome(s: SinkState, delivered: nat, fault: Fault, n: nat, batch: seq<Entry>)
    requires s.position <= |s.log| && n == Min(delivered, |s.log| - s.position)
    requires batch == s.log[s.position..s.position + n]
    ensures IsOutcome(s, Step(s, Batch(delivered, fault)), fault, n, batch)
  {
    if n == 0 {
      assert Step(s, Batch(delivered, fault)) == s;
    } else {
      assert Step(s, Batch(delivered, fault)) == HandleBatch(s, s.position + n, fault);
    }
  }

  /** A batch, and a new process if this one died over it. */
  method BatchOrRestart(consumer: KafkaConsumer, conn: Connection, n: nat, fault: Fault, ghost s: SinkState, ghost t: SinkState)
    requires InState(consumer, conn, s) && s.position + n <= |consumer.log|
    requires IsOutcome(s, t, fault, n, Batched(conn.columns, consumer.log, s.position, s.position + n))
    modifies consumer`position, consumer`committed, conn
    ensures InState(consumer, conn, t)
  {
    var outcome := ProcessBatch(consumer, conn, n, fault);
    if outcome.Died? {
      consumer.Reopen();
    }
  }

  /** One turn of the supervised loop: a process that dies is started again. */
  method RunOnce(consumer: KafkaConsumer, conn: Connection, delivered: nat, fault: Fault, ghost s: SinkState)
    requires InState(consumer, conn, s)
    modifies consumer`position, consumer`committed, conn
    ensures InState(consumer, conn, Step(s, Batch(delivered, fault)))
  {
    var n := Min(delivered, |consumer.log| - consumer.position);
    EntriesSlice(conn.columns, consumer.log, s.position, s.position + n);
    BatchOutcome(s, delivered, fault, n, Batched(conn.columns, consumer.log, s.position, s.position + n));
    BatchOrRestart(consumer, conn, n, fault, s, Step(s, Batch(delivered, fault)));
  }

  /** What can happen to the running program: messages arrive, it polls, or it dies between two polls. */
  datatype Turn = Arrive(msgs: seq<Message>) | Poll(delivered: nat, fault: Fault) | Die

  /** The steps of the protocol that these are. */
  function Events(columns: Columns, turns: seq<Turn>): seq<Event> {
    seq(|turns|, i requires 0 <= i < |turns| =>
      match turns[i]
      case Arrive(msgs) => Produce(Entries(columns, msgs))
      case Poll(delivered, fault) => Batch(delivered, fault)
      case Die => Restart)
  }

  lemma EntriesConcat(columns: Columns, a: seq<Message>, b: seq<Message>)
    ensures Entries(columns, a + b) == Entries(columns, a) + Entries(columns, b)
  {
  }

  /** `run`, restarted after every death: the program steps exactly as the protocol does. */
  method RunSink(consumer: KafkaConsumer, conn: Connection, turns: seq<Turn>, ghost s: SinkState)
    requires InState(consumer, conn, s)
    modifies consumer, conn
    ensures InState(consumer, conn, Run(s, Events(conn.columns, turns)))
  {
    ghost var events := Events(conn.columns, turns);
    for i := 0 to |turns|
      invariant InState(consumer, conn, Run(s, events[..i]))
    {
      ghost var before := Run(s, events[..i]);
      assert events[..i + 1][..i] == events[..i];
      match turns[i]
      case Arrive(msgs) =>
        EntriesConcat(conn.columns, consumer.log, msgs);
        consumer.Receive(msgs);
      case Poll(delivered, fault) =>
        RunOnce(consumer, conn, delivered, fault, before);
      case Die =>
        consumer.Reopen();
    }
    assert events[..|turns|] == events;
  }
}
