/** Which messages the aggregated sink skips, which it stores and as what, told by their JSON. */
module SinkRecords {
  import opened Sequences
  import opened JsonValues
  import opened SinkTable
  import opened SinkProtocol
  import opened AggregatedSink

  predicate IsNull(fields: map<string, Json>, name: string) {
    name !in fields || fields[name] == Null
  }

  /** What a record needs: a geohash and a window start that count as true, and any count, zero included. */
  predicate Complete(value: Json) {
    value.Object? && !Lacks(value.fields, "geohash") && !Lacks(value.fields, "window_start") && !IsNull(value.fields, "count")
  }

  /** A JSON value is skipped exactly when it is no complete record, whatever the columns take. */
  lemma SkippedIff(columns: Columns, value: Json)
    ensures EntryOf(columns, Decoded(value)) == Skip <==> !Complete(value)
  {
  }

  /** What no schedule gets past: undecodable bytes, and a complete record that some column refuses. */
  lemma PoisonIff(columns: Columns, m: Message)
    ensures EntryOf(columns, m) == Poison <==>
            m.NotUtf8? || (m.Decoded? && Complete(m.value) && columns(TupleOf(m.value.fields)).None?)
    ensures EntryOf(columns, m) == Skip <==> m.NotJson? || (m.Decoded? && !Complete(m.value))
  {
    if m.Decoded? {
      SkippedIff(columns, m.value);
    }
  }

  function ValueOf(fields: map<string, Json>, name: string): Json {
    if name in fields then fields[name] else Null
  }

  /** The counts per class: an object under `class_counts`, or nothing. */
  function ClassCounts(fields: map<string, Json>): map<string, Json> {
    match ValueOf(fields, "class_counts")
    case Object(counts) => counts
    case _ => map[]
  }

  /** The tuple of a complete record, column by column. */
  function TupleOf(f: map<string, Json>): Tuple {
    var c := ClassCounts(f);
    Tuple(
      geohash := ValueOf(f, "geohash"), windowStart := ValueOf(f, "window_start"), windowEnd := ValueOf(f, "window_end"),
      precision := ValueOf(f, "precision"), count := ValueOf(f, "count"),
      cpmAvg := ValueOf(f, "cpm_avg"), cpmMax := ValueOf(f, "cpm_max"), cpmMin := ValueOf(f, "cpm_min"),
      safeCount := ValueOf(c, "SAFE"), warnCount := ValueOf(c, "WARN"), dangerCount := ValueOf(c, "DANGER"),
      worstClassification := ValueOf(f, "worst_classification"),
      centroidLatitude := ValueOf(f, "centroid_latitude"), centroidLongitude := ValueOf(f, "centroid_longitude"),
      rollingCpmAvg := ValueOf(f, "rolling_cpm_avg"), cpmZscore := ValueOf(f, "cpm_zscore"), anomaly := ValueOf(f, "anomaly"))
  }

  /** Column `name` of the row that holds a record. */
  function ColumnOf(f: map<string, Json>, name: string): Json {
    match name
    case "safe_count" => ValueOf(ClassCounts(f), "SAFE")
    case "warn_count" => ValueOf(ClassCounts(f), "WARN")
    case "danger_count" => ValueOf(ClassCounts(f), "DANGER")
    case _ => ValueOf(f, name)
  }

  /**
   A complete record that the columns take is written: under the key they read from it, with the
   field of its own name in each column of the statement.
   */
  lemma WrittenRow(columns: Columns, value: Json, i: nat)
    requires Complete(value) && i < |COLUMNS|
    ensures var e := EntryOf(columns, Decoded(value));
            e.Write? ==>
              && columns(TupleOf(value.fields)) == Some(e.row.key)
              && |e.row.values| == |COLUMNS| && e.row.values[i] == ColumnOf(value.fields, COLUMNS[i])
  {
    RecordIs(value);
    RowHoldsItsRecord(value, i);
    FieldIsColumn(value.fields, COLUMNS[i]);
  }

  lemma RecordIs(value: Json)
    ensures RecordToRow(value) == if Complete(value) then Some(TupleOf(value.fields)) else None
  {
    if value.Object? {
      var f := value.fields;
      assert ValueOf(f, "class_counts") == Get(f, "class_counts");
    }
  }

  lemma FieldIsColumn(f: map<string, Json>, name: string)
    ensures FieldOf(f, name) == ColumnOf(f, name)
  {
  }

  // ---------------------------------------------------------------- skipped messages in a run

  /** The messages that are not skipped. */
  function Asking(columns: Columns, msgs: seq<Message>): seq<Message> {
    Filter((m: Message) => EntryOf(columns, m) != Skip, msgs)
  }

  /** A JSON value that is no complete record asks for nothing, wherever it is in the log. */
  lemma IncompleteAsksNothing(columns: Columns, a: seq<Message>, value: Json, b: seq<Message>)
    requires !Complete(value)
    ensures Asking(columns, a + [Decoded(value)] + b) == Asking(columns, a + b)
  {
    var asks := (m: Message) => EntryOf(columns, m) != Skip;
    SkippedIff(columns, value);
    FilterConcat(asks, a + [Decoded(value)], b);
    FilterConcat(asks, a, [Decoded(value)]);
    FilterConcat(asks, a, b);
    assert [Decoded(value)][..0] == [];
  }

  lemma {:induction false} AskingEntries(columns: Columns, msgs: seq<Message>)
    ensures Entries(columns, Asking(columns, msgs)) == Asked(Entries(columns, msgs))
  {
    if msgs != [] {
      var init, last := msgs[..|msgs| - 1], msgs[|msgs| - 1];
      AskingEntries(columns, init);
      EntriesAppend(columns, init, last);
      EntriesAppend(columns, Asking(columns, init), last);
      AskedAppend(Entries(columns, init), EntryOf(columns, last));
      assert msgs == init + [last];
    }
  }

  /** Messages that are skipped, wherever and however many, add no row and stop no batch. */
  lemma AskingIsEnough(columns: Columns, msgs: seq<Message>)
    ensures RowsOf(Entries(columns, Asking(columns, msgs))) == RowsOf(Entries(columns, msgs))
    ensures Poison in Entries(columns, Asking(columns, msgs)) <==> Poison in Entries(columns, msgs)
  {
    AskingEntries(columns, msgs);
    AskedIsEnough(Entries(columns, msgs));
  }

  /** The sink before it has read anything of these messages. */
  ghost function Waiting(columns: Columns, msgs: seq<Message>): SinkState {
    Step(Init(), Produce(Entries(columns, msgs)))
  }

  lemma WaitingIs(columns: Columns, msgs: seq<Message>)
    ensures Waiting(columns, msgs) == SinkState(Entries(columns, msgs), 0, 0, 0, map[]) && Inv(Waiting(columns, msgs))
  {
    assert [] + Entries(columns, msgs) == Entries(columns, msgs);
    StepKeepsInvariant(Init(), Produce(Entries(columns, msgs)));
  }

  lemma CanCatchUpIff(columns: Columns, msgs: seq<Message>)
    ensures CanCatchUp(Waiting(columns, msgs)) <==> Poison !in Entries(columns, msgs)
  {
    var s := Waiting(columns, msgs);
    WaitingIs(columns, msgs);
    assert s.log[s.position..] == Entries(columns, msgs);
    SomeScheduleCatchesUpIff(s);
  }

  /**
   Two logs that differ in skipped messages only: some schedule commits the one if and only if
   some schedule commits the other.
   */
  lemma SkippedMessagesStopNothing(columns: Columns, one: seq<Message>, other: seq<Message>)
    requires Asking(columns, one) == Asking(columns, other)
    ensures CanCatchUp(Waiting(columns, one)) <==> CanCatchUp(Waiting(columns, other))
  {
    CanCatchUpIff(columns, one);
    CanCatchUpIff(columns, other);
    AskingIsEnough(columns, one);
    AskingIsEnough(columns, other);
  }

  /** The run has read the log it waited for. */
  ghost predicate HasRead(columns: Columns, msgs: seq<Message>, events: seq<Event>) {
    var s := Run(Waiting(columns, msgs), events);
    s.log == Entries(columns, msgs) && s.position == |s.log|
  }

  /** Whatever the schedule, the table is then the newest row of each key among the messages that ask for one. */
  lemma TableOnceRead(columns: Columns, msgs: seq<Message>, events: seq<Event>)
    requires HasRead(columns, msgs, events)
    ensures Run(Waiting(columns, msgs), events).table == LatestWins(RowsOf(Entries(columns, Asking(columns, msgs))))
  {
    var s := Run(Waiting(columns, msgs), events);
    WaitingIs(columns, msgs);
    RunKeepsInvariantFrom(Waiting(columns, msgs), events);
    AtHighWater(s);
    assert s.log[..|s.log|] == s.log;
    AskingIsEnough(columns, msgs);
  }

  /** And they leave the same table, whatever the two schedules. */
  lemma SkippedMessagesLeaveTheTable(columns: Columns, one: seq<Message>, other: seq<Message>,
                                     events: seq<Event>, events': seq<Event>)
    requires Asking(columns, one) == Asking(columns, other)
    requires HasRead(columns, one, events) && HasRead(columns, other, events')
    ensures Run(Waiting(columns, one), events).table == Run(Waiting(columns, other), events').table
  {
    TableOnceRead(columns, one, events);
    TableOnceRead(columns, other, events');
  }
}
