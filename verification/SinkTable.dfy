/** The table of aggregated blobs: rows, the conflict key, and what an upsert makes of them. */
module SinkTable {
  import opened Sequences
  import opened JsonValues

  /** The primary key, as the columns hold it: text, and an instant in milliseconds. */
  datatype Key = Key(geohash: string, windowStart: int)

  /** A row: its key, and the values of all columns in their order. */
  datatype Row = Row(key: Key, values: seq<Json>)

  type Table = map<Key, Row>

  function KeyOf(row: Row): Key {
    row.key
  }

  /** What a message asks of the database: nothing, a row, or what no batch survives. */
  datatype Entry = Skip | Poison | Write(row: Row)

  /** The rows of a stretch of the log: messages without a row leave no trace. */
  function RowsOf(entries: seq<Entry>): seq<Row> {
    if entries == [] then []
    else
      var rest := RowsOf(entries[..|entries| - 1]);
      var e := entries[|entries| - 1];
      if e.Write? then rest + [e.row] else rest
  }

  /** What the table should hold: of each key, the row written last. */
  function Upsert(table: Table, rows: seq<Row>): Table {
    if rows == [] then table
    else
      var last := rows[|rows| - 1];
      Upsert(table, rows[..|rows| - 1])[KeyOf(last) := last]
  }

  function LatestWins(rows: seq<Row>): Table {
    Upsert(map[], rows)
  }

  /** Rows per INSERT statement: the default page size of psycopg2's `execute_values`. */
  const PAGE_SIZE: nat := 100

  /** Rows `i` and `j` of a batch travel in the same INSERT statement. */
  ghost predicate SamePage(i: nat, j: nat) {
    i / PAGE_SIZE == j / PAGE_SIZE
  }

  /** No INSERT statement of the batch names one conflict key twice. */
  ghost predicate PagesDistinct(rows: seq<Row>) {
    forall i: nat, j: nat {:trigger SamePage(i, j)} ::
      i < j < |rows| && SamePage(i, j) ==> KeyOf(rows[i]) != KeyOf(rows[j])
  }

  /** The batches that are stored: nothing poisonous in them, and no statement repeats a key. */
  ghost predicate Storable(entries: seq<Entry>) {
    Poison !in entries && PagesDistinct(RowsOf(entries))
  }

  lemma {:induction false} UpsertConcat(table: Table, a: seq<Row>, b: seq<Row>)
    ensures Upsert(table, a + b) == Upsert(Upsert(table, a), b)
  {
    if b == [] {
      assert a + b == a;
    } else {
      UpsertConcat(table, a, b[..|b| - 1]);
      assert (a + b)[..|a + b| - 1] == a + b[..|b| - 1];
    }
  }

  lemma {:induction false} OneMoreMessage(table: Table, msgs: seq<Entry>, m: Entry)
    ensures var before, after := Upsert(table, RowsOf(msgs)), Upsert(table, RowsOf(msgs + [m]));
            after == if m.Write? then before[KeyOf(m.row) := m.row] else before
  {
    var rows := RowsOf(msgs);
    assert (msgs + [m])[..|msgs|] == msgs;
    if m.Write? {
      assert (rows + [m.row])[..|rows|] == rows;
    }
  }

  /** A page boundary splits the question whether all pages are distinct. */
  lemma PageStep(rows: seq<Row>, off: nat, next: nat)
    requires off < next == Min(off + PAGE_SIZE, |rows|) && off % PAGE_SIZE == 0
    requires PagesDistinct(rows[..off])
    ensures PagesDistinct(rows[..next]) <==>
            forall i, j :: 0 <= i < j < next - off ==> KeyOf(rows[off..next][i]) != KeyOf(rows[off..next][j])
    ensures PagesDistinct(rows) ==> PagesDistinct(rows[..next])
    ensures next % PAGE_SIZE == 0 || next == |rows|
  {
    var page := rows[off..next];
    assert forall i: nat :: off <= i < next ==> i / PAGE_SIZE == off / PAGE_SIZE;
    assert forall i: nat :: i < off ==> i / PAGE_SIZE < off / PAGE_SIZE;
    if PagesDistinct(rows[..next]) {
      forall i, j | 0 <= i < j < next - off ensures KeyOf(page[i]) != KeyOf(page[j]) {
        assert SamePage(off + i, off + j);
      }
    }
    if forall i, j :: 0 <= i < j < next - off ==> KeyOf(page[i]) != KeyOf(page[j]) {
      forall i: nat, j: nat | i < j < next && SamePage(i, j) ensures KeyOf(rows[i]) != KeyOf(rows[j]) {
        if j < off {
          assert rows[..off][i] == rows[i] && rows[..off][j] == rows[j];
        } else {
          assert page[i - off] == rows[i] && page[j - off] == rows[j];
        }
      }
    }
  }
}
