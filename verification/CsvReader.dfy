/** Streaming a CSV in blocks: skip, filter by time span, sort each full block, flush. */
module CsvReader {
  import opened Sequences
  import opened StableSort

  /** A row under its internal field names; an absent field and an empty one read alike. */
  type Row = map<string, string>

  function Field(row: Row, name: string): string {
    if name in row then row[name] else ""
  }

  predicate Less(a: string, b: string) {
    !Lex(b, a)
  }

  /** The time bounds, inclusive, and the normalisation of timestamps. */
  datatype Span = Span(start: Option<string>, end: Option<string>, parse: string -> string)

  predicate InSpan(row: Row, span: Span) {
    if span.start.None? && span.end.None? then true
    else if Field(row, "captured_at") == "" then true
    else
      var ts := span.parse(Field(row, "captured_at"));
      && (span.start.Some? ==> !Less(ts, span.parse(span.start.value)))
      && (span.end.Some? ==> !Less(span.parse(span.end.value), ts))
  }

  /** The raw bound is absent, or its timestamp is no later than this. */
  predicate NoLater(bound: Option<string>, ts: string, parse: string -> string) {
    bound.None? || Lex(parse(bound.value), ts)
  }

  predicate NoEarlier(bound: Option<string>, ts: string, parse: string -> string) {
    bound.None? || Lex(ts, parse(bound.value))
  }

  /** No timestamp, or one between the bounds, both inclusive. */
  predicate UndatedOrBetween(row: Row, span: Span) {
    || "captured_at" !in row || row["captured_at"] == ""
    || (var ts := span.parse(row["captured_at"]);
        NoLater(span.start, ts, span.parse) && NoEarlier(span.end, ts, span.parse))
  }

  /** The bounds of `wider` admit whatever those of `span` admit. */
  ghost predicate Contains(wider: Span, span: Span) {
    && wider.parse == span.parse
    && (wider.start.Some? ==> span.start.Some? && Lex(span.parse(wider.start.value), span.parse(span.start.value)))
    && (wider.end.Some? ==> span.end.Some? && Lex(span.parse(span.end.value), span.parse(wider.end.value)))
  }

  /** A wider span keeps every row that a narrower one keeps, and both keep rows without a timestamp. */
  lemma WiderSpanKeepsMore(row: Row, span: Span, wider: Span)
    requires Contains(wider, span)
    ensures InSpan(row, span) ==> InSpan(row, wider)
    ensures Field(row, "captured_at") == "" ==> InSpan(row, span)
  {
    var ts := span.parse(Field(row, "captured_at"));
    if InSpan(row, span) && Field(row, "captured_at") != "" {
      if wider.start.Some? {
        LexIsTransitive(span.parse(wider.start.value), span.parse(span.start.value), ts);
      }
      if wider.end.Some? {
        LexIsTransitive(ts, span.parse(span.end.value), span.parse(wider.end.value));
      }
    }
  }

  function OrderKey(orderCol: string): Row -> string {
    (row: Row) => Field(row, orderCol)
  }

  function Passing(span: Span): Row -> bool {
    (row: Row) => InSpan(row, span)
  }

  /** What is left of the rows after skipping and filtering. */
  function Kept(rows: seq<Row>, skipRows: int, span: Span): seq<Row> {
    Filter(Passing(span), rows[Min(Max(skipRows, 0), |rows|)..])
  }

  lemma {:induction false} PassingAgree(rows: seq<Row>, span: Span)
    ensures Filter(Passing(span), rows) == Filter((row: Row) => UndatedOrBetween(row, span), rows)
  {
    if rows != [] {
      PassingAgree(rows[..|rows| - 1], span);
    }
  }

  /** Kept are, in order, the rows from the skipped ones on without a timestamp or within the bounds. */
  lemma KeptAre(rows: seq<Row>, skipRows: int, span: Span)
    ensures Kept(rows, skipRows, span)
            == Filter((row: Row) => UndatedOrBetween(row, span),
                      if skipRows <= 0 then rows else if skipRows >= |rows| then [] else rows[skipRows..])
  {
    PassingAgree(rows[Min(Max(skipRows, 0), |rows|)..], span);
  }

  /** The rows sorted block by block. */
  function Streamed<T>(kept: seq<T>, size: nat, key: T -> string): seq<T>
    requires size >= 1
    decreases |kept|
  {
    if |kept| < size then Sort(kept, key)
    else Sort(kept[..size], key) + Streamed(kept[size..], size, key)
  }

  /** A number of rows that leaves no partial block. */
  predicate Whole(n: nat, size: nat)
    requires size >= 1
  {
    n == 0 || (n >= size && Whole(n - size, size))
  }

  lemma {:induction false} WholeSum(m: nat, n: nat, size: nat)
    requires size >= 1 && Whole(m, size) && Whole(n, size)
    ensures Whole(m + n, size)
  {
    if m > 0 {
      WholeSum(m - size, n, size);
    }
  }

  /** At a block boundary the stream splits. */
  lemma {:induction false} StreamedConcat<T>(a: seq<T>, b: seq<T>, size: nat, key: T -> string)
    requires size >= 1 && Whole(|a|, size)
    ensures Streamed(a + b, size, key) == Streamed(a, size, key) + Streamed(b, size, key)
    decreases |a|
  {
    if a == [] {
      assert a + b == b;
    } else {
      assert (a + b)[..size] == a[..size] && (a + b)[size..] == a[size..] + b;
      StreamedConcat(a[size..], b, size, key);
    }
  }

  /** Flushing a full block. */
  lemma Flush<T>(done: seq<T>, batch: seq<T>, size: nat, key: T -> string)
    requires size >= 1 && |batch| == size && Whole(|done|, size)
    ensures Whole(|done + batch|, size)
    ensures Streamed(done + batch, size, key) == Streamed(done, size, key) + Sort(batch, key)
  {
    assert batch[..size] == batch && batch[size..] == [];
    assert Whole(0, size) && Whole(size, size);
    WholeSum(|done|, size, size);
    StreamedConcat(done, batch, size, key);
  }

  /** The rows kept among the first `i`. */
  ghost function KeptSoFar(rows: seq<Row>, i: nat, skipRows: int, span: Span): seq<Row>
    requires i <= |rows|
  {
    Kept(rows[..i], skipRows, span)
  }

  lemma OneMoreRow(rows: seq<Row>, i: nat, skipRows: int, span: Span)
    requires i < |rows|
    ensures KeptSoFar(rows, i + 1, skipRows, span)
            == KeptSoFar(rows, i, skipRows, span) + if i >= skipRows && InSpan(rows[i], span) then [rows[i]] else []
  {
    var n, s := Min(Max(skipRows, 0), i), Min(Max(skipRows, 0), i + 1);
    if i >= skipRows {
      assert rows[..i + 1][s..] == rows[..i][n..] + [rows[i]];
      assert (rows[..i][n..] + [rows[i]])[..i - n] == rows[..i][n..];
    } else {
      assert rows[..i + 1][s..] == [] && rows[..i][n..] == [];
    }
  }

  /** The rows kept are those flushed, `done`, and those waiting in the batch. */
  ghost predicate InProgress(kept: seq<Row>, done: seq<Row>, batch: seq<Row>, out: seq<Row>, size: nat, key: Row -> string) {
    size >= 1 && kept == done + batch && Whole(|done|, size) && out == Streamed(done, size, key) && |batch| < size
  }

  lemma {:induction false} AddRow(kept: seq<Row>, done: seq<Row>, batch: seq<Row>, out: seq<Row>, size: nat,
                                  key: Row -> string, row: Row)
    requires InProgress(kept, done, batch, out, size, key)
    ensures |batch| + 1 < size ==> InProgress(kept + [row], done, batch + [row], out, size, key)
    ensures |batch| + 1 == size ==>
              InProgress(kept + [row], done + (batch + [row]), [], out + Sort(batch + [row], key), size, key)
  {
    assert kept + [row] == done + (batch + [row]);
    if |batch| + 1 == size {
      var full := batch + [row];
      Flush(done, full, size, key);
      assert kept + [row] == (done + full) + [];
    }
  }

  lemma Finish(kept: seq<Row>, done: seq<Row>, batch: seq<Row>, out: seq<Row>, size: nat, key: Row -> string)
    requires InProgress(kept, done, batch, out, size, key)
    ensures Streamed(kept, size, key) == if batch == [] then out else out + Sort(batch, key)
  {
    StreamedConcat(done, batch, size, key);
  }

  method StreamRows(rows: seq<Row>, batchSize: int, skipRows: int, span: Span, orderCol: string) returns (out: seq<Row>)
    ensures out == Streamed(Kept(rows, skipRows, span), Max(batchSize, 1), OrderKey(orderCol))
  {
    ghost var size, key := Max(batchSize, 1), OrderKey(orderCol);
    ghost var done: seq<Row> := [];
    var batch: seq<Row> := [];
    var totalSkipped := 0;
    out := [];
    for i := 0 to |rows|
      invariant totalSkipped == Min(i, Max(skipRows, 0))
      invariant InProgress(KeptSoFar(rows, i, skipRows, span), done, batch, out, size, key)
    {
      ghost var kept := KeptSoFar(rows, i, skipRows, span);
      OneMoreRow(rows, i, skipRows, span);
      if totalSkipped < skipRows {
        totalSkipped := totalSkipped + 1;
        assert KeptSoFar(rows, i + 1, skipRows, span) == kept;
      } else if InSpan(rows[i], span) {
        assert KeptSoFar(rows, i + 1, skipRows, span) == kept + [rows[i]];
        AddRow(kept, done, batch, out, size, key, rows[i]);
        batch := batch + [rows[i]];
        if |batch| >= batchSize {
          out := out + Sort(batch, OrderKey(orderCol));
          done := done + batch;
          batch := [];
        }
      }
    }
    assert rows[..|rows|] == rows;
    Finish(KeptSoFar(rows, |rows|, skipRows, span), done, batch, out, size, key);
    if batch != [] {
      out := out + Sort(batch, OrderKey(orderCol));
    }
  }

  // ---------------------------------------------------------------- a permutation, sorted per block

  lemma {:induction false} StreamedPermutes<T>(kept: seq<T>, size: nat, key: T -> string)
    requires size >= 1
    ensures multiset(Streamed(kept, size, key)) == multiset(kept) && |Streamed(kept, size, key)| == |kept|
    decreases |kept|
  {
    if |kept| < size {
      SortPermutes(kept, key);
    } else {
      SortPermutes(kept[..size], key);
      StreamedPermutes(kept[size..], size, key);
      assert kept == kept[..size] + kept[size..];
    }
  }

  lemma HeadAndTail<T>(kept: seq<T>, size: nat, key: T -> string)
    requires 1 <= size <= |kept|
    ensures var out := Streamed(kept, size, key);
            |out| == |kept| && out[..size] == Sort(kept[..size], key) && out[size..] == Streamed(kept[size..], size, key)
  {
    StreamedPermutes(kept, size, key);
    SortPermutes(kept[..size], key);
  }

  lemma SliceOfTail<T>(xs: seq<T>, n: nat, a: nat, b: nat)
    requires n <= a <= b <= |xs|
    ensures xs[a..b] == xs[n..][a - n..b - n]
  {
  }

  lemma {:induction false} FirstBlock<T>(kept: seq<T>, size: nat, key: T -> string)
    requires size >= 1
    ensures var end, out := Min(size, |kept|), Streamed(kept, size, key);
            |out| == |kept| && out[..end] == Sort(kept[..end], key)
  {
    StreamedPermutes(kept, size, key);
    if |kept| >= size {
      HeadAndTail(kept, size, key);
    } else {
      var out := Streamed(kept, size, key);
      assert kept[..|kept|] == kept && out[..|kept|] == out;
    }
  }

  /** Each block of the output is the stable sort of the same block of the input. */
  lemma {:induction false} BlocksAreSorted<T>(kept: seq<T>, size: nat, key: T -> string, start: nat, end: nat)
    requires size >= 1 && Whole(start, size) && start <= |kept| && end == Min(start + size, |kept|)
    ensures |Streamed(kept, size, key)| == |kept|
    ensures Streamed(kept, size, key)[start..end] == Sort(kept[start..end], key)
    decreases start
  {
    if start == 0 {
      FirstBlock(kept, size, key);
    } else {
      var out, tail := Streamed(kept, size, key), kept[size..];
      assert |out| == |kept| && out[start..end] == Streamed(tail, size, key)[start - size..end - size] by {
        HeadAndTail(kept, size, key);
        SliceOfTail(out, size, start, end);
      }
      assert kept[start..end] == tail[start - size..end - size] by {
        SliceOfTail(kept, size, start, end);
      }
      BlocksAreSorted(tail, size, key, start - size, end - size);
    }
  }

  /** What a row holds in the order column. */
  function Cell(row: Row, orderCol: string): string {
    if orderCol in row then row[orderCol] else ""
  }

  /**
   Of two rows of one block the first has no greater timestamp in the order column, by the first
   character in which they differ, or the second has none.
   */
  lemma RowsOfABlockAreOrdered(kept: seq<Row>, size: nat, orderCol: string, start: nat, end: nat, i: nat, j: nat)
    requires size >= 1 && Whole(start, size) && start <= |kept| && end == Min(start + size, |kept|)
    requires start <= i < j < end
    ensures var out := Streamed(kept, size, OrderKey(orderCol));
            && |out| == |kept|
            && var a, b := Cell(out[i], orderCol), Cell(out[j], orderCol);
               b == "" || (a != "" && exists k: nat :: FirstDiffersAt(a, b, k))
  {
    assert end <= |kept|;
    hide *;
    BlockAt(kept, size, OrderKey(orderCol), start, end, i, j);
    var out := Streamed(kept, size, OrderKey(orderCol));
    OrderKeyIs(out[i], orderCol);
    OrderKeyIs(out[j], orderCol);
    BeforeIff(Cell(out[i], orderCol), Cell(out[j], orderCol));
  }

  lemma OrderKeyIs(row: Row, orderCol: string)
    ensures OrderKey(orderCol)(row) == Cell(row, orderCol)
  {
  }

  lemma BlockAt<T>(kept: seq<T>, size: nat, key: T -> string, start: nat, end: nat, i: nat, j: nat)
    requires size >= 1 && Whole(start, size) && start <= |kept| && end == Min(start + size, |kept|)
    requires start <= i < j < end
    ensures var out := Streamed(kept, size, key); |out| == |kept| && Before(key(out[i]), key(out[j]))
  {
    BlocksAreSorted(kept, size, key, start, end);
    SortSorts(kept[start..end], key);
    SortedSlice(Streamed(kept, size, key), start, end, key, i, j);
  }

  lemma SortedSlice<T>(xs: seq<T>, start: nat, end: nat, key: T -> string, i: nat, j: nat)
    requires start <= i < j < end <= |xs| && Sorted(xs[start..end], key)
    ensures Before(key(xs[i]), key(xs[j]))
  {
    SortedAt(xs[start..end], key, i - start, j - start);
  }

  // ---------------------------------------------------------------- no row moves far

  datatype Tagged<T> = Tagged(item: T, at: nat)

  /** Each row with its position. */
  function Tag<T>(xs: seq<T>, base: nat): seq<Tagged<T>> {
    seq(|xs|, i requires 0 <= i < |xs| => Tagged(xs[i], base + i))
  }

  function Untag<T>(ts: seq<Tagged<T>>): seq<T> {
    seq(|ts|, i requires 0 <= i < |ts| => ts[i].item)
  }

  function OfItem<T>(key: T -> string): Tagged<T> -> string {
    (t: Tagged<T>) => key(t.item)
  }

  lemma UntagConcat<T>(a: seq<Tagged<T>>, b: seq<Tagged<T>>)
    ensures Untag(a + b) == Untag(a) + Untag(b)
  {
  }

  lemma UntagSlices<T>(ts: seq<Tagged<T>>, n: nat)
    requires n <= |ts|
    ensures Untag(ts[..n]) == Untag(ts)[..n] && Untag(ts[n..]) == Untag(ts)[n..]
  {
  }

  /** Sorting the tagged rows sorts the rows. */
  lemma {:induction false} UntagInsert<T>(ts: seq<Tagged<T>>, t: Tagged<T>, key: T -> string)
    ensures Untag(Insert(ts, t, OfItem(key))) == Insert(Untag(ts), t.item, key)
  {
    assert Untag([t]) == [t.item];
    if ts != [] {
      var n := |ts| - 1;
      UntagSlices(ts, n);
      if Before(key(ts[n].item), key(t.item)) {
        UntagConcat(ts, [t]);
      } else {
        UntagInsert(ts[..n], t, key);
        assert Untag([ts[n]]) == [ts[n].item];
        UntagConcat(Insert(ts[..n], t, OfItem(key)), [ts[n]]);
      }
    }
  }

  lemma {:induction false} UntagSort<T>(ts: seq<Tagged<T>>, key: T -> string)
    ensures Untag(Sort(ts, OfItem(key))) == Sort(Untag(ts), key)
  {
    if ts != [] {
      UntagSort(ts[..|ts| - 1], key);
      UntagInsert(Sort(ts[..|ts| - 1], OfItem(key)), ts[|ts| - 1], key);
      UntagSlices(ts, |ts| - 1);
    }
  }

  lemma {:induction false} UntagStreamed<T>(ts: seq<Tagged<T>>, size: nat, key: T -> string)
    requires size >= 1
    ensures Untag(Streamed(ts, size, OfItem(key))) == Streamed(Untag(ts), size, key)
    decreases |ts|
  {
    if |ts| < size {
      UntagSort(ts, key);
    } else {
      UntagSort(ts[..size], key);
      UntagStreamed(ts[size..], size, key);
      UntagSlices(ts, size);
      UntagConcat(Sort(ts[..size], OfItem(key)), Streamed(ts[size..], size, OfItem(key)));
    }
  }

  lemma UntagTag<T>(xs: seq<T>, base: nat)
    ensures Untag(Tag(xs, base)) == xs
  {
  }

  lemma TagSlices<T>(xs: seq<T>, base: nat, n: nat)
    requires n <= |xs|
    ensures Tag(xs, base)[..n] == Tag(xs[..n], base) && Tag(xs, base)[n..] == Tag(xs[n..], base + n)
  {
  }

  lemma SortedMember<T>(xs: seq<T>, key: T -> string, j: nat) returns (i: nat)
    requires j < |xs|
    ensures |Sort(xs, key)| == |xs| && i < |xs| && Sort(xs, key)[j] == xs[i]
  {
    SortPermutes(xs, key);
    assert Sort(xs, key)[j] in multiset(xs);
    i :| 0 <= i < |xs| && xs[i] == Sort(xs, key)[j];
  }

  /** `t` is a row of `xs`, whose positions start at `base`, less than `size` from position `base + j`. */
  ghost predicate Near<T>(t: Tagged<T>, xs: seq<T>, base: nat, size: nat, j: nat) {
    && base <= t.at < base + |xs| && t.item == xs[t.at - base]
    && t.at < base + j + size && base + j < t.at + size
  }

  lemma SortedTag<T>(xs: seq<T>, base: nat, key: T -> string, size: nat, j: nat)
    requires j < |xs| <= size
    ensures var out := Sort(Tag(xs, base), OfItem(key));
            |out| == |xs| && Near(out[j], xs, base, size, j)
  {
    var i := SortedMember(Tag(xs, base), OfItem(key), j);
  }

  lemma NearInTail<T>(t: Tagged<T>, xs: seq<T>, base: nat, size: nat, n: nat, j: nat)
    requires n <= j < |xs| && Near(t, xs[n..], base + n, size, j - n)
    ensures Near(t, xs, base, size, j)
  {
  }

  lemma NearInHead<T>(t: Tagged<T>, xs: seq<T>, base: nat, size: nat, n: nat, j: nat)
    requires n <= |xs| && Near(t, xs[..n], base, size, j)
    ensures Near(t, xs, base, size, j)
  {
  }

  lemma {:induction false} StreamedTag<T>(xs: seq<T>, base: nat, size: nat, key: T -> string, j: nat)
    requires size >= 1 && j < |xs|
    ensures var out := Streamed(Tag(xs, base), size, OfItem(key));
            |out| == |xs| && Near(out[j], xs, base, size, j)
    decreases |xs|
  {
    var ts := Tag(xs, base);
    var out := Streamed(ts, size, OfItem(key));
    if |xs| < size {
      SortedTag(xs, base, key, size, j);
    } else {
      HeadAndTail(ts, size, OfItem(key));
      TagSlices(xs, base, size);
      if j < size {
        SortedTag(xs[..size], base, key, size, j);
        assert out[j] == out[..size][j];
        NearInHead(out[j], xs, base, size, size, j);
      } else {
        StreamedTag(xs[size..], base + size, size, key, j - size);
        assert out[j] == out[size..][j - size];
        NearInTail(out[j], xs, base, size, size, j);
      }
    }
  }

  lemma {:induction false} TagsAreDistinct<T>(xs: seq<T>, base: nat, t: Tagged<T>)
    ensures multiset(Tag(xs, base))[t] <= if t.at < base + |xs| then 1 else 0
  {
    if xs != [] {
      var init, last := xs[..|xs| - 1], Tagged(xs[|xs| - 1], base + |xs| - 1);
      TagsAreDistinct(init, base, t);
      assert Tag(xs, base) == Tag(init, base) + [last];
    }
  }

  lemma TwiceCounts<T>(ts: seq<T>, i: nat, j: nat)
    requires i < j < |ts| && ts[i] == ts[j]
    ensures multiset(ts)[ts[i]] >= 2
  {
    assert ts == ts[..j] + [ts[j]] + ts[j + 1..];
    assert ts[i] == ts[..j][i];
    assert multiset(ts[..j])[ts[i]] >= 1;
  }

  function Origins<T>(xs: seq<T>, size: nat, key: T -> string): seq<nat>
    requires size >= 1
  {
    var out := Streamed(Tag(xs, 0), size, OfItem(key));
    seq(|out|, j requires 0 <= j < |out| => out[j].at)
  }

  /**
   The output is a bounded reordering: position j holds the row from position `Origins[j]`,
   less than a block away.
   */
  lemma BoundedReordering<T>(xs: seq<T>, size: nat, key: T -> string, j: nat)
    requires size >= 1 && j < |xs|
    ensures var out, origins := Streamed(xs, size, key), Origins(xs, size, key);
            && |out| == |xs| == |origins| && origins[j] < |xs|
            && out[j] == xs[origins[j]] && origins[j] < j + size && j < origins[j] + size
  {
    var out := Streamed(Tag(xs, 0), size, OfItem(key));
    StreamedTag(xs, 0, size, key, j);
    UntagStreamed(Tag(xs, 0), size, key);
    UntagTag(xs, 0);
  }

  /** No two positions hold the same row of the input. */
  lemma OriginsAreDistinct<T>(xs: seq<T>, size: nat, key: T -> string, i: nat, j: nat)
    requires size >= 1 && i < j < |Origins(xs, size, key)|
    ensures Origins(xs, size, key)[i] != Origins(xs, size, key)[j]
  {
    var ts := Tag(xs, 0);
    var out := Streamed(ts, size, OfItem(key));
    StreamedPermutes(ts, size, OfItem(key));
    StreamedTag(xs, 0, size, key, i);
    StreamedTag(xs, 0, size, key, j);
    if out[i].at == out[j].at {
      TwiceCounts(out, i, j);
      TagsAreDistinct(xs, 0, out[i]);
    }
  }

  // ---------------------------------------------------------------- resuming

  /**
   Resuming after exactly the raw rows consumed up to a flush yields the remaining output: the
   rows kept so far fill whole blocks.
   */
  lemma ResumeContinues(rows: seq<Row>, skipRows: nat, consumed: nat, span: Span, size: nat, key: Row -> string)
    requires size >= 1 && skipRows <= consumed <= |rows|
    requires Whole(|Kept(rows[..consumed], skipRows, span)|, size)
    ensures Streamed(Kept(rows, skipRows, span), size, key)
            == Streamed(Kept(rows[..consumed], skipRows, span), size, key) + Streamed(Kept(rows, consumed, span), size, key)
  {
    assert rows[skipRows..] == rows[..consumed][skipRows..] + rows[consumed..];
    FilterConcat(Passing(span), rows[..consumed][skipRows..], rows[consumed..]);
    StreamedConcat(Kept(rows[..consumed], skipRows, span), Kept(rows, consumed, span), size, key);
  }
}
