/**
 What block sorting does for the windows downstream: when the replayed rows reach the window
 operator within the bound on disorder that its watermark allows.
 */
module ReplayOrder {
  import opened Sequences
  import opened StableSort
  import opened CsvReader
  import opened EventTimeWindows
  import opened WindowOperator

  /** No element is more than `bound` older than one in front of it. */
  ghost predicate WithinBound<T>(xs: seq<T>, time: T -> int, bound: int) {
    forall i, j {:trigger xs[i], xs[j]} :: 0 <= i < j < |xs| ==> time(xs[j]) >= time(xs[i]) - bound
  }

  /** No element of `b` is more than `bound` older than one of `a`. */
  ghost predicate Follows<T>(a: seq<T>, b: seq<T>, time: T -> int, bound: int) {
    forall x, y {:trigger x in a, y in b} :: x in a && y in b ==> time(y) >= time(x) - bound
  }

  /** At every block boundary of the file no row behind is more than `bound` older than a row in front. */
  ghost predicate BoundariesWithin<T>(kept: seq<T>, size: nat, time: T -> int, bound: int)
    requires size >= 1
  {
    forall n: nat {:trigger Whole(n, size)} :: Whole(n, size) && n <= |kept| ==> Follows(kept[..n], kept[n..], time, bound)
  }

  function Block<T>(kept: seq<T>, n: nat, size: nat): seq<T>
    requires n <= |kept|
  {
    kept[n..Min(n + size, |kept|)]
  }

  /** Sorting leaves `x` in front of `y`, or puts it there; whichever stays behind is not more than `bound` older. */
  predicate PairWithin<T>(x: T, y: T, key: T -> string, time: T -> int, bound: int) {
    if Before(key(x), key(y)) then time(y) >= time(x) - bound else time(x) >= time(y) - bound
  }

  /** The rows as they are read: of any two, the one whose key comes later is not more than `bound` older. */
  ghost predicate KeysWithin<T>(xs: seq<T>, key: T -> string, time: T -> int, bound: int) {
    forall i, j {:trigger xs[i], xs[j]} :: 0 <= i < j < |xs| ==> PairWithin(xs[i], xs[j], key, time, bound)
  }

  /** This holds inside every block of the file. */
  ghost predicate BlocksWithin<T>(kept: seq<T>, size: nat, key: T -> string, time: T -> int, bound: int)
    requires size >= 1
  {
    forall n: nat {:trigger Whole(n, size)} :: Whole(n, size) && n <= |kept| ==> KeysWithin(Block(kept, n, size), key, time, bound)
  }

  // ---------------------------------------------------------------- what sorting makes of a block

  /** `x` is not more than `bound` older than any of `xs`. */
  ghost predicate NotOlder<T>(xs: seq<T>, x: T, time: T -> int, bound: int) {
    forall i {:trigger xs[i]} :: 0 <= i < |xs| ==> time(x) >= time(xs[i]) - bound
  }

  ghost predicate PairsWithin<T>(xs: seq<T>, x: T, key: T -> string, time: T -> int, bound: int) {
    forall i {:trigger xs[i]} :: 0 <= i < |xs| ==> PairWithin(xs[i], x, key, time, bound)
  }

  lemma WithinAppend<T>(xs: seq<T>, x: T, time: T -> int, bound: int)
    ensures WithinBound(xs + [x], time, bound) <==> WithinBound(xs, time, bound) && NotOlder(xs, x, time, bound)
  {
    var all := xs + [x];
    assert forall i {:trigger all[i]} {:trigger xs[i]} :: 0 <= i < |xs| ==> all[i] == xs[i];
    assert all[|xs|] == x;
  }

  lemma PairsAppend<T>(xs: seq<T>, y: T, x: T, key: T -> string, time: T -> int, bound: int)
    ensures PairsWithin(xs + [y], x, key, time, bound)
            <==> PairsWithin(xs, x, key, time, bound) && PairWithin(y, x, key, time, bound)
  {
    var all := xs + [y];
    assert forall i {:trigger all[i]} {:trigger xs[i]} :: 0 <= i < |xs| ==> all[i] == xs[i];
    assert all[|xs|] == y;
  }

  lemma KeysAppend<T>(xs: seq<T>, x: T, key: T -> string, time: T -> int, bound: int)
    ensures KeysWithin(xs + [x], key, time, bound) <==> KeysWithin(xs, key, time, bound) && PairsWithin(xs, x, key, time, bound)
  {
    var all := xs + [x];
    assert forall i {:trigger all[i]} {:trigger xs[i]} :: 0 <= i < |xs| ==> all[i] == xs[i];
    assert all[|xs|] == x;
  }

  lemma NotOlderPermuted<T>(xs: seq<T>, ys: seq<T>, x: T, time: T -> int, bound: int)
    requires multiset(xs) == multiset(ys) && NotOlder(xs, x, time, bound)
    ensures NotOlder(ys, x, time, bound)
  {
    forall i | 0 <= i < |ys| ensures time(x) >= time(ys[i]) - bound {
      assert ys[i] in multiset(xs);
      var j :| 0 <= j < |xs| && xs[j] == ys[i];
    }
  }

  lemma PairsPermuted<T>(xs: seq<T>, ys: seq<T>, x: T, key: T -> string, time: T -> int, bound: int)
    requires multiset(xs) == multiset(ys) && PairsWithin(xs, x, key, time, bound)
    ensures PairsWithin(ys, x, key, time, bound)
  {
    forall i | 0 <= i < |ys| ensures PairWithin(ys[i], x, key, time, bound) {
      assert ys[i] in multiset(xs);
      var j :| 0 <= j < |xs| && xs[j] == ys[i];
    }
  }

  /** Behind elements that all come before it, an element agrees with them when it is not older. */
  lemma {:induction false} PairsBefore<T>(xs: seq<T>, x: T, key: T -> string, time: T -> int, bound: int)
    requires AllBefore(xs, key(x), key)
    ensures PairsWithin(xs, x, key, time, bound) <==> NotOlder(xs, x, time, bound)
  {
    forall i | 0 <= i < |xs| ensures Before(key(xs[i]), key(x)) {
      AllBeforeAt(xs, key(x), key, i);
    }
  }

  lemma {:induction false} AppendedWithin<T>(xs: seq<T>, x: T, key: T -> string, time: T -> int, bound: int)
    requires xs != [] && Sorted(xs, key) && Before(key(xs[|xs| - 1]), key(x))
    ensures WithinBound(xs + [x], time, bound) <==> WithinBound(xs, time, bound) && PairsWithin(xs, x, key, time, bound)
  {
    var n := |xs| - 1;
    AllBeforeWeaken(xs[..n], key(xs[n]), key(x), key);
    PairsBefore(xs, x, key, time, bound);
    WithinAppend(xs, x, time, bound);
  }

  /** To an element behind the list it does not matter where in the list another was inserted. */
  lemma NotOlderInserted<T>(xs: seq<T>, x: T, y: T, key: T -> string, time: T -> int, bound: int)
    ensures NotOlder(Insert(xs, x, key), y, time, bound) <==> NotOlder(xs + [x], y, time, bound)
  {
    InsertKeepsElements(xs, x, key);
    assert multiset(xs + [x]) == multiset(Insert(xs, x, key));
    if NotOlder(Insert(xs, x, key), y, time, bound) {
      NotOlderPermuted(Insert(xs, x, key), xs + [x], y, time, bound);
    }
    if NotOlder(xs + [x], y, time, bound) {
      NotOlderPermuted(xs + [x], Insert(xs, x, key), y, time, bound);
    }
  }

  lemma NotOlderAppend<T>(xs: seq<T>, x: T, y: T, time: T -> int, bound: int)
    ensures NotOlder(xs + [x], y, time, bound) <==> NotOlder(xs, y, time, bound) && time(y) >= time(x) - bound
  {
    var all := xs + [x];
    assert forall i {:trigger all[i]} {:trigger xs[i]} :: 0 <= i < |xs| ==> all[i] == xs[i];
    assert all[|xs|] == x;
  }

  /** Inserting into a sorted list within the bound keeps it there exactly when the new element agrees with every other. */
  lemma {:induction false} InsertWithinIff<T>(xs: seq<T>, x: T, key: T -> string, time: T -> int, bound: int)
    requires Sorted(xs, key)
    ensures WithinBound(Insert(xs, x, key), time, bound)
            <==> WithinBound(xs, time, bound) && PairsWithin(xs, x, key, time, bound)
  {
    if xs != [] {
      var n := |xs| - 1;
      if Before(key(xs[n]), key(x)) {
        AppendedWithin(xs, x, key, time, bound);
      } else {
        InsertWithinIff(xs[..n], x, key, time, bound);
        WithinAppend(Insert(xs[..n], x, key), xs[n], time, bound);
        NotOlderInserted(xs[..n], x, xs[n], key, time, bound);
        NotOlderAppend(xs[..n], x, xs[n], time, bound);
        WithinAppend(xs[..n], xs[n], time, bound);
        PairsAppend(xs[..n], xs[n], x, key, time, bound);
        assert xs[..n] + [xs[n]] == xs;
      }
    }
  }

  /** A sorted block is within the bound if and only if the rows as they were read agree pair by pair. */
  lemma {:induction false} SortWithinIff<T>(xs: seq<T>, key: T -> string, time: T -> int, bound: int)
    ensures WithinBound(Sort(xs, key), time, bound) <==> KeysWithin(xs, key, time, bound)
  {
    if xs != [] {
      var init, last := xs[..|xs| - 1], xs[|xs| - 1];
      SortWithinIff(init, key, time, bound);
      SortSorts(init, key);
      InsertWithinIff(Sort(init, key), last, key, time, bound);
      PairsSorted(init, last, key, time, bound);
      KeysAppend(init, last, key, time, bound);
      assert xs == init + [last];
    }
  }

  lemma PairsSorted<T>(xs: seq<T>, x: T, key: T -> string, time: T -> int, bound: int)
    ensures PairsWithin(Sort(xs, key), x, key, time, bound) <==> PairsWithin(xs, x, key, time, bound)
  {
    SortPermutes(xs, key);
    if PairsWithin(Sort(xs, key), x, key, time, bound) {
      PairsPermuted(Sort(xs, key), xs, x, key, time, bound);
    }
    if PairsWithin(xs, x, key, time, bound) {
      PairsPermuted(xs, Sort(xs, key), x, key, time, bound);
    }
  }

  // ---------------------------------------------------------------- the exact condition

  lemma WithinSlice<T>(xs: seq<T>, a: nat, b: nat, time: T -> int, bound: int)
    requires WithinBound(xs, time, bound) && a <= b <= |xs|
    ensures WithinBound(xs[a..b], time, bound)
  {
    var part := xs[a..b];
    assert forall i {:trigger part[i]} :: 0 <= i < |part| ==> part[i] == xs[a + i];
  }

  lemma WithinFollows<T>(xs: seq<T>, n: nat, time: T -> int, bound: int)
    requires WithinBound(xs, time, bound) && n <= |xs|
    ensures Follows(xs[..n], xs[n..], time, bound)
  {
    forall x, y | x in xs[..n] && y in xs[n..] ensures time(y) >= time(x) - bound {
      var i :| 0 <= i < n && xs[..n][i] == x;
      var j :| 0 <= j < |xs| - n && xs[n..][j] == y;
      assert xs[i] == x && xs[n + j] == y;
    }
  }

  lemma FollowsPermuted<T>(a: seq<T>, b: seq<T>, a': seq<T>, b': seq<T>, time: T -> int, bound: int)
    requires multiset(a) == multiset(a') && multiset(b) == multiset(b')
    ensures Follows(a, b, time, bound) <==> Follows(a', b', time, bound)
  {
    SameMembers(a, a');
    SameMembers(b, b');
  }

  /** A boundary separates the same rows in the output as in the file. */
  lemma BoundarySplits<T>(kept: seq<T>, size: nat, key: T -> string, n: nat)
    requires size >= 1 && Whole(n, size) && n <= |kept|
    ensures var out := Streamed(kept, size, key);
            && |out| == |kept|
            && multiset(out[..n]) == multiset(kept[..n]) && multiset(out[n..]) == multiset(kept[n..])
  {
    var out, front, back := Streamed(kept, size, key), Streamed(kept[..n], size, key), Streamed(kept[n..], size, key);
    assert kept == kept[..n] + kept[n..];
    StreamedConcat(kept[..n], kept[n..], size, key);
    StreamedPermutes(kept, size, key);
    StreamedPermutes(kept[..n], size, key);
    StreamedPermutes(kept[n..], size, key);
    assert out == front + back && |front| == n;
    assert out[..n] == front && out[n..] == back;
  }

  /** The start of the block that holds position `j`. */
  function BlockStart(j: nat, size: nat): (n: nat)
    requires size >= 1
    ensures Whole(n, size) && n <= j < n + size
  {
    if j < size then 0 else size + BlockStart(j - size, size)
  }

  lemma BlockOfOutput<T>(kept: seq<T>, size: nat, key: T -> string, n: nat)
    requires size >= 1 && Whole(n, size) && n <= |kept|
    ensures |Streamed(kept, size, key)| == |kept|
    ensures Block(Streamed(kept, size, key), n, size) == Sort(Block(kept, n, size), key)
  {
    BlocksAreSorted(kept, size, key, n, Min(n + size, |kept|));
  }

  lemma PairInBlock<T>(out: seq<T>, n: nat, size: nat, i: nat, j: nat, time: T -> int, bound: int)
    requires n <= i < j < |out| && j < n + size && WithinBound(Block(out, n, size), time, bound)
    ensures time(out[j]) >= time(out[i]) - bound
  {
    var block := Block(out, n, size);
    assert block[i - n] == out[i] && block[j - n] == out[j];
  }

  lemma PairAcross<T>(out: seq<T>, n: nat, i: nat, j: nat, time: T -> int, bound: int)
    requires i < n <= j < |out| && Follows(out[..n], out[n..], time, bound)
    ensures time(out[j]) >= time(out[i]) - bound
  {
    assert out[..n][i] == out[i] && out[n..][j - n] == out[j];
    assert out[i] in out[..n] && out[j] in out[n..];
  }

  lemma OutputPair<T>(kept: seq<T>, size: nat, key: T -> string, i: nat, j: nat, time: T -> int, bound: int)
    requires size >= 1 && BlocksWithin(kept, size, key, time, bound) && BoundariesWithin(kept, size, time, bound)
    requires i < j < |Streamed(kept, size, key)|
    ensures time(Streamed(kept, size, key)[j]) >= time(Streamed(kept, size, key)[i]) - bound
  {
    var out, n := Streamed(kept, size, key), BlockStart(j, size);
    StreamedPermutes(kept, size, key);
    if i >= n {
      BlockOfOutput(kept, size, key, n);
      SortWithinIff(Block(kept, n, size), key, time, bound);
      PairInBlock(out, n, size, i, j, time, bound);
    } else {
      BoundarySplits(kept, size, key, n);
      FollowsPermuted(kept[..n], kept[n..], out[..n], out[n..], time, bound);
      PairAcross(out, n, i, j, time, bound);
    }
  }

  /**
   The output is within a bound if and only if, of any two rows read into one block, the one
   whose key comes later is not more than the bound older, and across every block boundary of
   the file no later row is more than the bound older than an earlier one.
   */
  lemma StreamedWithinIff<T>(kept: seq<T>, size: nat, key: T -> string, time: T -> int, bound: int)
    requires size >= 1
    ensures WithinBound(Streamed(kept, size, key), time, bound)
            <==> BlocksWithin(kept, size, key, time, bound) && BoundariesWithin(kept, size, time, bound)
  {
    var out := Streamed(kept, size, key);
    StreamedPermutes(kept, size, key);
    if WithinBound(out, time, bound) {
      forall n: nat | Whole(n, size) && n <= |kept| ensures KeysWithin(Block(kept, n, size), key, time, bound) {
        BlockOfOutput(kept, size, key, n);
        WithinSlice(out, n, Min(n + size, |out|), time, bound);
        SortWithinIff(Block(kept, n, size), key, time, bound);
      }
      forall n: nat | Whole(n, size) && n <= |kept| ensures Follows(kept[..n], kept[n..], time, bound) {
        BoundarySplits(kept, size, key, n);
        WithinFollows(out, n, time, bound);
        FollowsPermuted(kept[..n], kept[n..], out[..n], out[n..], time, bound);
      }
    }
    if BlocksWithin(kept, size, key, time, bound) && BoundariesWithin(kept, size, time, bound) {
      forall i, j | 0 <= i < j < |out| ensures time(out[j]) >= time(out[i]) - bound {
        OutputPair(kept, size, key, i, j, time, bound);
      }
    }
  }

  // ---------------------------------------------------------------- rows ordered by the time of their events

  /** The rows' order column tells the time of their events: `captured_at`, the fallback, in one format. */
  ghost predicate KeyTellsTime<T>(rows: seq<T>, key: T -> string, time: T -> int) {
    forall x, y {:trigger x in rows, y in rows} :: x in rows && y in rows && Before(key(x), key(y)) ==> time(x) <= time(y)
  }

  lemma TimeOrderIsWithin<T>(xs: seq<T>, key: T -> string, time: T -> int, bound: int)
    requires KeyTellsTime(xs, key, time) && bound >= 0
    ensures KeysWithin(xs, key, time, bound)
  {
    forall i, j | 0 <= i < j < |xs| ensures PairWithin(xs[i], xs[j], key, time, bound) {
      BeforeIsTotal(key(xs[i]), key(xs[j]));
      assert xs[i] in xs && xs[j] in xs;
    }
  }

  lemma KeyTellsTimeInBlock<T>(kept: seq<T>, n: nat, size: nat, key: T -> string, time: T -> int)
    requires KeyTellsTime(kept, key, time) && n <= |kept|
    ensures KeyTellsTime(Block(kept, n, size), key, time)
  {
    assert forall x :: x in Block(kept, n, size) ==> x in kept;
  }

  /** Then the boundaries alone decide. */
  lemma OrderedByTimeIff<T>(kept: seq<T>, size: nat, key: T -> string, time: T -> int, bound: int)
    requires size >= 1 && bound >= 0 && KeyTellsTime(kept, key, time)
    ensures WithinBound(Streamed(kept, size, key), time, bound) <==> BoundariesWithin(kept, size, time, bound)
  {
    forall n: nat | Whole(n, size) && n <= |kept| ensures KeysWithin(Block(kept, n, size), key, time, bound) {
      KeyTellsTimeInBlock(kept, n, size, key, time);
      TimeOrderIsWithin(Block(kept, n, size), key, time, bound);
    }
    StreamedWithinIff(kept, size, key, time, bound);
  }

  /** A file of less than one block is sorted as a whole, however disordered it is. */
  lemma OneBlockIsWithin<T>(kept: seq<T>, size: nat, key: T -> string, time: T -> int, bound: int)
    requires size >= 1 && bound >= 0 && KeyTellsTime(kept, key, time) && |kept| < size
    ensures WithinBound(Streamed(kept, size, key), time, bound)
  {
    TimeOrderIsWithin(kept, key, time, bound);
    SortWithinIff(kept, key, time, bound);
  }

  // ---------------------------------------------------------------- files that break the bound

  lemma BlockThenLate<T>(early: T, late: T, size: nat)
    requires size >= 1
    ensures var kept := seq(size, _ => early) + [late];
            Whole(size, size) && early in kept[..size] && late in kept[size..]
  {
    var kept := seq(size, _ => early) + [late];
    assert Whole(0, size);
    assert kept[..size][0] == early && kept[size..][0] == late;
  }

  /** For every block size: one full block, then one row more than the bound older. */
  lemma LateRowBreaksTheBound<T>(early: T, late: T, size: nat, key: T -> string, time: T -> int, bound: int)
    requires size >= 1 && time(late) < time(early) - bound
    ensures !WithinBound(Streamed(seq(size, _ => early) + [late], size, key), time, bound)
  {
    var kept := seq(size, _ => early) + [late];
    BlockThenLate(early, late, size);
    StreamedWithinIff(kept, size, key, time, bound);
    assert !Follows(kept[..size], kept[size..], time, bound);
  }

  /**
   Nor does one block suffice when the rows are ordered by `uploaded_at`, as preferred: two rows
   of one block, uploaded in one order and captured in the other, break the bound.
   */
  lemma UploadOrderBreaksTheBound<T>(kept: seq<T>, size: nat, key: T -> string, time: T -> int, bound: int,
                                     n: nat, i: nat, j: nat)
    requires size >= 1 && Whole(n, size) && n <= i < j < Min(n + size, |kept|)
    requires Before(key(kept[i]), key(kept[j])) && time(kept[j]) < time(kept[i]) - bound
    ensures !WithinBound(Streamed(kept, size, key), time, bound)
  {
    var block := Block(kept, n, size);
    assert block[i - n] == kept[i] && block[j - n] == kept[j];
    assert !PairWithin(block[i - n], block[j - n], key, time, bound);
    StreamedWithinIff(kept, size, key, time, bound);
  }

  /** Two such rows alone pass through as they are. */
  lemma TwoUploadsBreakTheBound<T>(x: T, y: T, size: nat, key: T -> string, time: T -> int, bound: int)
    requires size >= 1 && Before(key(x), key(y)) && time(y) < time(x) - bound
    ensures Streamed([x, y], size, key) == [x, y] && !WithinBound(Streamed([x, y], size, key), time, bound)
  {
    SortOfTwo(x, y, key);
    var xs := [x, y];
    if size <= 2 {
      assert xs[..size] + xs[size..] == xs;
      assert Sort(xs[..size], key) == xs[..size] by {
        assert xs[..size] == if size == 1 then [x] else xs;
      }
      assert Streamed(xs[size..], size, key) == xs[size..] by {
        StreamedOfFew(y, size, key);
        assert xs[size..] == if size == 1 then [y] else [];
      }
    }
    assert xs[0] == x && xs[1] == y;
  }

  lemma StreamedOfFew<T>(y: T, size: nat, key: T -> string)
    requires 1 <= size <= 2
    ensures Streamed([y], size, key) == [y] && Streamed([], size, key) == []
  {
    assert [y][..1] == [y] && [y][1..] == [] && [y][..0] == [];
    assert Sort([y], key) == [y];
  }

  lemma SortOfTwo<T>(x: T, y: T, key: T -> string)
    requires Before(key(x), key(y))
    ensures Sort([x], key) == [x] && Sort([x, y], key) == [x, y]
  {
    assert [x, y][..1] == [x] && [x][..0] == [];
    assert Sort([x], key) == [x];
    assert Sort([x, y], key) == [x] + [y];
  }

  // ---------------------------------------------------------------- the window operator

  function TimeOf(): Reading -> int {
    (e: Reading) => e.capturedAt
  }

  function Itself(): int -> int {
    (t: int) => t
  }

  /** The timestamps of a stream, whatever the keys of its events. */
  function Times(ins: seq<Input>): seq<int> {
    if ins == [] then []
    else
      var before := Times(ins[..|ins| - 1]);
      match ins[|ins| - 1]
      case Own(e) => before + [e.capturedAt]
      case Other(ts) => before + [ts]
      case Tick => before
  }

  function TimesOf(xs: seq<Reading>): seq<int> {
    seq(|xs|, i requires 0 <= i < |xs| => xs[i].capturedAt)
  }

  /** Only events of one key, and watermarks. */
  ghost predicate OneKey(ins: seq<Input>) {
    forall i {:trigger ins[i]} :: 0 <= i < |ins| ==> !ins[i].Other?
  }

  lemma OneKeyInit(ins: seq<Input>)
    requires OneKey(ins) && ins != []
    ensures OneKey(ins[..|ins| - 1]) && !ins[|ins| - 1].Other?
  {
    var init := ins[..|ins| - 1];
    assert forall i {:trigger init[i]} :: 0 <= i < |init| ==> init[i] == ins[i];
  }

  lemma {:induction false} OneKeyTimes(ins: seq<Input>)
    requires OneKey(ins)
    ensures Times(ins) == TimesOf(Arrived(ins))
  {
    if ins != [] {
      OneKeyInit(ins);
      OneKeyTimes(ins[..|ins| - 1]);
    }
  }

  lemma TimesWithin(xs: seq<Reading>, bound: int)
    ensures WithinBound(TimesOf(xs), Itself(), bound) <==> WithinBound(xs, TimeOf(), bound)
  {
    var ts := TimesOf(xs);
    assert forall i {:trigger ts[i]} {:trigger xs[i]} :: 0 <= i < |xs| ==> ts[i] == xs[i].capturedAt;
  }

  /** The greatest timestamp seen is the greatest to have arrived. */
  ghost predicate Newest(ts: seq<int>, seen: Option<int>) {
    if ts == [] then seen == None
    else
      && seen.Some? && seen.value in ts
      && (forall i {:trigger ts[i]} :: 0 <= i < |ts| ==> ts[i] <= seen.value)
  }

  lemma NewestSnoc(ts: seq<int>, seen: Option<int>, t: int)
    requires Newest(ts, seen)
    ensures Newest(ts + [t], Later(seen, t))
  {
    assert (ts + [t])[|ts|] == t;
  }

  lemma {:induction false} SeenIsNewest(ins: seq<Input>)
    ensures Newest(Times(ins), Seen(ins))
  {
    if ins != [] {
      var init, last := ins[..|ins| - 1], ins[|ins| - 1];
      SeenIsNewest(init);
      if !last.Tick? {
        NewestSnoc(Times(init), Seen(init), if last.Own? then last.e.capturedAt else last.ts);
      }
    }
  }

  lemma WithinSnoc(ts: seq<int>, seen: Option<int>, t: int, bound: int)
    requires Newest(ts, seen)
    ensures WithinBound(ts + [t], Itself(), bound)
            <==> WithinBound(ts, Itself(), bound) && (seen.Some? ==> t >= seen.value - bound)
  {
    var all := ts + [t];
    assert all[..|ts|] == ts && all[|ts|] == t;
    if WithinBound(all, Itself(), bound) {
      WithinSlice(all, 0, |ts|, Itself(), bound);
      assert all[0..|ts|] == ts;
      if seen.Some? {
        var i :| 0 <= i < |ts| && ts[i] == seen.value;
        assert all[i] == ts[i];
      }
    }
    if WithinBound(ts, Itself(), bound) && (seen.Some? ==> t >= seen.value - bound) {
      forall i, j | 0 <= i < j < |all| ensures Itself()(all[j]) >= Itself()(all[i]) - bound {
        assert all[i] == ts[i];
        assert j < |ts| ==> all[j] == ts[j];
      }
    }
  }

  /**
   A stream within the bound as a whole is within it for each of its keys, whenever watermarks
   are emitted; for a stream of one key that is all the operator's bound says.
   */
  lemma {:induction false} BoundedIff(g: Geometry, ins: seq<Input>)
    ensures WithinBound(Times(ins), Itself(), g.bound) ==> Bounded(g, ins)
    ensures OneKey(ins) ==> (Bounded(g, ins) <==> WithinBound(Times(ins), Itself(), g.bound))
  {
    if ins != [] {
      var init, last := ins[..|ins| - 1], ins[|ins| - 1];
      BoundedIff(g, init);
      SeenIsNewest(init);
      if !last.Tick? {
        WithinSnoc(Times(init), Seen(init), if last.Own? then last.e.capturedAt else last.ts, g.bound);
      }
      if OneKey(ins) {
        OneKeyInit(ins);
      }
    }
  }

  /** Positions in rising order, below `n`. */
  ghost predicate Rising(at: seq<nat>, n: nat) {
    && (forall i, j {:trigger at[i], at[j]} :: 0 <= i < j < |at| ==> at[i] < at[j])
    && (forall i {:trigger at[i]} :: 0 <= i < |at| ==> at[i] < n)
  }

  /** The elements at these positions: what is left of a list when some are dropped. */
  function Picked<T>(xs: seq<T>, at: seq<nat>): seq<T>
    requires forall i {:trigger at[i]} :: 0 <= i < |at| ==> at[i] < |xs|
  {
    seq(|at|, i requires 0 <= i < |at| => xs[at[i]])
  }

  /** Dropping elements does not take a stream out of its bound. */
  lemma PickedWithin<T>(xs: seq<T>, at: seq<nat>, time: T -> int, bound: int)
    requires Rising(at, |xs|) && WithinBound(xs, time, bound)
    ensures WithinBound(Picked(xs, at), time, bound)
  {
    var ys := Picked(xs, at);
    forall i, j | 0 <= i < j < |ys| ensures time(ys[j]) >= time(ys[i]) - bound {
      assert at[i] < at[j];
      assert xs[at[i]] == ys[i] && xs[at[j]] == ys[j];
    }
  }

  /** The condition on the file, for any order column. */
  ghost predicate FileWithin(kept: seq<Reading>, size: nat, key: Reading -> string, bound: int)
    requires size >= 1
  {
    BlocksWithin(kept, size, key, TimeOf(), bound) && BoundariesWithin(kept, size, TimeOf(), bound)
  }

  /**
   End to end, for each key of a replayed file, whatever its order column and whichever rows are
   dropped on the way: when every block and every block boundary of the file is within the window
   operator's bound, so is what arrives, and the windows are those of the batch computation.
   */
  lemma ReplayIsBounded(g: Geometry, kept: seq<Reading>, size: nat, key: Reading -> string, ins: seq<Input>, at: seq<nat>)
    requires g.Valid() && size >= 1 && FileWithin(kept, size, key, g.bound)
    requires Rising(at, |Streamed(kept, size, key)|) && Times(ins) == TimesOf(Picked(Streamed(kept, size, key), at))
    ensures Bounded(g, ins) && Result(g, ins) == Batch(g, Arrived(ins))
  {
    var out := Streamed(kept, size, key);
    StreamedWithinIff(kept, size, key, TimeOf(), g.bound);
    PickedWithin(out, at, TimeOf(), g.bound);
    TimesWithin(Picked(out, at), g.bound);
    BoundedIff(g, ins);
    StreamingEqualsBatch(g, ins);
  }

  /** And when all rows arrive and are of one key, only then. */
  lemma ReplayIsBoundedIff(g: Geometry, kept: seq<Reading>, size: nat, key: Reading -> string, ins: seq<Input>)
    requires g.Valid() && size >= 1 && OneKey(ins) && Arrived(ins) == Streamed(kept, size, key)
    ensures Bounded(g, ins) <==> FileWithin(kept, size, key, g.bound)
  {
    OneKeyTimes(ins);
    BoundedIff(g, ins);
    TimesWithin(Arrived(ins), g.bound);
    StreamedWithinIff(kept, size, key, TimeOf(), g.bound);
  }

  /** Ordered by capture time the blocks take care of themselves. */
  lemma CaptureOrderWithin(kept: seq<Reading>, size: nat, key: Reading -> string, bound: int)
    requires size >= 1 && bound >= 0 && KeyTellsTime(kept, key, TimeOf())
    ensures FileWithin(kept, size, key, bound) <==> BoundariesWithin(kept, size, TimeOf(), bound)
  {
    OrderedByTimeIff(kept, size, key, TimeOf(), bound);
    StreamedWithinIff(kept, size, key, TimeOf(), bound);
  }
}
