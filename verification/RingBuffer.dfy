/**
 The bounded buffer of recent clean events, and paging backwards through it by cursor while
 events keep arriving and old ones are evicted.
 */
module RingBuffer {
  import opened Sequences

  /** An event with its append number, the cursor of pagination. */
  datatype Buffered<T> = Buffered(no: nat, event: T)

  datatype Page<T> = Page(events: seq<T>, nextCursor: Option<int>, hasMore: bool)

  /** The events a buffer of `maxsize` retains of everything ever appended. */
  function Window<T>(appended: seq<T>, maxsize: nat): seq<Buffered<T>> {
    LastN(Numbered(appended), maxsize)
  }

  function Numbered<T>(appended: seq<T>): seq<Buffered<T>> {
    seq(|appended|, i requires 0 <= i < |appended| => Buffered(i, appended[i]))
  }

  function Events<T>(entries: seq<Buffered<T>>): seq<T> {
    seq(|entries|, i requires 0 <= i < |entries| => entries[i].event)
  }

  /** Older than the cursor, and wanted by the view filter. */
  predicate Admits<T>(cursor: Option<int>, matches: Option<T -> bool>, entry: Buffered<T>) {
    (cursor.Some? ==> entry.no < cursor.value) && (matches.Some? ==> matches.value(entry.event))
  }

  function Candidates<T>(entries: seq<Buffered<T>>, cursor: Option<int>, matches: Option<T -> bool>): seq<Buffered<T>> {
    Filter((e: Buffered<T>) => Admits(cursor, matches, e), entries)
  }

  class RingBuffer<T> {
    const maxsize: nat
    var events: seq<Buffered<T>>
    var nextSeq: nat
    ghost var appended: seq<T>  // everything ever appended

    ghost predicate Valid()
      reads this
    {
      nextSeq == |appended| && events == Window(appended, maxsize)
    }

    constructor (maxsize: nat)
      ensures Valid() && appended == [] && this.maxsize == maxsize
    {
      this.maxsize, events, nextSeq, appended := maxsize, [], 0, [];
    }

    /** A full deque drops its oldest entry first. */
    method Append(event: T)
      requires Valid()
      modifies this
      ensures Valid() && appended == old(appended) + [event]
    {
      WindowStep(appended, event, maxsize);
      events := events + [Buffered(nextSeq, event)];
      if |events| > maxsize {
        events := events[1..];
      }
      nextSeq, appended := nextSeq + 1, appended + [event];
    }

    /** The newest events, oldest first. */
    function Recent(limit: int): (r: seq<T>)
      requires Valid()
      reads this
      ensures r == LastN(appended, Min(maxsize, Max(0, limit)))
    {
      WindowEvents(appended, maxsize);
      if limit <= 0 then []
      else Events(LastN(events, limit))
    }

    /** The newest `limit` admitted events, and the cursor to continue below them. */
    function PageAt(cursor: Option<int>, limit: int, matches: Option<T -> bool>): (page: Page<T>)
      requires Valid()
      reads this
      ensures limit <= 0 ==> page == Page([], None, false)
      ensures limit > 0 ==>
                var all := Taken(appended, maxsize, |appended|, cursor, matches);
                var window := LastN(all, limit);
                && page.events == Events(window)
                && page.hasMore == (|all| > limit)
                && page.nextCursor == (if |all| > limit then Some(window[0].no) else None)
    {
      if limit <= 0 then Page([], None, false)
      else
        CandidatesAre(appended, maxsize, cursor, matches);
        var entries := Candidates(events, cursor, matches);
        var window := LastN(entries, limit);
        if window == [] then Page([], None, false)
        else
          var hasMore := |entries| > |window|;
          Page(Events(window), if hasMore then Some(window[0].no) else None, hasMore)
    }
  }

  lemma {:induction false} WindowStep<T>(appended: seq<T>, event: T, maxsize: nat)
    ensures var next := Window(appended, maxsize) + [Buffered(|appended|, event)];
            Window(appended + [event], maxsize) == if |next| > maxsize then next[1..] else next
  {
    assert Numbered(appended + [event]) == Numbered(appended) + [Buffered(|appended|, event)];
  }

  lemma {:induction false} WindowEvents<T>(appended: seq<T>, maxsize: nat)
    ensures forall limit: nat :: Events(LastN(Window(appended, maxsize), limit)) == LastN(appended, Min(maxsize, limit))
  {
    forall limit: nat ensures Events(LastN(Window(appended, maxsize), limit)) == LastN(appended, Min(maxsize, limit)) {
      var a, b := Events(LastN(Window(appended, maxsize), limit)), LastN(appended, Min(maxsize, limit));
      assert forall i :: 0 <= i < |a| ==> a[i] == b[i];
    }
  }

  // ---------------------------------------------------------------- candidates by append number

  /** The matching events numbered in [lo, hi), in order. */
  function Matching<T>(h: seq<T>, lo: nat, hi: int, matches: Option<T -> bool>): seq<Buffered<T>>
    requires hi <= |h|
    decreases hi
  {
    if hi <= lo then []
    else
      var rest := Matching(h, lo, hi - 1, matches);
      if Admits(None, matches, Buffered(hi - 1, h[hi - 1])) then rest + [Buffered(hi - 1, h[hi - 1])] else rest
  }

  /** A matching event of the history, numbered in [lo, hi). */
  ghost predicate InRange<T>(h: seq<T>, lo: nat, hi: int, matches: Option<T -> bool>, e: Buffered<T>) {
    lo <= e.no < hi <= |h| && e.event == h[e.no] && (matches.None? || matches.value(e.event))
  }

  ghost predicate AllInRange<T>(h: seq<T>, lo: nat, hi: int, matches: Option<T -> bool>, entries: seq<Buffered<T>>) {
    forall i: nat {:trigger entries[i]} :: 0 <= i < |entries| ==> InRange(h, lo, hi, matches, entries[i])
  }

  ghost predicate Increasing<T>(entries: seq<Buffered<T>>) {
    forall i, j {:trigger entries[i], entries[j]} :: 0 <= i < j < |entries| ==> entries[i].no < entries[j].no
  }

  lemma {:induction false} MatchingMembers<T>(h: seq<T>, lo: nat, hi: int, matches: Option<T -> bool>)
    requires hi <= |h|
    ensures AllInRange(h, lo, hi, matches, Matching(h, lo, hi, matches)) && Increasing(Matching(h, lo, hi, matches))
    decreases hi
  {
    if lo < hi {
      var all, rest := Matching(h, lo, hi, matches), Matching(h, lo, hi - 1, matches);
      MatchingMembers(h, lo, hi - 1, matches);
      forall i: nat | i < |all| ensures InRange(h, lo, hi, matches, all[i]) {
        if i < |rest| {
          assert InRange(h, lo, hi - 1, matches, rest[i]);
        }
      }
    }
  }

  lemma {:induction false} MatchingHas<T>(h: seq<T>, lo: nat, hi: int, matches: Option<T -> bool>, n: nat)
    requires lo <= n < hi <= |h| && (matches.None? || matches.value(h[n]))
    ensures Buffered(n, h[n]) in Matching(h, lo, hi, matches)
    decreases hi
  {
    if n < hi - 1 {
      MatchingHas(h, lo, hi - 1, matches, n);
    }
  }

  lemma {:induction false} SuffixInRange<T>(h: seq<T>, lo: nat, hi: int, matches: Option<T -> bool>,
                                        entries: seq<Buffered<T>>, cut: nat)
    requires AllInRange(h, lo, hi, matches, entries) && Increasing(entries) && cut <= |entries|
    ensures AllInRange(h, lo, hi, matches, entries[cut..]) && Increasing(entries[cut..])
  {
    forall i | 0 <= i < |entries| - cut ensures InRange(h, lo, hi, matches, entries[cut..][i]) {
      assert entries[cut..][i] == entries[cut + i];
    }
    forall i, j | 0 <= i < j < |entries| - cut ensures entries[cut..][i].no < entries[cut..][j].no {
      assert entries[cut..][i] == entries[cut + i] && entries[cut..][j] == entries[cut + j];
    }
  }

  lemma {:induction false} MatchingSplit<T>(h: seq<T>, lo: nat, mid: nat, hi: int, matches: Option<T -> bool>)
    requires lo <= mid <= hi <= |h|
    ensures Matching(h, lo, hi, matches) == Matching(h, lo, mid, matches) + Matching(h, mid, hi, matches)
    decreases hi
  {
    if mid < hi {
      MatchingSplit(h, lo, mid, hi - 1, matches);
    }
  }

  /** The upper end of the append numbers a cursor leaves, when `n` events have been appended. */
  function Upper(cursor: Option<int>, n: nat): int {
    if cursor.Some? then Min(cursor.value, n) else n
  }

  /** What a page taken when `n` events have been appended can show: matching, buffered, below the cursor. */
  function Taken<T>(h: seq<T>, maxsize: nat, n: nat, cursor: Option<int>, matches: Option<T -> bool>): seq<Buffered<T>>
    requires n <= |h|
  {
    Matching(h, Max(0, n - maxsize), Upper(cursor, n), matches)
  }

  /** Later appends do not change what a page could show. */
  lemma TakenThen<T>(h: seq<T>, maxsize: nat, n: nat, cursor: Option<int>, matches: Option<T -> bool>)
    requires n <= |h|
    ensures Taken(h[..n], maxsize, n, cursor, matches) == Taken(h, maxsize, n, cursor, matches)
  {
    MatchingPrefix(h, n, Max(0, n - maxsize), Upper(cursor, n), matches);
  }

  /** The program's filtered deque is what the history says. */
  lemma CandidatesAre<T>(h: seq<T>, maxsize: nat, cursor: Option<int>, matches: Option<T -> bool>)
    ensures Candidates(Window(h, maxsize), cursor, matches) == Taken(h, maxsize, |h|, cursor, matches)
  {
    var lo := Max(0, |h| - maxsize);
    CandidatesFrom(h, lo, |h|, cursor, matches);
    assert Window(h, maxsize) == Numbered(h)[lo..|h|];
  }

  lemma {:induction false} CandidatesFrom<T>(h: seq<T>, lo: nat, hi: nat, cursor: Option<int>, matches: Option<T -> bool>)
    requires lo <= hi <= |h|
    ensures Candidates(Numbered(h)[lo..hi], cursor, matches)
            == Matching(h, lo, Upper(cursor, hi), matches)
    decreases hi
  {
    if lo < hi {
      CandidatesFrom(h, lo, hi - 1, cursor, matches);
      assert Numbered(h)[lo..hi][..hi - lo - 1] == Numbered(h)[lo..hi - 1];
      assert Numbered(h)[lo..hi][hi - lo - 1] == Buffered(hi - 1, h[hi - 1]);
    }
  }

  /** The matching events below one of them are those listed before it. */
  lemma {:induction false} MatchingBelow<T>(h: seq<T>, lo: nat, hi: int, matches: Option<T -> bool>, at: nat)
    requires hi <= |h| && at < |Matching(h, lo, hi, matches)|
    ensures var all := Matching(h, lo, hi, matches);
            lo <= all[at].no < hi && Matching(h, lo, all[at].no, matches) == all[..at]
    decreases hi
  {
    var all, rest := Matching(h, lo, hi, matches), Matching(h, lo, hi - 1, matches);
    if at < |rest| {
      MatchingBelow(h, lo, hi - 1, matches, at);
      assert all[..at] == rest[..at];
    } else {
      assert all[..at] == rest;
    }
  }

  // ---------------------------------------------------------------- a walk through the pages

  /** Page `k` of a walk is taken when `times[k]` events have been appended. */
  ghost predicate Times<T>(h: seq<T>, times: seq<nat>) {
    times != [] ==> times[0] <= |h| && (|times| > 1 ==> times[0] <= times[1]) && Times(h, times[1..])
  }

  /** Pages by `next_cursor` from `cursor` on, as long as `times` lasts and there is a next page. */
  ghost function Walk<T>(h: seq<T>, maxsize: nat, times: seq<nat>, cursor: Option<int>, limit: nat,
                         matches: Option<T -> bool>)
    : seq<seq<Buffered<T>>>
    requires limit > 0 && Times(h, times)
    decreases |times|
  {
    if times == [] then []
    else
      var all := Taken(h, maxsize, times[0], cursor, matches);
      var window := LastN(all, limit);
      if |all| > limit then [window] + Walk(h, maxsize, times[1..], Some(window[0].no), limit, matches)
      else [window]
  }

  /** The walk was not cut short by `times`: its last page reported no more. */
  ghost predicate Finished<T>(h: seq<T>, maxsize: nat, times: seq<nat>, cursor: Option<int>, limit: nat,
                              matches: Option<T -> bool>)
    requires limit > 0 && Times(h, times)
    decreases |times|
  {
    times != [] &&
    var all := Taken(h, maxsize, times[0], cursor, matches);
    |all| <= limit || Finished(h, maxsize, times[1..], Some(LastN(all, limit)[0].no), limit, matches)
  }

  lemma {:induction false} MatchingPrefix<T>(h: seq<T>, n: nat, lo: nat, hi: int, matches: Option<T -> bool>)
    requires hi <= n <= |h|
    ensures Matching(h[..n], lo, hi, matches) == Matching(h, lo, hi, matches)
    decreases hi
  {
    if lo < hi {
      MatchingPrefix(h, n, lo, hi - 1, matches);
    }
  }

  /** One page of a walk shows matching events still buffered below the cursor, in order. */
  lemma PageShows<T>(h: seq<T>, maxsize: nat, n: nat, cursor: Option<int>, limit: nat, matches: Option<T -> bool>)
    requires n <= |h|
    ensures var window := LastN(Taken(h, maxsize, n, cursor, matches), limit);
            AllInRange(h, Max(0, n - maxsize), Upper(cursor, n), matches, window) && Increasing(window)
  {
    var all := Taken(h, maxsize, n, cursor, matches);
    MatchingMembers(h, Max(0, n - maxsize), Upper(cursor, n), matches);
    SuffixInRange(h, Max(0, n - maxsize), Upper(cursor, n), matches, all, Max(0, |all| - limit));
  }

  /** A page with more to come leaves the matching events below its oldest one. */
  lemma PageLeaves<T>(h: seq<T>, maxsize: nat, n: nat, cursor: Option<int>, limit: nat, matches: Option<T -> bool>)
    requires n <= |h| && 0 < limit < |Taken(h, maxsize, n, cursor, matches)|
    ensures var all := Taken(h, maxsize, n, cursor, matches);
            var x := LastN(all, limit)[0].no;
            Max(0, n - maxsize) <= x < Upper(cursor, n)
            && Matching(h, Max(0, n - maxsize), x, matches) == all[..|all| - limit]
  {
    var all := Taken(h, maxsize, n, cursor, matches);
    MatchingBelow(h, Max(0, n - maxsize), Upper(cursor, n), matches, |all| - limit);
  }

  /** A walk shows matching events, in order within a page, below its cursor and its start. */
  lemma {:induction false} WalkShows<T>(h: seq<T>, maxsize: nat, times: seq<nat>, cursor: Option<int>, limit: nat,
                                        matches: Option<T -> bool>, p: nat)
    requires limit > 0 && Times(h, times) && p < |Walk(h, maxsize, times, cursor, limit, matches)|
    ensures AllInRange(h, 0, Upper(cursor, times[0]), matches, Walk(h, maxsize, times, cursor, limit, matches)[p])
    ensures Increasing(Walk(h, maxsize, times, cursor, limit, matches)[p])
    decreases |times|
  {
    var window := LastN(Taken(h, maxsize, times[0], cursor, matches), limit);
    if p == 0 {
      PageShows(h, maxsize, times[0], cursor, limit, matches);
      Widen(h, Max(0, times[0] - maxsize), Upper(cursor, times[0]), Upper(cursor, times[0]), matches, window);
    } else {
      var x := window[0].no;
      var rest := Walk(h, maxsize, times[1..], Some(x), limit, matches);
      assert Walk(h, maxsize, times, cursor, limit, matches) == [window] + rest;
      WalkShows(h, maxsize, times[1..], Some(x), limit, matches, p - 1);
      PageLeaves(h, maxsize, times[0], cursor, limit, matches);
      Widen(h, 0, Upper(Some(x), times[1]), Upper(cursor, times[0]), matches, rest[p - 1]);
    }
  }

  lemma {:induction false} Widen<T>(h: seq<T>, lo: nat, hi: int, higher: int, matches: Option<T -> bool>,
                                    entries: seq<Buffered<T>>)
    requires AllInRange(h, lo, hi, matches, entries) && hi <= higher <= |h|
    ensures AllInRange(h, 0, higher, matches, entries)
  {
    forall i: nat | i < |entries| ensures InRange(h, 0, higher, matches, entries[i]) {
      assert InRange(h, lo, hi, matches, entries[i]);
    }
  }

  /** Every event of page `q` is older than every event of an earlier page: none shows twice. */
  ghost predicate Older<T>(later: seq<Buffered<T>>, earlier: seq<Buffered<T>>) {
    forall i, j {:trigger earlier[i], later[j]} :: 0 <= i < |earlier| && 0 <= j < |later| ==> later[j].no < earlier[i].no
  }

  lemma {:induction false} WalkDescends<T>(h: seq<T>, maxsize: nat, times: seq<nat>, cursor: Option<int>, limit: nat,
                                        matches: Option<T -> bool>,
                                           p: nat, q: nat)
    requires limit > 0 && Times(h, times)
    requires p < q < |Walk(h, maxsize, times, cursor, limit, matches)|
    ensures var pages := Walk(h, maxsize, times, cursor, limit, matches); Older(pages[q], pages[p])
    decreases |times|
  {
    var window := LastN(Taken(h, maxsize, times[0], cursor, matches), limit);
    var x := window[0].no;
    var rest := Walk(h, maxsize, times[1..], Some(x), limit, matches);
    assert Walk(h, maxsize, times, cursor, limit, matches) == [window] + rest;
    if p > 0 {
      WalkDescends(h, maxsize, times[1..], Some(x), limit, matches, p - 1, q - 1);
    } else {
      PageShows(h, maxsize, times[0], cursor, limit, matches);
      WalkShows(h, maxsize, times[1..], Some(x), limit, matches, q - 1);
      OlderByCursor(h, window, rest[q - 1], Upper(Some(x), times[1]), matches);
    }
  }

  lemma {:induction false} OlderByCursor<T>(h: seq<T>, earlier: seq<Buffered<T>>, later: seq<Buffered<T>>,
                                        upper: int, matches: Option<T -> bool>)
    requires Increasing(earlier) && AllInRange(h, 0, upper, matches, later) && (earlier != [] ==> upper <= earlier[0].no)
    ensures Older(later, earlier)
  {
    forall i, j | 0 <= i < |earlier| && 0 <= j < |later| ensures later[j].no < earlier[i].no {
      assert earlier[0].no <= earlier[i].no;
      assert InRange(h, 0, upper, matches, later[j]);
    }
  }

  /** The page of a walk that reaches down to `n`: the first whose next cursor is not above it. */
  ghost predicate Covers<T>(pages: seq<seq<Buffered<T>>>, p: nat, n: nat) {
    && p < |pages|
    && (p + 1 < |pages| ==> pages[p] != [] && pages[p][0].no <= n)
    && (p > 0 ==> pages[p - 1] != [] && n < pages[p - 1][0].no)
  }

  /** A page shows every matching event below the cursor, down to its own oldest, that is buffered. */
  lemma PageDelivers<T>(h: seq<T>, maxsize: nat, m: nat, cursor: Option<int>, limit: nat, matches: Option<T -> bool>, n: nat)
    requires limit > 0 && m <= |h| && n < Upper(cursor, m) && (matches.None? || matches.value(h[n]))
    requires var all := Taken(h, maxsize, m, cursor, matches); |all| > limit ==> LastN(all, limit)[0].no <= n
    ensures Buffered(n, h[n]) in LastN(Taken(h, maxsize, m, cursor, matches), limit) <==> n >= m - maxsize
  {
    var all, lo := Taken(h, maxsize, m, cursor, matches), Max(0, m - maxsize);
    var window := LastN(all, limit);
    if n < lo {
      PageShows(h, maxsize, m, cursor, limit, matches);
    } else {
      assert Buffered(n, h[n]) in all by {
        MatchingHas(h, lo, Upper(cursor, m), matches, n);
      }
      if |all| > limit {
        var x := window[0].no;
        PageLeaves(h, maxsize, m, cursor, limit, matches);
        assert Buffered(n, h[n]) !in all[..|all| - limit] by {
          MatchingMembers(h, lo, x, matches);
        }
        assert all == all[..|all| - limit] + window;
      }
    }
  }

  /** A page before the others moves on the page that reaches down to `n`. */
  lemma CoversNext<T>(page: seq<Buffered<T>>, later: seq<seq<Buffered<T>>>, p: nat, n: nat)
    requires Covers(later, p, n) && page != [] && n < page[0].no
    ensures Covers([page] + later, p + 1, n) && ([page] + later)[p + 1] == later[p]
  {
  }

  /**
   A finished walk shows every matching event below its cursor on the page that reaches
   down to it, unless the event had been evicted when that page was taken.
   */
  lemma {:induction false} WalkDelivers<T>(h: seq<T>, maxsize: nat, times: seq<nat>, cursor: Option<int>, limit: nat,
                                        matches: Option<T -> bool>, n: nat)
    returns (p: nat)
    requires limit > 0 && Times(h, times) && Finished(h, maxsize, times, cursor, limit, matches)
    requires n < Upper(cursor, times[0]) && (matches.None? || matches.value(h[n]))
    ensures p < |times| && Covers(Walk(h, maxsize, times, cursor, limit, matches), p, n)
    ensures Buffered(n, h[n]) in Walk(h, maxsize, times, cursor, limit, matches)[p] <==> n >= times[p] - maxsize
    decreases |times|
  {
    var all := Taken(h, maxsize, times[0], cursor, matches);
    var window := LastN(all, limit);
    if |all| > limit && n < window[0].no {
      PageLeaves(h, maxsize, times[0], cursor, limit, matches);
      var q := WalkDelivers(h, maxsize, times[1..], Some(window[0].no), limit, matches, n);
      p := q + 1;
      var later := Walk(h, maxsize, times[1..], Some(window[0].no), limit, matches);
      assert Walk(h, maxsize, times, cursor, limit, matches) == [window] + later;
      CoversNext(window, later, q, n);
    } else {
      p := 0;
      PageDelivers(h, maxsize, times[0], cursor, limit, matches, n);
    }
  }

  /** The pages that `m` events fill, and one page for none. */
  function PagesNeeded(m: nat, limit: nat): nat
    requires limit > 0
  {
    if m <= limit then 1 else 1 + PagesNeeded(m - limit, limit)
  }

  /** For m >= 1 this is ceil(m / limit). */
  lemma {:induction false} PagesNeededIsCeiling(m: nat, limit: nat)
    requires limit > 0
    ensures (PagesNeeded(m, limit) - 1) * limit < Max(1, m) && m <= PagesNeeded(m, limit) * limit
  {
    if m > limit {
      var k := PagesNeeded(m - limit, limit);
      PagesNeededIsCeiling(m - limit, limit);
      assert k * limit == (k - 1) * limit + limit && (k + 1) * limit == k * limit + limit;
    }
  }

  lemma {:induction false} PagesNeededMonotone(m: nat, n: nat, limit: nat)
    requires limit > 0 && m <= n
    ensures PagesNeeded(m, limit) <= PagesNeeded(n, limit)
    decreases n
  {
    if m > limit {
      PagesNeededMonotone(m - limit, n - limit, limit);
    }
  }

  /** A walk from m matching events takes at most ceil(m / limit) pages, and one page when m is 0. */
  lemma {:induction false} WalkLength<T>(h: seq<T>, maxsize: nat, times: seq<nat>, cursor: Option<int>, limit: nat,
                                        matches: Option<T -> bool>)
    requires limit > 0 && Times(h, times) && times != []
    ensures var needed := PagesNeeded(|Taken(h, maxsize, times[0], cursor, matches)|, limit);
            && 1 <= |Walk(h, maxsize, times, cursor, limit, matches)| <= needed
            && (|times| >= needed ==> Finished(h, maxsize, times, cursor, limit, matches))
    decreases |times|
  {
    var all := Taken(h, maxsize, times[0], cursor, matches);
    if |all| > limit && |times| > 1 {
      var x := LastN(all, limit)[0].no;
      var rest := |Taken(h, maxsize, times[1], Some(x), matches)|;
      assert PagesNeeded(rest, limit) < PagesNeeded(|all|, limit) by {
        PageLeaves(h, maxsize, times[0], cursor, limit, matches);
        NextPageCandidates(h, maxsize, times[0], times[1], x, matches);
        PagesNeededMonotone(rest, |all| - limit, limit);
      }
      WalkLength(h, maxsize, times[1..], Some(x), limit, matches);
      assert Walk(h, maxsize, times, cursor, limit, matches)
          == [LastN(all, limit)] + Walk(h, maxsize, times[1..], Some(x), limit, matches);
    }
  }

  /**
   Between two pages events only arrive above the cursor and leave at the bottom: the next page
   chooses from what the last one left, less exactly the events evicted in between.
   */
  lemma NextPageCandidates<T>(h: seq<T>, maxsize: nat, n: nat, later: nat, cursor: nat, matches: Option<T -> bool>)
    requires n <= later <= |h| && Max(0, n - maxsize) <= cursor < n
    ensures Matching(h, Max(0, n - maxsize), cursor, matches)
            == Matching(h, Max(0, n - maxsize), Min(Max(0, later - maxsize), cursor), matches)
               + Taken(h, maxsize, later, Some(cursor), matches)
  {
    var lo, lo' := Max(0, n - maxsize), Max(0, later - maxsize);
    if lo' <= cursor {
      MatchingSplit(h, lo, lo', cursor, matches);
    }
  }

  /** Nothing is appended between two pages. */
  ghost predicate Quiet(times: seq<nat>) {
    |times| > 1 ==> times[1] == times[0] && Quiet(times[1..])
  }

  /** The pages put together, oldest first. */
  function Unroll<T>(pages: seq<seq<Buffered<T>>>): seq<Buffered<T>> {
    if pages == [] then [] else Unroll(pages[1..]) + pages[0]
  }

  lemma {:induction false} UnrollFirst<T>(page: seq<Buffered<T>>, later: seq<seq<Buffered<T>>>)
    ensures Unroll([page] + later) == Unroll(later) + page
  {
    assert ([page] + later)[1..] == later;
  }

  lemma UnrollStep<T>(page: seq<Buffered<T>>, later: seq<seq<Buffered<T>>>, left: seq<Buffered<T>>)
    requires Unroll(later) == left
    ensures Unroll([page] + later) == left + page
  {
    UnrollFirst(page, later);
  }

  lemma OnlyPage<T>(page: seq<Buffered<T>>)
    ensures Unroll([page]) == page
  {
    assert [page][1..] == [];
  }

  /** On a quiet buffer a page that is not the last and the candidates of the next make up this one's. */
  lemma QuietPage<T>(h: seq<T>, maxsize: nat, n: nat, cursor: Option<int>, limit: nat, matches: Option<T -> bool>)
    requires limit > 0 && n <= |h| && |Taken(h, maxsize, n, cursor, matches)| > limit
    ensures var all := Taken(h, maxsize, n, cursor, matches);
            all == Taken(h, maxsize, n, Some(LastN(all, limit)[0].no), matches) + LastN(all, limit)
  {
    var all := Taken(h, maxsize, n, cursor, matches);
    PageLeaves(h, maxsize, n, cursor, limit, matches);
    assert all == all[..|all| - limit] + LastN(all, limit);
  }

  /** On a quiet buffer the pages of a finished walk are exactly the filtered buffer. */
  lemma {:induction false} QuietWalk<T>(h: seq<T>, maxsize: nat, times: seq<nat>, cursor: Option<int>, limit: nat,
                                        matches: Option<T -> bool>)
    requires limit > 0 && Times(h, times) && Finished(h, maxsize, times, cursor, limit, matches)
    requires Quiet(times)
    ensures Unroll(Walk(h, maxsize, times, cursor, limit, matches)) == Taken(h, maxsize, times[0], cursor, matches)
    decreases |times|
  {
    var n := times[0];
    var all := Taken(h, maxsize, n, cursor, matches);
    var window := LastN(all, limit);
    if |all| > limit {
      var next := Some(window[0].no);
      QuietWalk(h, maxsize, times[1..], next, limit, matches);
      QuietPage(h, maxsize, n, cursor, limit, matches);
      UnrollStep(window, Walk(h, maxsize, times[1..], next, limit, matches), Taken(h, maxsize, n, next, matches));
    } else {
      OnlyPage(window);
    }
  }
}
