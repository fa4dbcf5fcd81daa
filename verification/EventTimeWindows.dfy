/**
 Event-time windows over one key of a stream, under a bounded-out-of-orderness watermark.

 A window [start, start + size) starts at a multiple of the slide; a tumbling window slides
 by its size. The watermark trails the greatest timestamp seen on the whole stream by the
 bound plus one millisecond and moves only when it is emitted. When it reaches a window's
 last millisecond the window fires, and from then on drops what arrives for it.
 */
module EventTimeWindows {
  import opened Sequences
  import opened Multiples

  datatype Geometry = Geometry(size: int, slide: int, bound: int) {
    predicate Valid() {
      0 < slide <= size && 0 <= bound
    }
  }

  /** The default 30 seconds of out-of-orderness, in milliseconds. */
  const DEFAULT_BOUND: int := 30 * 1000

  /** Tumbling aggregation windows of 60 s, and alert windows of 300 s every 60 s. */
  function AggregationWindows(): Geometry {
    Geometry(60 * 1000, 60 * 1000, DEFAULT_BOUND)
  }

  function AlertWindows(): Geometry {
    Geometry(300 * 1000, 60 * 1000, DEFAULT_BOUND)
  }

  /** `extract_timestamp`: an unparseable `captured_at` counts as the epoch. */
  function ExtractTimestamp(capturedAt: Option<int>): int {
    if capturedAt.Some? then capturedAt.value else 0
  }

  function Later(seen: Option<int>, ts: int): Option<int> {
    if seen.Some? then Some(Max(seen.value, ts)) else Some(ts)
  }

  // ---------------------------------------------------------------- geometry

  predicate InWindow(g: Geometry, start: int, ts: int) {
    start <= ts < start + g.size
  }

  /** The windows a timestamp is assigned to. */
  function Starts(g: Geometry, ts: int): set<int>
    requires g.Valid()
  {
    Between(ts - g.size, ts, g.slide)
  }

  /** An event is assigned to exactly the windows on the grid whose stretch of time it lies in. */
  lemma StartsAre(g: Geometry, ts: int, start: int)
    requires g.Valid()
    ensures start in Starts(g, ts) <==> start % g.slide == 0 && start <= ts && ts < start + g.size
  {
  }

  /** When the slide divides the size, every event lies in exactly size / slide windows. */
  lemma WindowsPerEvent(g: Geometry, ts: int, k: nat)
    requires g.Valid() && g.size == k * g.slide
    ensures |Starts(g, ts)| == k
  {
    CountBetween(ts - g.size, ts, g.slide, k);
  }

  /** So a tumbling window assigns every event once, and the alert windows five times. */
  lemma DefaultWindowsPerEvent(ts: int)
    ensures |Starts(AggregationWindows(), ts)| == 1 && |Starts(AlertWindows(), ts)| == 5
  {
    WindowsPerEvent(AggregationWindows(), ts, 1);
    WindowsPerEvent(AlertWindows(), ts, 5);
  }

  /** Events spanning at most size - slide share a window, wherever they lie on the grid. */
  lemma {:induction false} ShortSpanSharesWindow(g: Geometry, a: int, b: int)
    requires g.Valid() && a <= b
    ensures b - a <= g.size - g.slide ==>
              Floor(a, g.slide) % g.slide == 0
              && forall ts :: a <= ts <= b ==> InWindow(g, Floor(a, g.slide), ts) && Floor(a, g.slide) in Starts(g, ts)
  {
    FloorIsMultiple(a, g.slide);
  }

  /** The span is the largest that works everywhere: one more, and some position has no window. */
  lemma {:induction false} LongerSpanMayNotShare(g: Geometry)
    requires g.Valid()
    ensures var a, b := g.slide - 1, g.size;
            b - a == g.size - g.slide + 1 && forall s :: s % g.slide == 0 ==> !(InWindow(g, s, a) && InWindow(g, s, b))
  {
    forall s | s % g.slide == 0 && InWindow(g, s, g.slide - 1) && InWindow(g, s, g.size) ensures false {
      OneMultiplePerStretch(s, 0, g.slide);
    }
  }
}
