/**
 From the raw topic to the windows. The source assigns timestamps to the raw strings; the job
 then parses and cleans them, and every windowed branch assigns timestamps and watermarks anew
 behind the cleaning, because the broadcast connect in between holds the source's watermark back.
 */
module JobStreams {
  import opened Sequences
  import opened EventTimeWindows
  import opened WindowOperator
  import opened UnparseableTimestamps
  import opened StableSort
  import opened CsvReader
  import opened ReplayOrder

  // ---------------------------------------------------------------- one raw record

  /** A timestamp field: absent, some JSON value that is no string, a string that is no time, or a time. */
  datatype Stamp = Missing | NoString | Unreadable | At(ts: int)

  /** A coordinate field: nothing `float` takes, an integer beyond its range, or a number. */
  datatype Coordinate = NoNumber | TooLarge | Degrees(x: real)

  /** A raw message: no JSON object at all, or one with the fields that parsing looks at. */
  datatype Raw<P> =
    | NoObject
    | Fields(hasSensor: bool, capturedAt: Stamp, uploadedAt: Stamp, latitude: Coordinate, longitude: Coordinate, payload: P)

  /** What parsing makes of a record. It catches the errors of a malformed one, but not every error. */
  datatype Parsed<P> = Event(payload: P, capturedAt: int) | Dropped | Raises

  function ParseRecord<P>(r: Raw<P>): Parsed<P> {
    if r.NoObject? || !r.hasSensor then Dropped
    else if r.capturedAt.NoString? then Raises
    else if !r.capturedAt.At? then Dropped
    else if r.uploadedAt.NoString? then Raises
    else if !r.uploadedAt.At? then Dropped
    else if r.latitude.TooLarge? then Raises
    else if r.latitude.NoNumber? then Dropped
    else if r.longitude.TooLarge? then Raises
    else if r.longitude.NoNumber? then Dropped
    else Event(r.payload, r.capturedAt.ts)
  }

  /** The timestamp the source assigns, or None where it raises. */
  function SourceTimestamp<P>(r: Raw<P>): Option<int> {
    if r.NoObject? then Some(ExtractTimestamp(None))
    else
      match r.capturedAt
      case At(ts) => Some(ExtractTimestamp(Some(ts)))
      case NoString => None
      case _ => Some(ExtractTimestamp(None))
  }

  /** The record has no readable time, and the source stamps it with the epoch. */
  predicate Unparseable<P>(r: Raw<P>) {
    r.NoObject? || r.capturedAt.Missing? || r.capturedAt.Unreadable?
  }

  /** Every field that parsing looks at is there and readable. */
  predicate Sound<P>(r: Raw<P>) {
    && r.Fields? && r.hasSensor && r.capturedAt.At? && r.uploadedAt.At? && r.latitude.Degrees? && r.longitude.Degrees?
  }

  /**
   Exactly the sound records become events, each at the time it was captured, whenever it was
   uploaded; the source has stamped it with the same time.
   */
  lemma ParsedIff<P>(r: Raw<P>)
    ensures ParseRecord(r).Event? <==> Sound(r)
    ensures Sound(r) ==>
              && ParseRecord(r) == Event(r.payload, r.capturedAt.ts)
              && SourceTimestamp(r) == Some(r.capturedAt.ts)
  {
  }

  /** The fields are read in order, and the first bad one decides whether parsing drops the record or raises. */
  lemma ParseRaisesIff<P>(r: Raw<P>)
    ensures ParseRecord(r).Raises? <==>
            && r.Fields? && r.hasSensor
            && (|| r.capturedAt.NoString?
                || (r.capturedAt.At?
                    && (|| r.uploadedAt.NoString?
                        || (r.uploadedAt.At? && (r.latitude.TooLarge? || (r.latitude.Degrees? && r.longitude.TooLarge?))))))
  {
  }

  /** What the source stamps a record with: its time, the epoch when it has none that can be read, or it raises. */
  lemma SourceTimestampIs<P>(r: Raw<P>)
    ensures SourceTimestamp(r).None? <==> r.Fields? && r.capturedAt.NoString?
    ensures SourceTimestamp(r).Some? ==>
              SourceTimestamp(r).value == if r.Fields? && r.capturedAt.At? then r.capturedAt.ts else 0
  {
  }

  predicate Fatal<P>(r: Raw<P>) {
    SourceTimestamp(r).None? || ParseRecord(r).Raises?
  }

  /** Which records the job does not survive, field by field. */
  lemma FatalIff<P>(r: Raw<P>)
    ensures Fatal(r) <==>
            r.Fields?
            && (|| r.capturedAt.NoString?
                || (r.hasSensor && r.capturedAt.At?
                    && (|| r.uploadedAt.NoString?
                        || (r.uploadedAt.At? && (r.latitude.TooLarge? || (r.latitude.Degrees? && r.longitude.TooLarge?))))))
  {
  }

  // ---------------------------------------------------------------- two watermark streams

  /** What happens in the job: a raw record or a config message arrives, one of the two strategies emits a watermark. */
  datatype Arrival<P, C> = Record(r: Raw<P>) | Config(c: C) | SourceTick | WindowTick

  /** The operators between parser and windows, and what of an event reaches the windows of one key, if anything. */
  datatype Cleaning<!S, !P, !C> = Cleaning(start: S, event: (S, P, int) -> (S, Option<Input>), config: (S, C) -> S)

  function Job<S, P, C>(cl: Cleaning<S, P, C>, xs: seq<Arrival<P, C>>): (S, seq<Input>) {
    if xs == [] then (cl.start, [])
    else
      var (s, ins) := Job(cl, xs[..|xs| - 1]);
      match xs[|xs| - 1]
      case Config(c) => (cl.config(s, c), ins)
      case SourceTick => (s, ins)
      case WindowTick => (s, ins + [Tick])
      case Record(r) =>
        var p := ParseRecord(r);
        if !p.Event? then (s, ins)
        else
          var (t, out) := cl.event(s, p.payload, p.capturedAt);
          (t, ins + Optional(out))
  }

  function Optional(out: Option<Input>): seq<Input> {
    if out.Some? then [out.value] else []
  }

  /** What the window operator of a key receives behind the strategy of its branch. */
  function Windows<S, P, C>(cl: Cleaning<S, P, C>, xs: seq<Arrival<P, C>>): seq<Input> {
    Job(cl, xs).1
  }

  /** What the strategy at the source sees. */
  function AtSource<P, C>(xs: seq<Arrival<P, C>>): seq<Input> {
    if xs == [] then []
    else
      var before := AtSource(xs[..|xs| - 1]);
      match xs[|xs| - 1]
      case Record(r) => before + if SourceTimestamp(r).Some? then [Other(SourceTimestamp(r).value)] else []
      case SourceTick => before + [Tick]
      case _ => before
  }

  predicate Visible<P, C>(x: Arrival<P, C>) {
    !x.SourceTick? && (x.Record? ==> Sound(x.r))
  }

  /** The windows see nothing of malformed records and of the source's watermarks. */
  lemma {:induction false} OnlyParsedRecordsMatter<S, P, C>(cl: Cleaning<S, P, C>, xs: seq<Arrival<P, C>>)
    ensures Job(cl, xs) == Job(cl, Filter(Visible, xs))
  {
    if xs != [] {
      var init, last := xs[..|xs| - 1], xs[|xs| - 1];
      OnlyParsedRecordsMatter(cl, init);
      if last.Record? {
        ParsedIff(last.r);
      }
      var kept := Filter(Visible, init);
      if Visible(last) {
        assert (kept + [last])[..|kept|] == kept;
      }
    }
  }

  lemma {:induction false} AtSourceConcat<P, C>(a: seq<Arrival<P, C>>, b: seq<Arrival<P, C>>)
    ensures AtSource(a + b) == AtSource(a) + AtSource(b)
  {
    if b == [] {
      assert a + b == a;
    } else {
      assert (a + b)[..|a + b| - 1] == a + b[..|b| - 1];
      AtSourceConcat(a, b[..|b| - 1]);
    }
  }

  /** Dropping an arrival that is not visible leaves the visible ones. */
  lemma HiddenArrival<P, C>(a: seq<Arrival<P, C>>, x: Arrival<P, C>, b: seq<Arrival<P, C>>)
    requires !Visible(x)
    ensures Filter(Visible, a + [x] + b) == Filter(Visible, a + b)
  {
    FilterConcat(Visible, a + [x], b);
    FilterConcat(Visible, a, [x]);
    FilterConcat(Visible, a, b);
    assert [x][..0] == [];
    assert Filter(Visible, [x]) == [];
  }

  lemma SourceOfOne<P, C>(r: Raw<P>)
    requires Unparseable(r)
    ensures AtSource<P, C>([Record(r)]) == [Other(ExtractTimestamp(None))]
  {
    var xs: seq<Arrival<P, C>> := [Record(r)];
    assert xs[..0] == [];
  }

  /** The windows of the job depend on the visible arrivals alone. */
  lemma SameVisibleSameResult<S, P, C>(g: Geometry, cl: Cleaning<S, P, C>, xs: seq<Arrival<P, C>>, ys: seq<Arrival<P, C>>)
    requires g.Valid() && Filter(Visible, xs) == Filter(Visible, ys)
    ensures Result(g, Windows(cl, xs)) == Result(g, Windows(cl, ys))
  {
    OnlyParsedRecordsMatter(cl, xs);
    OnlyParsedRecordsMatter(cl, ys);
  }

  /** To the source's strategy an unparseable record is one at the epoch. */
  lemma SourceWith<P, C>(a: seq<Arrival<P, C>>, r: Raw<P>, b: seq<Arrival<P, C>>)
    requires Unparseable(r)
    ensures AtSource(a + [Record(r)] + b) == With(AtSource(a), AtSource(b))
    ensures AtSource(a + b) == AtSource(a) + AtSource(b)
  {
    AtSourceConcat(a + [Record(r)], b);
    AtSourceConcat(a, [Record(r)]);
    AtSourceConcat(a, b);
    SourceOfOne<P, C>(r);
  }

  lemma {:induction false} SourceTicks<P, C>(xs: seq<Arrival<P, C>>)
    ensures Tick in AtSource(xs) <==> SourceTick in xs
  {
    if xs != [] {
      SourceTicks(xs[..|xs| - 1]);
      assert xs == xs[..|xs| - 1] + [xs[|xs| - 1]];
    }
  }

  /** At the source it acts: a watermark emitted behind it is not below the epoch minus the bound. */
  lemma UnparseableAtTheSource<P, C>(g: Geometry, a: seq<Arrival<P, C>>, r: Raw<P>, b: seq<Arrival<P, C>>)
    requires g.Valid() && Unparseable(r)
    ensures var with, without := Play(g, AtSource(a + [Record(r)] + b)).wm, Play(g, AtSource(a + b)).wm;
            with == if SourceTick in b then Later(without, EpochWatermark(g)) else without
  {
    SourceWith(a, r, b);
    SourceTicks(b);
    WatermarkWith(g, AtSource(a), AtSource(b));
  }

  /** In the job it does not: wherever it arrives, it leaves what every window emits unchanged. */
  lemma UnparseableRecordInTheJob<S, P, C>(g: Geometry, cl: Cleaning<S, P, C>, a: seq<Arrival<P, C>>, r: Raw<P>, b: seq<Arrival<P, C>>)
    requires g.Valid() && Unparseable(r)
    ensures Result(g, Windows(cl, a + [Record(r)] + b)) == Result(g, Windows(cl, a + b))
  {
    HiddenArrival(a, Record(r), b);
    SameVisibleSameResult(g, cl, a + [Record(r)] + b, a + b);
  }

  // ---------------------------------------------------------------- without the second strategy

  lemma {:induction false} NoWatermarkNoFiring(g: Geometry, ins: seq<Input>)
    requires g.Valid() && Tick !in ins
    ensures Play(g, ins).wm == None && Play(g, ins).fired == []
  {
    if ins != [] {
      assert ins == ins[..|ins| - 1] + [ins[|ins| - 1]];
      NoWatermarkNoFiring(g, ins[..|ins| - 1]);
      assert ins[|ins| - 1] != Tick;
    }
  }

  /** What a two-input operator passes on: the lesser watermark, where None is below every other. */
  function Combined(one: Option<int>, other: Option<int>): (r: Option<int>)
    ensures r.None? <==> one.None? || other.None?
    ensures r.Some? ==> (r == one || r == other) && r.value <= one.value && r.value <= other.value
  {
    if one.None? || other.None? then None else Some(Min(one.value, other.value))
  }

  /** A stream of one key whose windows stand on the watermark that comes through the broadcast connect. */
  ghost function Propagated(g: Geometry, ins: seq<Input>, config: Option<int>): seq<Input>
    requires g.Valid()
  {
    if ins == [] then []
    else
      var init, last := ins[..|ins| - 1], ins[|ins| - 1];
      var before := Propagated(g, init, config);
      if last.Tick? && Combined(Play(g, ins).wm, config).None? then before else before + [last]
  }

  /** The config side has no watermarks: whatever the source emits, such windows would never fire. */
  lemma {:induction false} WithoutReassignmentNothingFires(g: Geometry, ins: seq<Input>)
    requires g.Valid()
    ensures Tick !in Propagated(g, ins, None) && Play(g, Propagated(g, ins, None)).fired == []
    ensures Arrived(Propagated(g, ins, None)) == Arrived(ins)
  {
    if ins != [] {
      var init, last := ins[..|ins| - 1], ins[|ins| - 1];
      WithoutReassignmentNothingFires(g, init);
      var before := Propagated(g, init, None);
      assert (before + [last])[..|before|] == before;
    }
    NoWatermarkNoFiring(g, Propagated(g, ins, None));
  }

  // ---------------------------------------------------------------- the job as a whole

  /** The times at which the sound records were captured. */
  function CapturedTimes<P, C>(xs: seq<Arrival<P, C>>): seq<int> {
    if xs == [] then []
    else
      var before, last := CapturedTimes(xs[..|xs| - 1]), xs[|xs| - 1];
      if last.Record? && Sound(last.r) then before + [last.r.capturedAt.ts] else before
  }

  /** What an operator between parser and windows is to see: a sound record with its time, or a config message. */
  datatype Seen<P, C> = SeenEvent(payload: P, capturedAt: int) | SeenConfig(c: C)

  function SeenOf<P, C>(xs: seq<Arrival<P, C>>): seq<Seen<P, C>> {
    if xs == [] then []
    else
      var before := SeenOf(xs[..|xs| - 1]);
      match xs[|xs| - 1]
      case Record(r) => if Sound(r) then before + [SeenEvent(r.payload, r.capturedAt.ts)] else before
      case Config(c) => before + [SeenConfig(c)]
      case _ => before
  }

  /** The sound records' times and the branch's watermarks, in order. */
  function Stamps<P, C>(xs: seq<Arrival<P, C>>): seq<Input> {
    if xs == [] then []
    else
      var before := Stamps(xs[..|xs| - 1]);
      match xs[|xs| - 1]
      case Record(r) => if Sound(r) then before + [Other(r.capturedAt.ts)] else before
      case WindowTick => before + [Tick]
      case _ => before
  }

  /** The same arrivals with the two strategies' watermarks exchanged. */
  function Exchanged<P, C>(xs: seq<Arrival<P, C>>): seq<Arrival<P, C>> {
    seq(|xs|, i requires 0 <= i < |xs| =>
      match xs[i]
      case SourceTick => WindowTick
      case WindowTick => SourceTick
      case x => x)
  }

  /** On sound records the strategy at the source and that of a branch stamp the same times. */
  lemma {:induction false} StrategiesAgree<P, C>(xs: seq<Arrival<P, C>>)
    requires forall i {:trigger xs[i]} :: 0 <= i < |xs| && xs[i].Record? ==> Sound(xs[i].r)
    ensures AtSource(xs) == Stamps(Exchanged(xs))
  {
    if xs != [] {
      var init, last := xs[..|xs| - 1], xs[|xs| - 1];
      assert Exchanged(xs)[..|xs| - 1] == Exchanged(init);
      StrategiesAgree(init);
      if last.Record? {
        ParsedIff(last.r);
      }
    }
  }

  /** Cleaning that remembers all it sees and passes every event on. */
  function Recorder<P, C>(): Cleaning<seq<Seen<P, C>>, P, C> {
    Cleaning([], (h: seq<Seen<P, C>>, p: P, ts: int) => (h + [SeenEvent(p, ts)], Some(Other(ts))),
             (h: seq<Seen<P, C>>, c: C) => h + [SeenConfig(c)])
  }

  /** Nothing is lost on the way to the cleaning or behind it: each sound record and config message, once and in order. */
  lemma {:induction false} CleaningSeesAll<P, C>(xs: seq<Arrival<P, C>>)
    ensures Job(Recorder(), xs) == (SeenOf(xs), Stamps(xs))
  {
    if xs != [] {
      CleaningSeesAll(xs[..|xs| - 1]);
      if xs[|xs| - 1].Record? {
        ParsedIff(xs[|xs| - 1].r);
      }
    }
  }

  /** What reaches the windows carries the time of its record. */
  predicate HasTime(out: Option<Input>, ts: int) {
    out.Some? ==> (out.value.Own? && out.value.e.capturedAt == ts) || out.value == Other(ts)
  }

  ghost predicate KeepsTimes<S(!new), P(!new), C(!new)>(cl: Cleaning<S, P, C>) {
    forall s, p, ts {:trigger cl.event(s, p, ts)} :: HasTime(cl.event(s, p, ts).1, ts)
  }

  lemma RisingAppend(at: seq<nat>, n: nat)
    requires Rising(at, n)
    ensures Rising(at, n + 1) && Rising(at + [n], n + 1)
  {
    var more := at + [n];
    assert forall i {:trigger more[i]} :: 0 <= i < |at| ==> more[i] == at[i];
  }

  lemma PickedAppend(ts: seq<int>, t: int, at: seq<nat>)
    requires Rising(at, |ts|)
    ensures Rising(at, |ts| + 1) && Rising(at + [|ts|], |ts| + 1)
    ensures Picked(ts + [t], at) == Picked(ts, at) && Picked(ts + [t], at + [|ts|]) == Picked(ts, at) + [t]
  {
    RisingAppend(at, |ts|);
    assert Picked(ts + [t], at + [|ts|])[..|at|] == Picked(ts, at);
  }

  lemma TimesOfOne(ins: seq<Input>, out: Option<Input>, ts: int)
    requires HasTime(out, ts)
    ensures Times(ins + Optional(out)) == if out.Some? then Times(ins) + [ts] else Times(ins)
  {
    if out.Some? {
      assert (ins + [out.value])[..|ins|] == ins;
    } else {
      assert ins + [] == ins;
    }
  }

  lemma PickStep(ins: seq<Input>, out: Option<Input>, ts: seq<int>, t: int, at: seq<nat>) returns (more: seq<nat>)
    requires Rising(at, |ts|) && Times(ins) == Picked(ts, at) && HasTime(out, t)
    ensures Rising(more, |ts| + 1) && Times(ins + Optional(out)) == Picked(ts + [t], more)
  {
    PickedAppend(ts, t, at);
    TimesOfOne(ins, out, t);
    more := if out.Some? then at + [|ts|] else at;
  }

  lemma TickHasNoTime(ins: seq<Input>)
    ensures Times(ins + [Tick]) == Times(ins)
  {
    assert (ins + [Tick])[..|ins|] == ins;
  }

  /** What arrives at the windows is a part of what parses, in its order. */
  lemma {:induction false} WindowsPick<S(!new), P(!new), C(!new)>(cl: Cleaning<S, P, C>, xs: seq<Arrival<P, C>>)
    returns (at: seq<nat>)
    requires KeepsTimes(cl)
    ensures Rising(at, |CapturedTimes(xs)|) && Times(Windows(cl, xs)) == Picked(CapturedTimes(xs), at)
  {
    if xs == [] {
      at := [];
    } else {
      var init, last := xs[..|xs| - 1], xs[|xs| - 1];
      at := WindowsPick(cl, init);
      var ins, ts := Windows(cl, init), CapturedTimes(init);
      match last
      case Config(_) =>
      case SourceTick =>
      case WindowTick => TickHasNoTime(ins);
      case Record(r) =>
        ParsedIff(r);
        if Sound(r) {
          var out := cl.event(Job(cl, init).0, r.payload, r.capturedAt.ts).1;
          at := PickStep(ins, out, ts, r.capturedAt.ts, at);
        }
    }
  }

  /**
   The whole job, for each key: when the sound records come within the bound, then whatever
   malformed records lie between them and whatever the cleaning drops, the windows are those of
   the batch computation over the events that reach them.
   */
  lemma JobEqualsBatch<S(!new), P(!new), C(!new)>(g: Geometry, cl: Cleaning<S, P, C>, xs: seq<Arrival<P, C>>)
    requires g.Valid() && KeepsTimes(cl) && WithinBound(CapturedTimes(xs), Itself(), g.bound)
    ensures Bounded(g, Windows(cl, xs)) && Result(g, Windows(cl, xs)) == Batch(g, Arrived(Windows(cl, xs)))
  {
    var at := WindowsPick(cl, xs);
    PickedWithin(CapturedTimes(xs), at, Itself(), g.bound);
    BoundedIff(g, Windows(cl, xs));
    StreamingEqualsBatch(g, Windows(cl, xs));
  }

  /** And so it is for a replayed file whose blocks and block boundaries are within the bound. */
  lemma ReplayThroughTheJob<S(!new), P(!new), C(!new)>(g: Geometry, cl: Cleaning<S, P, C>, xs: seq<Arrival<P, C>>,
                                                       kept: seq<Reading>, size: nat, key: Reading -> string)
    requires g.Valid() && KeepsTimes(cl) && size >= 1 && FileWithin(kept, size, key, g.bound)
    requires CapturedTimes(xs) == TimesOf(Streamed(kept, size, key))
    ensures Result(g, Windows(cl, xs)) == Batch(g, Arrived(Windows(cl, xs)))
  {
    StreamedWithinIff(kept, size, key, TimeOf(), g.bound);
    TimesWithin(Streamed(kept, size, key), g.bound);
    JobEqualsBatch(g, cl, xs);
  }

  // ---------------------------------------------------------------- records the job does not survive

  /** The source's place in the raw topic, and the place of the last checkpoint. */
  datatype Reader<P> = Reader(log: seq<Raw<P>>, position: nat, checkpoint: nat)

  datatype Turn<P> = Produce(rs: seq<Raw<P>>) | Read | Checkpoint | Fail

  /** An error that nothing catches fails the task, and the job starts again at its checkpoint. */
  function Next<P>(s: Reader<P>, turn: Turn<P>): Reader<P> {
    match turn
    case Produce(rs) => s.(log := s.log + rs)
    case Checkpoint => s.(checkpoint := s.position)
    case Fail => s.(position := s.checkpoint)
    case Read =>
      if s.position >= |s.log| then s
      else if Fatal(s.log[s.position]) then s.(position := s.checkpoint)
      else s.(position := s.position + 1)
  }

  function Run<P>(s: Reader<P>, turns: seq<Turn<P>>): Reader<P> {
    if turns == [] then s else Next(Run(s, turns[..|turns| - 1]), turns[|turns| - 1])
  }

  /** Nothing gets the job past a fatal record: no schedule of reads, checkpoints, failures and new records. */
  lemma {:induction false} FatalRecordStopsTheJob<P>(s: Reader<P>, turns: seq<Turn<P>>, p: nat)
    requires s.checkpoint <= s.position <= p < |s.log| && Fatal(s.log[p])
    ensures var t := Run(s, turns);
            t.checkpoint <= t.position <= p < |t.log| && t.log[p] == s.log[p]
  {
    if turns != [] {
      FatalRecordStopsTheJob(s, turns[..|turns| - 1], p);
    }
  }

  lemma {:induction false} CheckpointStays<P>(s: Reader<P>, turns: seq<Turn<P>>)
    requires Checkpoint !in turns
    ensures Run(s, turns).checkpoint == s.checkpoint
  {
    if turns != [] {
      assert turns == turns[..|turns| - 1] + [turns[|turns| - 1]];
      CheckpointStays(s, turns[..|turns| - 1]);
      assert turns[|turns| - 1] != Checkpoint;
    }
  }

  /** A failure, or a fatal record that is read. */
  predicate Fails<P>(s: Reader<P>, turn: Turn<P>) {
    turn.Fail? || (turn.Read? && s.position < |s.log| && Fatal(s.log[s.position]))
  }

  /** Whatever was read since, after a failure the job is where it took its last checkpoint. */
  lemma RestartIsAtTheCheckpoint<P>(s: Reader<P>, turns: seq<Turn<P>>, turn: Turn<P>)
    requires Checkpoint !in turns && Fails(Run(Next(s, Checkpoint), turns), turn)
    ensures Run(Next(s, Checkpoint), turns + [turn]).position == s.position
  {
    assert (turns + [turn])[..|turns|] == turns;
    CheckpointStays(Next(s, Checkpoint), turns);
  }

  function Reads<P>(n: nat): seq<Turn<P>> {
    seq(n, _ => Read)
  }

  lemma {:induction false} SoundRecordsAreRead<P>(s: Reader<P>, n: nat)
    requires s.position + n <= |s.log|
    requires forall i {:trigger s.log[i]} :: s.position <= i < s.position + n ==> !Fatal(s.log[i])
    ensures Run(s, Reads(n)) == s.(position := s.position + n)
  {
    if n > 0 {
      assert Reads<P>(n)[..n - 1] == Reads<P>(n - 1);
      SoundRecordsAreRead(s, n - 1);
    }
  }

  /** Some schedule reads the whole topic if and only if none of the records left is fatal. */
  lemma TopicIsReadIff<P(!new)>(s: Reader<P>)
    requires s.checkpoint <= s.position <= |s.log|
    ensures (exists turns :: Run(s, turns).position >= |s.log|)
            <==> forall i {:trigger s.log[i]} :: s.position <= i < |s.log| ==> !Fatal(s.log[i])
  {
    if forall i {:trigger s.log[i]} :: s.position <= i < |s.log| ==> !Fatal(s.log[i]) {
      SoundRecordsAreRead(s, |s.log| - s.position);
      assert Run(s, Reads(|s.log| - s.position)).position >= |s.log|;
    } else {
      var p :| s.position <= p < |s.log| && Fatal(s.log[p]);
      forall turns ensures Run(s, turns).position < |s.log| {
        FatalRecordStopsTheJob(s, turns, p);
      }
    }
  }
}
