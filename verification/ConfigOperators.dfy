/**
 The config messages of `config.updates` and the two Flink operators that keep them as
 broadcast state: the threshold classifier and the region filter.
 */
module ConfigOperators {
  import opened Sequences

  datatype Area = Area(minLat: real, maxLat: real, minLon: real, maxLon: real)

  datatype Timespan = Timespan(start: int, end: int)

  datatype Config = Config(warn: real, danger: real, area: Option<Area>, timespan: Option<Timespan>)

  /** A field of a wire message: left out or null, an empty object, or a value. */
  datatype Field<T> = Absent | EmptyObject | Given(value: T)

  /** A message of the topic; Malformed is whatever the deserializer raises on. */
  datatype Message = Malformed | Wire(warn: real, danger: real, area: Field<Area>, timespan: Field<Timespan>)

  const DEFAULT_WARN: real := 100.0
  const DEFAULT_DANGER: real := 1000.0

  /** A falsy field counts as no field, for the deserializer and for the region filter alike. */
  function Present<T>(f: Field<T>): Option<T> {
    if f.Given? then Some(f.value) else None
  }

  /** `deserialize_config` */
  function Deserialize(m: Message): Option<Config> {
    match m
    case Malformed => None
    case Wire(warn, danger, area, timespan) => Some(Config(warn, danger, Present(area), Present(timespan)))
  }

  /** The last config of a topic prefix, or `initial` before the first well-formed message. */
  function LastConfig(topic: seq<Message>, initial: Config): Config {
    if topic == [] then initial
    else
      var c := Deserialize(topic[|topic| - 1]);
      if c.Some? then c.value else LastConfig(topic[..|topic| - 1], initial)
  }

  /** The well-formed message at `i` of the topic is the last one. */
  ghost predicate IsLastWire(topic: seq<Message>, i: nat) {
    i < |topic| && topic[i].Wire? && forall j {:trigger topic[j]} :: i < j < |topic| ==> topic[j].Malformed?
  }

  /** A config is read field by field; an empty object counts as no area and no timespan. */
  lemma {:induction false} LastConfigIs(topic: seq<Message>, initial: Config, i: nat)
    requires IsLastWire(topic, i)
    ensures var c, m := LastConfig(topic, initial), topic[i];
            && c.warn == m.warn && c.danger == m.danger
            && (c.area.Some? <==> m.area.Given?) && (c.area.Some? ==> c.area.value == m.area.value)
            && (c.timespan.Some? <==> m.timespan.Given?) && (c.timespan.Some? ==> c.timespan.value == m.timespan.value)
  {
    if i < |topic| - 1 {
      LastConfigIs(topic[..|topic| - 1], initial, i);
    }
  }

  lemma {:induction false} NoConfigYet(topic: seq<Message>, initial: Config)
    requires forall i {:trigger topic[i]} :: 0 <= i < |topic| ==> topic[i].Malformed?
    ensures LastConfig(topic, initial) == initial
    ensures LastConfig(topic, Unconfigured()) == Config(100.0, 1000.0, None, None)
  {
    if topic != [] {
      NoConfigYet(topic[..|topic| - 1], initial);
    }
  }

  /** What the operators go by before any config arrives. */
  function Unconfigured(): Config {
    Config(DEFAULT_WARN, DEFAULT_DANGER, None, None)
  }

  // ---------------------------------------------------------------- classification

  datatype Class = SAFE | WARN | DANGER

  function Classify(cpm: Option<real>, warn: real, danger: real): Option<Class> {
    if cpm.None? then None
    else if cpm.value >= danger then Some(DANGER)
    else if cpm.value >= warn then Some(WARN)
    else Some(SAFE)
  }

  function Severity(c: Class): nat {
    match c
    case SAFE => 0
    case WARN => 1
    case DANGER => 2
  }

  /** With warn < danger the classes are three bands in order, none of them empty. */
  lemma ClassesAreBands(warn: real, danger: real, x: real, y: real)
    requires warn < danger
    ensures x <= y ==> Severity(Classify(Some(x), warn, danger).value) <= Severity(Classify(Some(y), warn, danger).value)
    ensures Classify(Some(warn), warn, danger) == Some(WARN) && Classify(Some(danger), warn, danger) == Some(DANGER)
    ensures x < warn <==> Classify(Some(x), warn, danger) == Some(SAFE)
    ensures warn <= x < danger <==> Classify(Some(x), warn, danger) == Some(WARN)
  {
  }

  /** Without it WARN disappears: the order of the thresholds is exactly what keeps it alive. */
  lemma WarnBandNeedsOrder(warn: real, danger: real)
    ensures warn < danger <==> exists x: real :: Classify(Some(x), warn, danger) == Some(WARN)
  {
    if warn < danger {
      assert Classify(Some(warn), warn, danger) == Some(WARN);
    }
  }

  /** An event of the cleaned stream; the classifier writes its classification in place. */
  class Event {
    const latitude: real
    const longitude: real
    const capturedAt: int
    const cpm: Option<real>
    var classification: Option<Class>

    constructor (latitude: real, longitude: real, capturedAt: int, cpm: Option<real>)
      ensures this.latitude == latitude && this.longitude == longitude
      ensures this.capturedAt == capturedAt && this.cpm == cpm && classification.None?
    {
      this.latitude, this.longitude, this.capturedAt, this.cpm := latitude, longitude, capturedAt, cpm;
      classification := None;
    }
  }

  class ThresholdClassifier {
    var warn: Option<real>
    var danger: Option<real>
    ghost var consumed: seq<Message>

    ghost predicate Valid()
      reads this
    {
      var c := LastConfig(consumed, Unconfigured());
      && (warn.None? <==> danger.None?)
      && (if warn.Some? then warn.value else DEFAULT_WARN) == c.warn
      && (if danger.Some? then danger.value else DEFAULT_DANGER) == c.danger
    }

    constructor ()
      ensures Valid() && consumed == []
    {
      warn, danger, consumed := None, None, [];
    }

    /** A malformed message is dropped and leaves the last good thresholds in place. */
    method ProcessBroadcastElement(m: Message)
      requires Valid()
      modifies this
      ensures Valid() && consumed == old(consumed) + [m]
    {
      assert (consumed + [m])[..|consumed|] == consumed;
      consumed := consumed + [m];
      var config := Deserialize(m);
      if config.Some? {
        warn, danger := Some(config.value.warn), Some(config.value.danger);
      }
    }

    method ProcessElement(e: Event)
      requires Valid()
      modifies e
      ensures var c := LastConfig(consumed, Unconfigured());
              && (e.classification.None? <==> e.cpm.None?)
              && (e.classification == Some(DANGER) <==> e.cpm.Some? && e.cpm.value >= c.danger)
              && (e.classification == Some(WARN) <==> e.cpm.Some? && c.warn <= e.cpm.value < c.danger)
              && (e.classification == Some(SAFE) <==> e.cpm.Some? && e.cpm.value < c.danger && e.cpm.value < c.warn)
    {
      var w := if warn.Some? then warn.value else DEFAULT_WARN;
      var d := if danger.Some? then danger.value else DEFAULT_DANGER;
      e.classification := Classify(e.cpm, w, d);
    }
  }

  // ---------------------------------------------------------------- region filter

  /** The bounding box is closed, the timespan half-open. */
  predicate InArea(latitude: real, longitude: real, area: Area) {
    area.minLat <= latitude <= area.maxLat && area.minLon <= longitude <= area.maxLon
  }

  predicate InTimespan(capturedAt: int, timespan: Timespan) {
    timespan.start <= capturedAt < timespan.end
  }

  /** Consecutive timespans split events between them: none passes both, none is missed. */
  lemma TimespansPartition(a: int, b: int, c: int, t: int)
    requires a <= b <= c
    ensures InTimespan(t, Timespan(a, c)) <==> InTimespan(t, Timespan(a, b)) != InTimespan(t, Timespan(b, c))
    ensures !(InTimespan(t, Timespan(a, b)) && InTimespan(t, Timespan(b, c)))
  {
  }

  class RegionFilter {
    var area: Option<Area>
    var timespan: Option<Timespan>
    ghost var consumed: seq<Message>

    ghost predicate Valid()
      reads this
    {
      var c := LastConfig(consumed, Unconfigured());
      area == c.area && timespan == c.timespan
    }

    constructor ()
      ensures Valid() && consumed == []
    {
      area, timespan, consumed := None, None, [];
    }

    /** Every well-formed message replaces the whole filter; one without a field clears it. */
    method ProcessBroadcastElement(m: Message)
      requires Valid()
      modifies this
      ensures Valid() && consumed == old(consumed) + [m]
    {
      assert (consumed + [m])[..|consumed|] == consumed;
      consumed := consumed + [m];
      if Deserialize(m).None? {
        return;
      }
      area, timespan := Present(m.area), Present(m.timespan);
    }

    method ProcessElement(e: Event) returns (passes: bool)
      requires Valid()
      ensures var c := LastConfig(consumed, Unconfigured());
              passes <==>
                && (c.area.Some? ==>
                      && c.area.value.minLat <= e.latitude && e.latitude <= c.area.value.maxLat
                      && c.area.value.minLon <= e.longitude && e.longitude <= c.area.value.maxLon)
                && (c.timespan.Some? ==> c.timespan.value.start <= e.capturedAt && e.capturedAt < c.timespan.value.end)
    {
      passes := true;
      if area.Some? && !InArea(e.latitude, e.longitude, area.value) {
        return false;
      }
      if timespan.Some? && !InTimespan(e.capturedAt, timespan.value) {
        return false;
      }
    }
  }
}
