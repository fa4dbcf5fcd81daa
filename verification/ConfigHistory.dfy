/** What the config is at any time, told field by field from the requests that were accepted. */
module ConfigHistory {
  import opened Sequences
  import opened ConfigOperators
  import opened ConfigProtocol

  /** `v` is the last value set, or the initial one when none is. */
  ghost predicate IsLatest<T>(sets: seq<Option<T>>, initial: Option<T>, v: Option<T>) {
    || (v == initial && forall i {:trigger sets[i]} :: 0 <= i < |sets| ==> sets[i].None?)
    || (exists i {:trigger sets[i]} :: 0 <= i < |sets| && sets[i].Some? && v == sets[i]
                                       && forall j {:trigger sets[j]} :: i < j < |sets| ==> sets[j].None?)
  }

  /** The payloads of the accepted requests, in the order of their messages in the topic. */
  function Payloads(requests: map<nat, Request>, accepted: seq<nat>): seq<Payload>
    requires forall i {:trigger accepted[i]} :: 0 <= i < |accepted| ==> accepted[i] in requests
  {
    seq(|accepted|, i requires 0 <= i < |accepted| => requests[accepted[i]].payload)
  }

  function Warns(ps: seq<Payload>): seq<Option<real>> {
    seq(|ps|, i requires 0 <= i < |ps| => ps[i].warn)
  }

  function Dangers(ps: seq<Payload>): seq<Option<real>> {
    seq(|ps|, i requires 0 <= i < |ps| => ps[i].danger)
  }

  function Areas(ps: seq<Payload>): seq<Option<Area>> {
    seq(|ps|, i requires 0 <= i < |ps| => ps[i].area)
  }

  function Timespans(ps: seq<Payload>): seq<Option<Timespan>> {
    seq(|ps|, i requires 0 <= i < |ps| => ps[i].timespan)
  }

  /** Each of the four fields is the last value an update set, or the initial one. */
  ghost predicate IsLatestConfig(ps: seq<Payload>, initial: Config, c: Config) {
    && IsLatest(Warns(ps), Some(initial.warn), Some(c.warn))
    && IsLatest(Dangers(ps), Some(initial.danger), Some(c.danger))
    && IsLatest(Areas(ps), initial.area, c.area)
    && IsLatest(Timespans(ps), initial.timespan, c.timespan)
  }

  lemma LatestSnoc<T>(sets: seq<Option<T>>, initial: Option<T>, v: Option<T>, last: Option<T>)
    requires IsLatest(sets, initial, v)
    ensures IsLatest(sets + [last], initial, if last.Some? then last else v)
  {
    var all := sets + [last];
    assert all[|sets|] == last;
    assert forall j {:trigger all[j]} {:trigger sets[j]} :: 0 <= j < |sets| ==> all[j] == sets[j];
    if last.None? && !forall i {:trigger sets[i]} :: 0 <= i < |sets| ==> sets[i].None? {
      var i :| 0 <= i < |sets| && sets[i].Some? && v == sets[i]
               && forall j {:trigger sets[j]} :: i < j < |sets| ==> sets[j].None?;
      assert all[i] == sets[i];
    }
  }

  lemma FieldsSnoc(ps: seq<Payload>, p: Payload)
    ensures Warns(ps + [p]) == Warns(ps) + [p.warn] && Dangers(ps + [p]) == Dangers(ps) + [p.danger]
    ensures Areas(ps + [p]) == Areas(ps) + [p.area] && Timespans(ps + [p]) == Timespans(ps) + [p.timespan]
  {
  }

  lemma UpdateSnoc(ps: seq<Payload>, initial: Config, c: Config, p: Payload, r: Config)
    requires IsLatestConfig(ps, initial, c) && IsUpdated(c, p, r)
    ensures IsLatestConfig(ps + [p], initial, r)
  {
    FieldsSnoc(ps, p);
    LatestSnoc(Warns(ps), Some(initial.warn), Some(c.warn), p.warn);
    LatestSnoc(Dangers(ps), Some(initial.danger), Some(c.danger), p.danger);
    LatestSnoc(Areas(ps), initial.area, c.area, p.area);
    LatestSnoc(Timespans(ps), initial.timespan, c.timespan, p.timespan);
  }

  lemma {:induction false} MergedIsLatest(initial: Config, requests: map<nat, Request>, accepted: seq<nat>)
    requires forall i {:trigger accepted[i]} :: 0 <= i < |accepted| ==> accepted[i] in requests
    ensures IsLatestConfig(Payloads(requests, accepted), initial, Merged(initial, requests, accepted))
  {
    if accepted != [] {
      var init, pid := accepted[..|accepted| - 1], accepted[|accepted| - 1];
      assert forall i {:trigger init[i]} :: 0 <= i < |init| ==> init[i] == accepted[i];
      MergedIsLatest(initial, requests, init);
      var before := Merged(initial, requests, init);
      MergeUpdates(before, requests[pid].payload);
      UpdateSnoc(Payloads(requests, init), initial, before, requests[pid].payload, Merge(before, requests[pid].payload));
      assert Payloads(requests, accepted) == Payloads(requests, init) + [requests[pid].payload];
    }
  }

  lemma AcceptedAreKnown(s: State)
    requires HistoryInv(s)
    ensures forall i {:trigger s.accepted[i]} :: 0 <= i < |s.accepted| ==> s.accepted[i] in s.requests
  {
    forall i | 0 <= i < |s.accepted| ensures s.accepted[i] in s.requests {
      assert s.accepted[i] in s.accepted;
    }
  }

  /**
   In every interleaving, outside the lock each field of the active config is the value set by
   the last accepted request, in topic order, that sets it, or the initial value when none does.
   */
  lemma FieldsAreLatest(initial: Config, steps: seq<Step>)
    requires initial.warn < initial.danger && Run(initial, steps).lock.None?
    ensures var s := Run(initial, steps);
            (forall i {:trigger s.accepted[i]} :: 0 <= i < |s.accepted| ==> s.accepted[i] in s.requests)
            && IsLatestConfig(Payloads(s.requests, s.accepted), initial, s.active)
  {
    var s := Run(initial, steps);
    RunKeepsInvariant(initial, steps);
    AcceptedAreKnown(s);
    MergedIsLatest(initial, s.requests, s.accepted);
  }

  // ---------------------------------------------------------------- the topic

  /** The last well-formed message of the topic carries the config that the topic stands for. */
  ghost predicate TopicInv(topic: seq<Message>, initial: Config) {
    var wires := Filter(WellFormed, topic);
    wires != [] ==> Carries(wires[|wires| - 1], LastConfig(topic, initial))
  }

  lemma TopicSnoc(topic: seq<Message>, initial: Config, c: Config)
    ensures TopicInv(topic + [ToWire(c)], initial)
    ensures TopicInv(topic, initial) ==> TopicInv(topic + [Malformed], initial)
  {
    assert (topic + [ToWire(c)])[..|topic|] == topic && (topic + [Malformed])[..|topic|] == topic;
    WireRoundTrip(c);
  }

  lemma {:induction false} RunKeepsTopic(initial: Config, steps: seq<Step>)
    ensures TopicInv(Run(initial, steps).topic, initial)
  {
    if steps != [] {
      var s, step := Run(initial, steps[..|steps| - 1]), steps[|steps| - 1];
      RunKeepsTopic(initial, steps[..|steps| - 1]);
      if Enabled(s, step) {
        match step
        case BrokerAppends(pid) => TopicSnoc(s.topic, initial, s.requests[pid].merged);
        case ForeignMessage => TopicSnoc(s.topic, initial, initial);
        case _ =>
      }
    }
  }

  /** The last well-formed message of the topic carries exactly the four fields of the accepted updates, at any time. */
  lemma LastMessageCarriesLatest(initial: Config, steps: seq<Step>) returns (c: Config)
    requires initial.warn < initial.danger && Run(initial, steps).accepted != []
    ensures var s := Run(initial, steps);
            var wires := Filter(WellFormed, s.topic);
            && (forall i {:trigger s.accepted[i]} :: 0 <= i < |s.accepted| ==> s.accepted[i] in s.requests)
            && IsLatestConfig(Payloads(s.requests, s.accepted), initial, c)
            && wires != [] && Carries(wires[|wires| - 1], c)
            && (s.lock.None? ==> c == s.active)
  {
    var s := Run(initial, steps);
    RunKeepsInvariant(initial, steps);
    RunKeepsTopic(initial, steps);
    RunCountsMessages(initial, steps);
    AcceptedAreKnown(s);
    MergedIsLatest(initial, s.requests, s.accepted);
    c := LastConfig(s.topic, initial);
  }

  // ---------------------------------------------------------------- what validation keeps

  /** Thresholds above zero, an area on the globe with an extent, a timespan that has not ended before it starts. */
  predicate Sane(c: Config) {
    && c.warn > 0.0 && c.danger > 0.0
    && (c.area.Some? ==>
          && -90.0 <= c.area.value.minLat && c.area.value.minLat < c.area.value.maxLat && c.area.value.maxLat <= 90.0
          && -180.0 <= c.area.value.minLon && c.area.value.minLon < c.area.value.maxLon && c.area.value.maxLon <= 180.0)
    && (c.timespan.Some? ==> c.timespan.value.start < c.timespan.value.end)
  }

  /** A payload is valid exactly when it keeps every sane config sane that it is merged onto, and is in order by itself. */
  lemma ValidIff(p: Payload)
    ensures ValidPayload(p) <==>
            && (forall c :: Sane(c) ==> Sane(Merge(c, p)))
            && (p.warn.Some? && p.danger.Some? ==> p.warn.value < p.danger.value)
  {
    if !ValidPayload(p) {
      var c := Config(100.0, 1000.0, None, None);
      assert Sane(c);
      assert Sane(Merge(c, p)) ==> p.warn.Some? && p.danger.Some? && p.warn.value >= p.danger.value;
    }
  }

  ghost predicate SaneRun(s: State) {
    && Sane(s.active)
    && (forall pid {:trigger s.requests[pid]} :: pid in s.requests ==>
          ValidPayload(s.requests[pid].payload) && (Holding(s.requests[pid]) ==> Sane(s.requests[pid].merged)))
    && (forall i {:trigger s.topic[i]} :: 0 <= i < |s.topic| && s.topic[i].Wire? ==> Deserialize(s.topic[i]).Some? && Sane(Deserialize(s.topic[i]).value))
  }

  lemma StepStaysSane(s: State, step: Step)
    requires SaneRun(s) && Enabled(s, step)
    ensures SaneRun(Next(s, step))
  {
    match step
    case Enter(pid) => ValidIff(s.requests[pid].payload);
    case BrokerAppends(pid) => WireRoundTrip(s.requests[pid].merged);
    case _ =>
  }

  /** So in every interleaving the active config and every message of the backend are sane. */
  lemma {:induction false} RunStaysSane(initial: Config, steps: seq<Step>)
    requires Sane(initial)
    ensures SaneRun(Run(initial, steps))
  {
    if steps != [] {
      var s := Run(initial, steps[..|steps| - 1]);
      RunStaysSane(initial, steps[..|steps| - 1]);
      if Enabled(s, steps[|steps| - 1]) {
        StepStaysSane(s, steps[|steps| - 1]);
      }
    }
  }
}
