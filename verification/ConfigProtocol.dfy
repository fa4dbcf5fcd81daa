/**
 The config back-channel: concurrent partial updates to the backend, each of which merges,
 validates, publishes the full config and only then commits it, under one lock; and the
 Flink operators that replay the topic at their own pace.

 One backend lifetime, one partition. A publish that fails has appended nothing; a publish
 that succeeds has appended its message before the request that waits for it resumes.
 */
module ConfigProtocol {
  import opened Sequences
  import opened ConfigOperators

  /** A partial update: None keeps the current value. */
  datatype Payload = Payload(warn: Option<real>, danger: Option<real>, area: Option<Area>, timespan: Option<Timespan>)

  /** What request validation lets through. */
  predicate ValidPayload(p: Payload) {
    && (p.warn.Some? ==> p.warn.value > 0.0)
    && (p.danger.Some? ==> p.danger.value > 0.0)
    && (p.warn.Some? && p.danger.Some? ==> p.warn.value < p.danger.value)
    && (p.area.Some? ==> ValidArea(p.area.value))
    && (p.timespan.Some? ==> p.timespan.value.start < p.timespan.value.end)
  }

  predicate ValidArea(a: Area) {
    -90.0 <= a.minLat < a.maxLat <= 90.0 && -180.0 <= a.minLon < a.maxLon <= 180.0
  }

  function Merge(c: Config, p: Payload): Config {
    Config(if p.warn.Some? then p.warn.value else c.warn,
           if p.danger.Some? then p.danger.value else c.danger,
           if p.area.Some? then p.area else c.area,
           if p.timespan.Some? then p.timespan else c.timespan)
  }

  /** No field is set by both updates. */
  predicate Disjoint(p: Payload, q: Payload) {
    && (p.warn.None? || q.warn.None?) && (p.danger.None? || q.danger.None?)
    && (p.area.None? || q.area.None?) && (p.timespan.None? || q.timespan.None?)
  }

  /** Updates of different fields give one result in either order, and repeating one changes nothing. */
  lemma UpdatesCompose(c: Config, p: Payload, q: Payload)
    ensures Disjoint(p, q) ==> Merge(Merge(c, p), q) == Merge(Merge(c, q), p)
    ensures Merge(Merge(c, p), p) == Merge(c, p)
  {
  }

  function ToField<T>(x: Option<T>): Field<T> {
    if x.Some? then Given(x.value) else Absent
  }

  /** The full merged state goes on the wire, unset fields left out. */
  function ToWire(c: Config): Message {
    Wire(c.warn, c.danger, ToField(c.area), ToField(c.timespan))
  }

  /** What is published is what both operators read back. */
  lemma WireRoundTrip(c: Config)
    ensures Deserialize(ToWire(c)) == Some(c)
  {
  }

  predicate Ordered(c: Config) {
    c.warn < c.danger
  }

  // ---------------------------------------------------------------- the program, one request at a time

  datatype Response = Accepted(config: Config) | Unprocessable | Unavailable

  datatype Status = Stopped | Disabled | Degraded | Up

  class ConfigProducer {
    var available: bool
    var status: Status
    var topic: seq<Message>
    var published: nat
    var failures: nat

    constructor ()
      ensures !available && status == Stopped && topic == [] && published == failures == 0
    {
      available, status, topic, published, failures := false, Stopped, [], 0, 0;
    }

    /** A disabled producer and an unreachable broker leave the producer as it was. */
    method Start(enabled: bool, reachable: bool)
      modifies this`available, this`status
      ensures available == (old(available) || (enabled && reachable))
      ensures status == if !enabled then Disabled else if !reachable then Degraded else Up
    {
      if !enabled {
        status := Disabled;
        return;
      }
      if !reachable {
        status := Degraded;
        return;
      }
      available, status := true, Up;
    }

    /** Stopping a producer that never started keeps the status that says why. */
    method Stop()
      modifies this`available, this`status
      ensures !available && status == if old(available) then Stopped else old(status)
    {
      if !available {
        return;
      }
      available, status := false, Stopped;
    }

    /** `acked`: the broker appended the message. False is the error raised to the caller. */
    method Publish(m: Message, acked: bool) returns (ok: bool)
      modifies this`topic, this`published, this`failures
      ensures ok == (available && acked)
      ensures topic == if ok then old(topic) + [m] else old(topic)
      ensures published == old(published) + (if ok then 1 else 0) && failures == old(failures) + if ok then 0 else 1
    {
      if !available {
        failures := failures + 1;
        return false;
      }
      if !acked {
        failures := failures + 1;
        return false;
      }
      topic, published := topic + [m], published + 1;
      ok := true;
    }
  }

  /** `v` is what the update sets, or what was there before when it sets nothing. */
  predicate Sets<T(==)>(given: Option<T>, before: T, v: T) {
    given == Some(v) || (given.None? && v == before)
  }

  predicate SetsFilter<T(==)>(given: Option<T>, before: Option<T>, v: Option<T>) {
    if given.Some? then v == given else v == before
  }

  /** `r` is `c` with the fields of the update, field by field. */
  predicate IsUpdated(c: Config, p: Payload, r: Config) {
    && Sets(p.warn, c.warn, r.warn) && Sets(p.danger, c.danger, r.danger)
    && SetsFilter(p.area, c.area, r.area) && SetsFilter(p.timespan, c.timespan, r.timespan)
  }

  /** The message that carries `c`: an unset area or timespan is left out. */
  predicate Carries(m: Message, c: Config) {
    && m.Wire? && m.warn == c.warn && m.danger == c.danger
    && m.area == (if c.area.Some? then Given(c.area.value) else Absent)
    && m.timespan == (if c.timespan.Some? then Given(c.timespan.value) else Absent)
  }

  lemma MergeUpdates(c: Config, p: Payload)
    ensures forall r :: IsUpdated(c, p, r) <==> r == Merge(c, p)
    ensures forall m, r :: Carries(m, r) <==> m == ToWire(r)
  {
  }

  /** The answer to a valid update of `c`: 422 for crossed thresholds, 503 when the broker does not take the message. */
  ghost predicate IsAnswer(c: Config, p: Payload, taken: bool, r: Response) {
    exists merged :: IsUpdated(c, p, merged) &&
      match r
      case Accepted(config) => config == merged && merged.warn < merged.danger && taken
      case Unprocessable => merged.warn >= merged.danger
      case Unavailable => merged.warn < merged.danger && !taken
  }

  class ConfigService {
    var active: Config
    const producer: ConfigProducer

    constructor (initial: Config, producer: ConfigProducer)
      ensures active == initial && this.producer == producer
    {
      active, this.producer := initial, producer;
    }

    /** `update_config` under the lock: on a refusal or a failed publish nothing changes. */
    method UpdateConfig(p: Payload, acked: bool) returns (r: Response)
      modifies this`active, producer`topic, producer`published, producer`failures
      ensures active == (if r.Accepted? then r.config else old(active))
      ensures producer.topic == old(producer.topic) + (if r.Accepted? then [ToWire(active)] else [])
      ensures r.Accepted? ==> Carries(ToWire(active), active) && IsUpdated(old(active), p, active) && active.warn < active.danger
      ensures IsAnswer(old(active), p, producer.available && acked, r)
    {
      MergeUpdates(active, p);
      assert IsUpdated(active, p, Merge(active, p));
      var updated := Merge(active, p);
      if updated.warn >= updated.danger {
        return Unprocessable;
      }
      var ok := producer.Publish(ToWire(updated), acked);
      if !ok {
        return Unavailable;
      }
      active := updated;
      r := Accepted(active);
    }
  }

  /** What the endpoint makes of a request: one that validation refuses reaches neither lock nor topic. */
  method Post(service: ConfigService, p: Payload, acked: bool) returns (r: Response)
    modifies service`active, service.producer`topic, service.producer`published, service.producer`failures
    ensures !ValidPayload(p) ==>
              r == Unprocessable && service.active == old(service.active) && service.producer.topic == old(service.producer.topic)
    ensures ValidPayload(p) ==> IsAnswer(old(service.active), p, service.producer.available && acked, r)
    ensures r.Accepted? ==> r.config == service.active && service.producer.topic == old(service.producer.topic) + [ToWire(service.active)]
    ensures !r.Accepted? ==> service.active == old(service.active) && service.producer.topic == old(service.producer.topic)
  {
    if !ValidPayload(p) {
      return Unprocessable;
    }
    r := service.UpdateConfig(p, acked);
  }

  /** A payload that is fine by itself can still be refused for what it is merged onto. */
  lemma MergedStateNeedsItsOwnCheck()
    ensures var c, p := Config(100.0, 1000.0, None, None), Payload(Some(2000.0), None, None, None);
            Ordered(c) && ValidPayload(p) && !Ordered(Merge(c, p))
  {
  }

  // ---------------------------------------------------------------- all interleavings

  datatype Request =
    | Waiting(payload: Payload)
    | Publishing(payload: Payload, merged: Config)  // holds the lock, nothing appended
    | Acked(payload: Payload, merged: Config)       // holds the lock, message appended
    | Done(payload: Payload, response: Response)

  datatype State = State(
    initial: Config,
    active: Config,
    topic: seq<Message>,
    lock: Option<nat>,
    requests: map<nat, Request>,
    accepted: seq<nat>,  // the requests whose messages were appended, in topic order
    classifierAt: nat,   // topic offset of the classifier
    thresholds: Config,  // its thresholds
    filterAt: nat,       // topic offset of the region filter
    region: Config)      // its area and timespan

  datatype Step =
    | Arrive(pid: nat, payload: Payload)
    | Enter(pid: nat)
    | PublishFails(pid: nat)
    | BrokerAppends(pid: nat)
    | Resume(pid: nat)
    | ForeignMessage          // something malformed is appended to the topic
    | ClassifierReads
    | FilterReads

  function Start(initial: Config): State {
    State(initial, initial, [], None, map[], [], 0, Unconfigured(), 0, Unconfigured())
  }

  predicate Enabled(s: State, step: Step) {
    match step
    case Arrive(pid, payload) => pid !in s.requests && ValidPayload(payload)
    case Enter(pid) => s.lock.None? && pid in s.requests && s.requests[pid].Waiting?
    case PublishFails(pid) => pid in s.requests && s.requests[pid].Publishing?
    case BrokerAppends(pid) => pid in s.requests && s.requests[pid].Publishing?
    case Resume(pid) => pid in s.requests && s.requests[pid].Acked?
    case ForeignMessage => true
    case ClassifierReads => s.classifierAt < |s.topic|
    case FilterReads => s.filterAt < |s.topic|
  }

  /** What an operator holds after one more message. */
  function Apply(c: Config, m: Message): Config {
    var d := Deserialize(m);
    if d.Some? then d.value else c
  }

  function Next(s: State, step: Step): State
    requires Enabled(s, step)
  {
    match step
    case Arrive(pid, payload) => s.(requests := s.requests[pid := Waiting(payload)])
    case Enter(pid) =>
      var payload := s.requests[pid].payload;
      var merged := Merge(s.active, payload);
      if !Ordered(merged) then s.(requests := s.requests[pid := Done(payload, Unprocessable)])
      else s.(lock := Some(pid), requests := s.requests[pid := Publishing(payload, merged)])
    case PublishFails(pid) =>
      s.(lock := None, requests := s.requests[pid := Done(s.requests[pid].payload, Unavailable)])
    case BrokerAppends(pid) =>
      var r := s.requests[pid];
      s.(topic := s.topic + [ToWire(r.merged)], accepted := s.accepted + [pid],
         requests := s.requests[pid := Acked(r.payload, r.merged)])
    case Resume(pid) =>
      var r := s.requests[pid];
      s.(active := r.merged, lock := None, requests := s.requests[pid := Done(r.payload, Accepted(r.merged))])
    case ForeignMessage => s.(topic := s.topic + [Malformed])
    case ClassifierReads => s.(classifierAt := s.classifierAt + 1, thresholds := Apply(s.thresholds, s.topic[s.classifierAt]))
    case FilterReads => s.(filterAt := s.filterAt + 1, region := Apply(s.region, s.topic[s.filterAt]))
  }

  /** Something malformed may be on the topic at any time; an operator that reads it keeps what it holds. */
  lemma ForeignMessagesChangeNothing(s: State, c: Config)
    ensures Enabled(s, ForeignMessage)
    ensures var t := Next(s, ForeignMessage);
            && |t.topic| == |s.topic| + 1 && t.topic[..|s.topic|] == s.topic && Apply(c, t.topic[|s.topic|]) == c
            && t.active == s.active && t.lock == s.lock && t.requests == s.requests && t.accepted == s.accepted
            && t.thresholds == s.thresholds && t.region == s.region
  {
  }

  /** A run; a step that is not enabled does nothing. */
  function Run(initial: Config, steps: seq<Step>): State {
    if steps == [] then Start(initial)
    else
      var s := Run(initial, steps[..|steps| - 1]);
      if Enabled(s, steps[|steps| - 1]) then Next(s, steps[|steps| - 1]) else s
  }

  /** The accepted payloads merged one after another onto the initial config. */
  function Merged(initial: Config, requests: map<nat, Request>, accepted: seq<nat>): Config {
    if accepted == [] then initial
    else
      var before, pid := Merged(initial, requests, accepted[..|accepted| - 1]), accepted[|accepted| - 1];
      if pid in requests then Merge(before, requests[pid].payload) else before
  }

  predicate Holding(r: Request) {
    r.Publishing? || r.Acked?
  }

  predicate AcceptedRequest(r: Request) {
    r.Acked? || (r.Done? && r.response.Accepted?)
  }

  ghost predicate LockInv(s: State) {
    && (forall pid {:trigger pid in s.requests} :: pid in s.requests && Holding(s.requests[pid]) ==> s.lock == Some(pid))
    && match s.lock
       case None => s.active == LastConfig(s.topic, s.initial)
       case Some(pid) =>
         && pid in s.requests && Holding(s.requests[pid])
         && s.requests[pid].merged == Merge(s.active, s.requests[pid].payload)
         && LastConfig(s.topic, s.initial) == if s.requests[pid].Acked? then s.requests[pid].merged else s.active
  }

  ghost predicate OrderInv(s: State) {
    && Ordered(s.initial) && Ordered(s.active) && Ordered(s.thresholds)
    && (forall i {:trigger s.topic[i]} :: 0 <= i < |s.topic| && s.topic[i].Wire? ==> s.topic[i].warn < s.topic[i].danger)
    && (forall pid {:trigger pid in s.requests} :: pid in s.requests && Holding(s.requests[pid]) ==> Ordered(s.requests[pid].merged))
  }

  ghost predicate HistoryInv(s: State) {
    && (forall pid {:trigger pid in s.requests} :: pid in s.requests && AcceptedRequest(s.requests[pid]) <==> pid in s.accepted)
    && (forall i, j {:trigger s.accepted[i], s.accepted[j]} :: 0 <= i < j < |s.accepted| ==> s.accepted[i] != s.accepted[j])
    && Merged(s.initial, s.requests, s.accepted) == LastConfig(s.topic, s.initial)
  }

  ghost predicate ReplayInv(s: State) {
    && s.classifierAt <= |s.topic| && s.filterAt <= |s.topic|
    && s.thresholds == LastConfig(s.topic[..s.classifierAt], Unconfigured())
    && s.region == LastConfig(s.topic[..s.filterAt], Unconfigured())
  }

  ghost predicate Inv(s: State) {
    LockInv(s) && OrderInv(s) && HistoryInv(s) && ReplayInv(s)
  }

  // ---------------------------------------------------------------- every step keeps the invariant

  lemma {:induction false} LastConfigAppend(topic: seq<Message>, m: Message, initial: Config)
    ensures LastConfig(topic + [m], initial) == Apply(LastConfig(topic, initial), m)
  {
    assert (topic + [m])[..|topic|] == topic;
  }

  lemma {:induction false} MergedUnchanged(initial: Config, requests: map<nat, Request>, accepted: seq<nat>,
                                        pid: nat, r: Request)
    requires pid in accepted ==> pid in requests && requests[pid].payload == r.payload
    ensures Merged(initial, requests[pid := r], accepted) == Merged(initial, requests, accepted)
  {
    if accepted != [] {
      MergedUnchanged(initial, requests, accepted[..|accepted| - 1], pid, r);
    }
  }

  lemma {:induction false} MergedAppend(initial: Config, requests: map<nat, Request>, accepted: seq<nat>, pid: nat)
    requires pid in requests
    ensures Merged(initial, requests, accepted + [pid]) == Merge(Merged(initial, requests, accepted), requests[pid].payload)
  {
    assert (accepted + [pid])[..|accepted|] == accepted;
  }

  lemma {:induction false} LockKept(s: State, step: Step)
    requires LockInv(s) && Enabled(s, step)
    ensures LockInv(Next(s, step))
  {
    match step
    case Arrive(_, _) =>
    case Enter(_) =>
    case PublishFails(_) =>
    case BrokerAppends(pid) => LastConfigAppend(s.topic, ToWire(s.requests[pid].merged), s.initial);
    case Resume(_) =>
    case ForeignMessage => LastConfigAppend(s.topic, Malformed, s.initial);
    case ClassifierReads =>
    case FilterReads =>
  }

  lemma {:induction false} TopicOrdered(topic: seq<Message>, initial: Config)
    requires Ordered(initial)
    requires forall i {:trigger topic[i]} :: 0 <= i < |topic| && topic[i].Wire? ==> topic[i].warn < topic[i].danger
    ensures Ordered(LastConfig(topic, initial))
  {
    if topic != [] {
      TopicOrdered(topic[..|topic| - 1], initial);
    }
  }

  lemma {:induction false} OrderKept(s: State, step: Step)
    requires LockInv(s) && OrderInv(s) && Enabled(s, step)
    ensures OrderInv(Next(s, step))
  {
    match step
    case Arrive(_, _) =>
    case Enter(_) =>
    case PublishFails(_) =>
    case BrokerAppends(pid) => assert pid in s.requests && Holding(s.requests[pid]);
    case Resume(pid) => assert pid in s.requests && Holding(s.requests[pid]);
    case ForeignMessage =>
    case ClassifierReads => assert s.topic[s.classifierAt].Wire? ==> s.topic[s.classifierAt].warn < s.topic[s.classifierAt].danger;
    case FilterReads =>
  }

  lemma RequestChange(s: State, pid: nat, r: Request)
    requires HistoryInv(s) && pid in s.requests && AcceptedRequest(r) == AcceptedRequest(s.requests[pid])
    requires s.requests[pid].payload == r.payload
    ensures HistoryInv(s.(requests := s.requests[pid := r]))
  {
    MergedUnchanged(s.initial, s.requests, s.accepted, pid, r);
    var t := s.(requests := s.requests[pid := r]);
    forall q ensures (q in t.requests && AcceptedRequest(t.requests[q])) <==> q in t.accepted {
      assert (q in s.requests && AcceptedRequest(s.requests[q])) <==> q in s.accepted;
    }
  }

  lemma ArrivalKeepsHistory(s: State, pid: nat, payload: Payload)
    requires HistoryInv(s) && pid !in s.requests
    ensures HistoryInv(s.(requests := s.requests[pid := Waiting(payload)]))
  {
    assert pid !in s.accepted;
    MergedUnchanged(s.initial, s.requests, s.accepted, pid, Waiting(payload));
    var t := s.(requests := s.requests[pid := Waiting(payload)]);
    forall q ensures (q in t.requests && AcceptedRequest(t.requests[q])) <==> q in t.accepted {
      assert (q in s.requests && AcceptedRequest(s.requests[q])) <==> q in s.accepted;
    }
  }

  lemma AppendKeepsHistory(s: State, pid: nat)
    requires HistoryInv(s) && LockInv(s) && pid in s.requests && s.requests[pid].Publishing?
    ensures HistoryInv(Next(s, BrokerAppends(pid)))
  {
    var r := s.requests[pid];
    var acked := Request.Acked(r.payload, r.merged);
    var t := Next(s, BrokerAppends(pid));
    assert pid !in s.accepted;
    MergedUnchanged(s.initial, s.requests, s.accepted, pid, acked);
    MergedAppend(s.initial, t.requests, s.accepted, pid);
    LastConfigAppend(s.topic, ToWire(r.merged), s.initial);
    forall q ensures (q in t.requests && AcceptedRequest(t.requests[q])) <==> q in t.accepted {
      assert (q in s.requests && AcceptedRequest(s.requests[q])) <==> q in s.accepted;
    }
  }

  lemma HistoryKept(s: State, step: Step)
    requires LockInv(s) && HistoryInv(s) && Enabled(s, step)
    ensures HistoryInv(Next(s, step))
  {
    match step
    case Arrive(pid, payload) => ArrivalKeepsHistory(s, pid, payload);
    case Enter(pid) => RequestChange(s, pid, Next(s, step).requests[pid]);
    case PublishFails(pid) => RequestChange(s, pid, Next(s, step).requests[pid]);
    case BrokerAppends(pid) => AppendKeepsHistory(s, pid);
    case Resume(pid) => RequestChange(s, pid, Next(s, step).requests[pid]);
    case ForeignMessage => LastConfigAppend(s.topic, Malformed, s.initial);
    case ClassifierReads =>
    case FilterReads =>
  }

  lemma ReplayKept(s: State, step: Step)
    requires ReplayInv(s) && Enabled(s, step)
    ensures ReplayInv(Next(s, step))
  {
    var t := Next(s, step);
    assert t.topic[..s.classifierAt] == s.topic[..s.classifierAt] && t.topic[..s.filterAt] == s.topic[..s.filterAt];
    if step.ClassifierReads? {
      assert s.topic[..s.classifierAt + 1] == s.topic[..s.classifierAt] + [s.topic[s.classifierAt]];
      LastConfigAppend(s.topic[..s.classifierAt], s.topic[s.classifierAt], Unconfigured());
    }
    if step.FilterReads? {
      assert s.topic[..s.filterAt + 1] == s.topic[..s.filterAt] + [s.topic[s.filterAt]];
      LastConfigAppend(s.topic[..s.filterAt], s.topic[s.filterAt], Unconfigured());
    }
  }

  lemma StepKeepsInvariant(s: State, step: Step)
    requires Inv(s) && Enabled(s, step)
    ensures Inv(Next(s, step))
  {
    LockKept(s, step);
    OrderKept(s, step);
    HistoryKept(s, step);
    ReplayKept(s, step);
  }

  lemma {:induction false} RunKeepsInvariant(initial: Config, steps: seq<Step>)
    requires Ordered(initial)
    ensures Inv(Run(initial, steps)) && Run(initial, steps).initial == initial
  {
    if steps != [] {
      var s := Run(initial, steps[..|steps| - 1]);
      RunKeepsInvariant(initial, steps[..|steps| - 1]);
      if Enabled(s, steps[|steps| - 1]) {
        StepKeepsInvariant(s, steps[|steps| - 1]);
      }
    }
  }

  // ---------------------------------------------------------------- what every interleaving guarantees

  /** warn < danger in the active config, in every well-formed message and in Flink's state. */
  lemma ThresholdsAlwaysOrdered(initial: Config, steps: seq<Step>)
    requires Ordered(initial)
    ensures var s := Run(initial, steps);
            && Ordered(s.active) && Ordered(s.thresholds)
            && forall i :: 0 <= i < |s.topic| && s.topic[i].Wire? ==> s.topic[i].warn < s.topic[i].danger
  {
    RunKeepsInvariant(initial, steps);
  }

  /** Outside the critical section the backend and the topic agree on the last config. */
  lemma AgreementOutsideTheLock(initial: Config, steps: seq<Step>)
    requires Ordered(initial) && Run(initial, steps).lock.None?
    ensures var s := Run(initial, steps); s.active == LastConfig(s.topic, initial)
  {
    RunKeepsInvariant(initial, steps);
  }

  /**
   No update is lost and none is applied twice: outside the lock the active config is the
   accepted payloads merged in topic order, and those are exactly the requests answered
   with success.
   */
  lemma NoUpdateIsLost(initial: Config, steps: seq<Step>)
    requires Ordered(initial) && Run(initial, steps).lock.None?
    ensures var s := Run(initial, steps);
            && s.active == Merged(initial, s.requests, s.accepted)
            && (forall i, j :: 0 <= i < j < |s.accepted| ==> s.accepted[i] != s.accepted[j])
            && (forall pid :: pid in s.accepted <==>
                 pid in s.requests && s.requests[pid].Done? && s.requests[pid].response.Accepted?)
  {
    var s := Run(initial, steps);
    RunKeepsInvariant(initial, steps);
    forall pid ensures pid in s.accepted <==> pid in s.requests && s.requests[pid].Done? && s.requests[pid].response.Accepted? {
      assert (pid in s.requests && AcceptedRequest(s.requests[pid])) <==> pid in s.accepted;
      assert pid in s.requests ==> !Holding(s.requests[pid]);
    }
  }

  /**
   Operators that have read the whole topic hold exactly the active config, once anything
   well-formed was published; until then they hold their own defaults.
   */
  lemma CaughtUpOperatorsAgree(initial: Config, steps: seq<Step>)
    requires Ordered(initial) && Run(initial, steps).lock.None?
    requires Run(initial, steps).classifierAt == Run(initial, steps).filterAt == |Run(initial, steps).topic|
    ensures var s := Run(initial, steps);
            if s.accepted != [] then s.thresholds == s.region == s.active
            else s.thresholds == s.region == Unconfigured() && s.active == initial
  {
    var s := Run(initial, steps);
    RunKeepsInvariant(initial, steps);
    RunCountsMessages(initial, steps);
    assert s.topic[..|s.topic|] == s.topic;
    LastConfigOrigin(s.topic, initial, Unconfigured());
  }

  predicate WellFormed(m: Message) {
    m.Wire?
  }

  lemma {:induction false} LastConfigOrigin(topic: seq<Message>, a: Config, b: Config)
    ensures Filter(WellFormed, topic) != [] ==> LastConfig(topic, a) == LastConfig(topic, b)
    ensures Filter(WellFormed, topic) == [] ==> LastConfig(topic, a) == a && LastConfig(topic, b) == b
  {
    if topic != [] {
      LastConfigOrigin(topic[..|topic| - 1], a, b);
    }
  }

  /** One well-formed message per accepted request. */
  lemma {:induction false} RunCountsMessages(initial: Config, steps: seq<Step>)
    ensures |Filter(WellFormed, Run(initial, steps).topic)| == |Run(initial, steps).accepted|
  {
    if steps != [] {
      var s := Run(initial, steps[..|steps| - 1]);
      RunCountsMessages(initial, steps[..|steps| - 1]);
      forall m ensures (s.topic + [m])[..|s.topic|] == s.topic {
      }
    }
  }

  /** A read returns the last published config, or the one before while its update commits. */
  lemma ReadsLagAtMostOneUpdate(initial: Config, steps: seq<Step>)
    requires Ordered(initial)
    ensures var s := Run(initial, steps);
            || s.active == LastConfig(s.topic, initial)
            || (s.lock.Some? && s.lock.value in s.requests && s.requests[s.lock.value].Acked?
                && LastConfig(s.topic, initial) == Merge(s.active, s.requests[s.lock.value].payload))
  {
    RunKeepsInvariant(initial, steps);
  }

  lemma {:induction false} RunConcat(initial: Config, steps: seq<Step>, more: seq<Step>)
    requires more != []
    ensures var s := Run(initial, steps + more[..|more| - 1]);
            Run(initial, steps + more) == if Enabled(s, more[|more| - 1]) then Next(s, more[|more| - 1]) else s
  {
    assert (steps + more)[..|steps + more| - 1] == steps + more[..|more| - 1];
  }

  /** An omitted field keeps its value, so no later update removes an area or a timespan once it is set. */
  lemma {:induction false} FiltersAreNeverCleared(initial: Config, steps: seq<Step>, more: seq<Step>)
    requires Ordered(initial)
    ensures Run(initial, steps).active.area.Some? ==> Run(initial, steps + more).active.area.Some?
    ensures Run(initial, steps).active.timespan.Some? ==> Run(initial, steps + more).active.timespan.Some?
  {
    if more == [] {
      assert steps + more == steps;
    } else {
      FiltersAreNeverCleared(initial, steps, more[..|more| - 1]);
      RunConcat(initial, steps, more);
      ActiveFiltersStay(Run(initial, steps + more[..|more| - 1]), more[|more| - 1]) by {
        RunKeepsInvariant(initial, steps + more[..|more| - 1]);
      }
    }
  }

  lemma ActiveFiltersStay(s: State, step: Step)
    requires Inv(s)
    ensures Enabled(s, step) ==>
              && (s.active.area.Some? ==> Next(s, step).active.area.Some?)
              && (s.active.timespan.Some? ==> Next(s, step).active.timespan.Some?)
  {
  }

  /** A failed publish and a refused update leave config, topic and history as they were. */
  lemma FailuresChangeNothing(s: State, pid: nat)
    requires Inv(s) && pid in s.requests
    ensures Enabled(s, PublishFails(pid)) ==>
              var t := Next(s, PublishFails(pid));
              t.active == s.active == LastConfig(s.topic, s.initial) && t.topic == s.topic && t.accepted == s.accepted && t.lock.None?
    ensures Enabled(s, Enter(pid)) && !Ordered(Merge(s.active, s.requests[pid].payload)) ==>
              Next(s, Enter(pid)) == s.(requests := s.requests[pid := Done(s.requests[pid].payload, Unprocessable)])
  {
  }

  /** The lock makes a request's steps one: enter, append and resume are `UpdateConfig`. */
  lemma RequestIsAtomic(s: State, pid: nat)
    requires Inv(s) && Enabled(s, Enter(pid)) && Ordered(Merge(s.active, s.requests[pid].payload))
    ensures var merged := Merge(s.active, s.requests[pid].payload);
            IsUpdated(s.active, s.requests[pid].payload, merged) && Carries(ToWire(merged), merged) &&
            var s1 := Next(s, Enter(pid));
            Enabled(s1, BrokerAppends(pid)) &&
            var s2 := Next(s1, BrokerAppends(pid));
            Enabled(s2, Resume(pid)) &&
            var s3 := Next(s2, Resume(pid));
            s3.active == merged && s3.topic == s.topic + [ToWire(merged)] && s3.lock.None?
            && s3.requests[pid] == Done(s.requests[pid].payload, Accepted(merged))
  {
  }
}
