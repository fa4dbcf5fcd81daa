/** What the consume loop forwards, topic by topic, told by the records alone. */
module Forwarding {
  import opened Sequences
  import opened JsonValues
  import opened Lanes
  import opened Stream

  function OfKind(kind: string, ms: seq<Message>): seq<Message> {
    Filter((m: Message) => m.kind == kind, ms)
  }

  predicate IsAlert(r: Record) {
    r.topic.AlertsTopic? && r.value.json.Parsed?
  }

  predicate IsAggregate(r: Record) {
    r.topic.AggregatedTopic? && r.value.json.Parsed?
  }

  predicate IsClean(r: Record) {
    r.topic.CleanTopic? && r.value.event.Some?
  }

  /** The JSON of the records, as it was read. */
  function Payloads(rs: seq<Record>): seq<Json> {
    seq(|rs|, i requires 0 <= i < |rs| => if rs[i].value.json.Parsed? then rs[i].value.json.value else Null)
  }

  function Data(ms: seq<Message>): seq<Json> {
    seq(|ms|, i requires 0 <= i < |ms| => ms[i].data)
  }

  lemma FilterOne(p: Message -> bool, m: Message)
    ensures Filter(p, [m]) == if p(m) then [m] else []
  {
    assert [m][..0] == [];
  }

  /** What one record becomes, as far as messages of a kind go. */
  lemma OneRecord(kind: string, r: Record)
    ensures OfKind(kind, MessageOf(r)) == if MessageOf(r) != [] && MessageOf(r)[0].kind == kind then MessageOf(r) else []
  {
    if MessageOf(r) != [] {
      assert MessageOf(r) == [MessageOf(r)[0]];
      FilterOne((m: Message) => m.kind == kind, MessageOf(r)[0]);
    }
  }

  lemma OfKindStep(kind: string, rs: seq<Record>)
    requires rs != []
    ensures OfKind(kind, MessagesOf(rs)) == OfKind(kind, MessagesOf(rs[..|rs| - 1])) + OfKind(kind, MessageOf(rs[|rs| - 1]))
  {
    FilterConcat((m: Message) => m.kind == kind, MessagesOf(rs[..|rs| - 1]), MessageOf(rs[|rs| - 1]));
  }

  lemma DataStep(ms: seq<Message>, rs: seq<Record>, more: seq<Message>, rest: seq<Record>)
    requires Data(ms) == Payloads(rs) && Data(more) == Payloads(rest)
    ensures Data(ms + more) == Payloads(rs + rest)
  {
    assert Data(ms + more) == Data(ms) + Data(more);
    assert Payloads(rs + rest) == Payloads(rs) + Payloads(rest);
  }

  /** The alerts sent are the JSON of the alerts topic, unchanged and in order. */
  lemma {:induction false} AlertsAreForwarded(rs: seq<Record>)
    ensures Data(OfKind("alert", MessagesOf(rs))) == Payloads(Filter(IsAlert, rs))
  {
    if rs != [] {
      var init, r := rs[..|rs| - 1], rs[|rs| - 1];
      AlertsAreForwarded(init);
      OfKindStep("alert", rs);
      OneRecord("alert", r);
      DataStep(OfKind("alert", MessagesOf(init)), Filter(IsAlert, init), OfKind("alert", MessageOf(r)), if IsAlert(r) then [r] else []);
    }
  }

  /** And the aggregates that of the aggregated topic. */
  lemma {:induction false} AggregatesAreForwarded(rs: seq<Record>)
    ensures Data(OfKind("aggregated", MessagesOf(rs))) == Payloads(Filter(IsAggregate, rs))
  {
    if rs != [] {
      var init, r := rs[..|rs| - 1], rs[|rs| - 1];
      AggregatesAreForwarded(init);
      OfKindStep("aggregated", rs);
      OneRecord("aggregated", r);
      DataStep(OfKind("aggregated", MessagesOf(init)), Filter(IsAggregate, init), OfKind("aggregated", MessageOf(r)), if IsAggregate(r) then [r] else []);
    }
  }

  /** An event as the browser gets it: all its fields, with the sensor under `sensor_id`. */
  predicate Shows(data: Json, e: Event) {
    && data.Object? && data.fields.Keys == e.fields.Keys + {"sensor_id"}
    && data.fields["sensor_id"] == Text(e.sensorId)
    && forall name :: name in e.fields && name != "sensor_id" ==> data.fields[name] == e.fields[name]
  }

  ghost predicate AllShow(data: seq<Json>, rs: seq<Record>) {
    && |data| == |rs|
    && forall i :: 0 <= i < |rs| ==> rs[i].value.event.Some? && Shows(data[i], rs[i].value.event.value)
  }

  lemma EventIsShown(e: Event)
    ensures CleanMessage(e).kind == "clean" && Shows(CleanMessage(e).data, e)
  {
  }

  lemma AllShowStep(data: seq<Json>, rs: seq<Record>, x: Json, r: Record)
    requires AllShow(data, rs) && r.value.event.Some? && Shows(x, r.value.event.value)
    ensures AllShow(data + [x], rs + [r])
  {
  }

  /** The clean messages sent show the valid events of the clean topic, in order. */
  lemma {:induction false} EventsAreForwarded(rs: seq<Record>)
    ensures AllShow(Data(OfKind("clean", MessagesOf(rs))), Filter(IsClean, rs))
  {
    if rs != [] {
      var init, r := rs[..|rs| - 1], rs[|rs| - 1];
      var sent := OfKind("clean", MessagesOf(init));
      EventsAreForwarded(init);
      OfKindStep("clean", rs);
      OneRecord("clean", r);
      if IsClean(r) {
        var m := CleanMessage(r.value.event.value);
        assert MessageOf(r) == [m];
        assert Data(sent + [m]) == Data(sent) + [m.data];
        assert AllShow(Data(sent) + [m.data], Filter(IsClean, init) + [r]) by {
          EventIsShown(r.value.event.value);
          AllShowStep(Data(sent), Filter(IsClean, init), m.data, r);
        }
      } else {
        assert sent + [] == sent;
      }
    }
  }

  /** Those three kinds are all. */
  lemma {:induction false} NothingElseIsSent(rs: seq<Record>)
    ensures forall m :: m in MessagesOf(rs) ==> m.kind in {"clean", "alert", "aggregated"}
    ensures |MessagesOf(rs)| == |Filter(IsClean, rs)| + |Filter(IsAlert, rs)| + |Filter(IsAggregate, rs)|
  {
    if rs != [] {
      NothingElseIsSent(rs[..|rs| - 1]);
    }
  }
}
