/**
 The programs around the fan-out: the consume loop that appends and publishes, and the
 stream endpoint that sends a snapshot and then drained batches to one client.
 */
module Stream {
  import opened Sequences
  import opened JsonValues
  import opened Lanes
  import opened LaneTheorems
  import opened Broadcaster
  import RB = RingBuffer
  import CatchUp

  datatype Event = Event(sensorId: string, fields: map<string, Json>)

  /** The three topics of the consumer; messages of any other topic are ignored. */
  datatype Topic = CleanTopic | AlertsTopic | AggregatedTopic | OtherTopic

  /** What the JSON parser makes of a value: bytes in no encoding it knows, no JSON, or JSON. */
  datatype Payload = Undecodable | NotJson | Parsed(value: Json)

  /** What the parsers make of a message value: a payload, and a valid radiation event. */
  datatype Value = Value(json: Payload, event: Option<Event>)

  datatype Record = Record(topic: Topic, value: Value)

  function CleanMessage(e: Event): Message {
    Message("clean", Object(e.fields["sensor_id" := Text(e.sensorId)]))
  }

  /** A clean event always has its sensor for identity. */
  lemma CleanIsKeyed(e: Event)
    ensures CoalesceKey(CleanMessage(e)) == Keyed(Key("clean", Text(e.sensorId)))
  {
    assert "sensor_id" in e.fields["sensor_id" := Text(e.sensorId)];
  }

  /** The event a record adds to the ring buffer. */
  function EventOf(r: Record): seq<Event> {
    if r.topic.CleanTopic? && r.value.event.Some? then [r.value.event.value] else []
  }

  /** The message a record is fanned out as. */
  function MessageOf(r: Record): seq<Message> {
    match r.topic
    case CleanTopic => if r.value.event.Some? then [CleanMessage(r.value.event.value)] else []
    case AlertsTopic => if r.value.json.Parsed? then [Message("alert", r.value.json.value)] else []
    case AggregatedTopic => if r.value.json.Parsed? then [Message("aggregated", r.value.json.value)] else []
    case OtherTopic => []
  }

  function EventsOf(rs: seq<Record>): seq<Event> {
    if rs == [] then [] else EventsOf(rs[..|rs| - 1]) + EventOf(rs[|rs| - 1])
  }

  function MessagesOf(rs: seq<Record>): seq<Message> {
    if rs == [] then [] else MessagesOf(rs[..|rs| - 1]) + MessageOf(rs[|rs| - 1])
  }

  /** The messages a view filter lets through, tagged with their coalescing identity. */
  function Passing(filter: Option<Message -> bool>, ms: seq<Message>): seq<Item> {
    if ms == [] then []
    else
      var rest, m := Passing(filter, ms[..|ms| - 1]), ms[|ms| - 1];
      if filter.None? || filter.value(m) then rest + [Tag(m)] else rest
  }

  lemma {:induction false} PassingConcat(filter: Option<Message -> bool>, a: seq<Message>, b: seq<Message>)
    ensures Passing(filter, a + b) == Passing(filter, a) + Passing(filter, b)
  {
    if b == [] {
      assert a + b == a;
    } else {
      assert (a + b)[..|a + b| - 1] == a + b[..|b| - 1];
      PassingConcat(filter, a, b[..|b| - 1]);
    }
  }

  predicate Lets(filter: Option<Message -> bool>, m: Message) {
    filter.None? || filter.value(m)
  }

  /** Behind this filter the lookup of no message's identity raises. */
  ghost predicate Sound(filter: Option<Message -> bool>, ms: seq<Message>) {
    forall i {:trigger ms[i]} :: 0 <= i < |ms| ==> Lets(filter, ms[i]) ==> !CoalesceKey(ms[i]).Raises?
  }

  lemma SoundConcat(filter: Option<Message -> bool>, a: seq<Message>, b: seq<Message>)
    ensures Sound(filter, a + b) <==> Sound(filter, a) && Sound(filter, b)
  {
    assert forall i {:trigger a[i]} :: 0 <= i < |a| ==> (a + b)[i] == a[i];
    assert forall i {:trigger b[i]} :: 0 <= i < |b| ==> (a + b)[|a| + i] == b[i];
  }

  // ---------------------------------------------------------------- the consume loop

  /** Since the old state the subscriber has accepted what passes of `ms`, in order. */
  twostate predicate Accepted(s: Subscriber, ms: seq<Message>)
    reads s
  {
    s.viewFilter == old(s.viewFilter) && s.drained == old(s.drained)
    && s.accepted == old(s.accepted) + Passing(s.viewFilter, ms)
  }

  /** And the lookup of none of them raises. */
  twostate predicate Handled(s: Subscriber, ms: seq<Message>)
    reads s
  {
    Accepted(s, ms) && Sound(s.viewFilter, ms)
  }

  /** And the subscriber has been offered nothing else. */
  twostate predicate Extended(s: Subscriber, ms: seq<Message>)
    reads s
  {
    Handled(s, ms) && s.offered == old(s.offered) + |ms|
  }

  /** Some client's lookup raises on these messages. */
  ghost predicate Breaks(subscribers: set<Subscriber>, ms: seq<Message>)
    reads subscribers
  {
    exists s :: s in subscribers && !Sound(s.viewFilter, ms)
  }

  lemma CleanIsSound(e: Event)
    ensures forall filter :: Sound(filter, [CleanMessage(e)])
  {
    CleanIsKeyed(e);
    assert forall i {:trigger [CleanMessage(e)][i]} :: 0 <= i < 1 ==> [CleanMessage(e)][i] == CleanMessage(e);
  }

  /** A record of the topics that are forwarded as JSON whose bytes cannot be decoded. */
  predicate IsUndecodable(r: Record) {
    (r.topic.AlertsTopic? || r.topic.AggregatedTopic?) && r.value.json.Undecodable?
  }

  /** The errors that the loop does not catch. */
  ghost predicate EndsLoop(subscribers: set<Subscriber>, r: Record)
    reads subscribers
  {
    IsUndecodable(r) || Breaks(subscribers, MessageOf(r))
  }

  lemma OneMessage(filter: Option<Message -> bool>, m: Message)
    ensures Passing(filter, [m]) == if Lets(filter, m) then [Tag(m)] else []
    ensures Sound(filter, [m]) <==> !(Lets(filter, m) && CoalesceKey(m).Raises?)
  {
    assert [m][..0] == [] && [m][0] == m;
  }

  method PublishOne(m: Message, hub: Hub) returns (raised: bool)
    requires hub.Valid()
    modifies hub.subscribers
    ensures hub.Valid()
    ensures raised ==> Breaks(hub.subscribers, [m]) && forall s :: s in hub.subscribers ==> Accepted(s, [])
    ensures !raised ==> forall s :: s in hub.subscribers ==> Extended(s, [m])
  {
    raised := hub.Publish(m);
    forall s | s in hub.subscribers ensures if raised then Accepted(s, []) else Extended(s, [m]) {
      OneMessage(s.viewFilter, m);
      assert raised ==> unchanged(s) || (!old(s.Passes(m)) && Received(s, m));
    }
    if raised {
      ghost var s :| s in hub.subscribers && old(s.Passes(m));
      OneMessage(s.viewFilter, m);
    }
  }

  /** `_handle_clean`: append to the buffer, then publish; a malformed event changes nothing. */
  method HandleClean(value: Value, buffer: RB.RingBuffer<Event>, hub: Hub)
    requires buffer.Valid() && hub.Valid()
    modifies buffer, hub.subscribers
    ensures buffer.Valid() && hub.Valid()
    ensures buffer.appended == old(buffer.appended) + EventOf(Record(CleanTopic, value))
    ensures forall s :: s in hub.subscribers ==> Extended(s, MessageOf(Record(CleanTopic, value)))
  {
    if value.event.None? {
      return;
    }
    var m := CleanMessage(value.event.value);
    buffer.Append(value.event.value);
    CleanIsSound(value.event.value);
    var _ := PublishOne(m, hub);
  }

  /** `_handle_alert` and `_handle_aggregated`: forward the JSON payload as it is. */
  method HandleJson(kind: string, value: Value, hub: Hub) returns (raised: bool)
    requires hub.Valid()
    modifies hub.subscribers
    ensures hub.Valid()
    ensures var ms := if value.json.Parsed? then [Message(kind, value.json.value)] else [];
            && (raised ==> (value.json.Undecodable? || Breaks(hub.subscribers, ms))
                           && forall s :: s in hub.subscribers ==> Accepted(s, []))
            && (!raised ==> !value.json.Undecodable? && forall s :: s in hub.subscribers ==> Extended(s, ms))
  {
    // The handlers catch the error for what is no JSON, but not the one for undecodable bytes.
    raised := value.json.Undecodable?;
    if value.json.Parsed? {
      raised := PublishOne(Message(kind, value.json.value), hub);
    }
  }

  /** A record reaches the handler of its topic. */
  method Handle(r: Record, buffer: RB.RingBuffer<Event>, hub: Hub) returns (raised: bool)
    requires buffer.Valid() && hub.Valid()
    modifies buffer, hub.subscribers
    ensures buffer.Valid() && hub.Valid() && buffer.appended == old(buffer.appended) + EventOf(r)
    ensures raised ==> EventOf(r) == [] && EndsLoop(hub.subscribers, r)
    ensures raised ==> forall s :: s in hub.subscribers ==> Accepted(s, [])
    ensures !raised ==> !IsUndecodable(r) && forall s :: s in hub.subscribers ==> Extended(s, MessageOf(r))
  {
    raised := false;
    match r.topic
    case CleanTopic => HandleClean(r.value, buffer, hub);
    case AlertsTopic => raised := HandleJson("alert", r.value, hub);
    case AggregatedTopic => raised := HandleJson("aggregated", r.value, hub);
    case OtherTopic =>
  }

  /**
   `_consume_loop`: the buffer and every client see the same stream, malformed records left out,
   up to the first record that cannot be decoded or on which a client's lookup raises. That one
   ends the loop: nobody gets it, nor anything behind it.
   */
  method ConsumeLoop(rs: seq<Record>, buffer: RB.RingBuffer<Event>, hub: Hub) returns (done: nat)
    requires buffer.Valid() && hub.Valid()
    modifies buffer, hub.subscribers
    ensures buffer.Valid() && hub.Valid() && done <= |rs|
    ensures buffer.appended == old(buffer.appended) + EventsOf(rs[..done])
    ensures forall s :: s in hub.subscribers ==> Handled(s, MessagesOf(rs[..done]))
    ensures forall i :: 0 <= i < done ==> !IsUndecodable(rs[i])
    ensures done < |rs| ==> EndsLoop(hub.subscribers, rs[done])
    ensures done == |rs| ==> forall s :: s in hub.subscribers ==> Extended(s, MessagesOf(rs))
  {
    done := 0;
    while done < |rs|
      invariant done <= |rs| && buffer.Valid() && hub.Valid()
      invariant buffer.appended == old(buffer.appended) + EventsOf(rs[..done])
      invariant forall s :: s in hub.subscribers ==> Extended(s, MessagesOf(rs[..done]))
      invariant forall i :: 0 <= i < done ==> !IsUndecodable(rs[i])
    {
      ghost var seen := rs[..done];
      assert rs[..done + 1] == seen + [rs[done]] && (seen + [rs[done]])[..done] == seen;
      label before:
      var raised := Handle(rs[done], buffer, hub);
      if raised {
        forall s | s in hub.subscribers ensures Handled(s, MessagesOf(seen)) {
          assert Accepted@before(s, []);
          assert Passing(s.viewFilter, []) == [];
        }
        return;
      }
      forall s | s in hub.subscribers ensures Extended(s, MessagesOf(rs[..done + 1])) {
        assert Extended@before(s, MessageOf(rs[done]));
        OneMore(s.viewFilter, seen, rs[done], old(s.accepted));
      }
      done := done + 1;
    }
    assert rs[..|rs|] == rs;
  }

  lemma OneMore(filter: Option<Message -> bool>, rs: seq<Record>, r: Record, accepted: seq<Item>)
    ensures accepted + Passing(filter, MessagesOf(rs)) + Passing(filter, MessageOf(r))
            == accepted + Passing(filter, MessagesOf(rs + [r]))
    ensures Sound(filter, MessagesOf(rs + [r])) <==> Sound(filter, MessagesOf(rs)) && Sound(filter, MessageOf(r))
    ensures |MessagesOf(rs + [r])| == |MessagesOf(rs)| + |MessageOf(r)|
  {
    var all := MessagesOf(rs + [r]);
    assert all == MessagesOf(rs) + MessageOf(r) by {
      assert (rs + [r])[..|rs|] == rs;
    }
    assert Passing(filter, all) == Passing(filter, MessagesOf(rs)) + Passing(filter, MessageOf(r)) by {
      PassingConcat(filter, MessagesOf(rs), MessageOf(r));
    }
    Associate(accepted, Passing(filter, MessagesOf(rs)), Passing(filter, MessageOf(r)));
    SoundConcat(filter, MessagesOf(rs), MessageOf(r));
  }

  lemma Associate<T>(a: seq<T>, b: seq<T>, c: seq<T>)
    ensures a + b + c == a + (b + c)
  {
  }

  /** The messages of the events. */
  function Published(events: seq<Event>): seq<Item> {
    seq(|events|, i requires 0 <= i < |events| => Tag(CleanMessage(events[i])))
  }

  lemma PublishedConcat(a: seq<Event>, b: seq<Event>)
    ensures Published(a + b) == Published(a) + Published(b)
  {
  }

  /** The clean messages published are the events appended, one by one and in order. */
  lemma {:induction false} EventsArePublished(rs: seq<Record>)
    ensures Filter(CatchUp.Clean, Passing(None, MessagesOf(rs))) == Published(EventsOf(rs))
  {
    if rs != [] {
      var init, r := rs[..|rs| - 1], rs[|rs| - 1];
      EventsArePublished(init);
      assert Filter(CatchUp.Clean, Passing(None, MessagesOf(rs)))
          == Filter(CatchUp.Clean, Passing(None, MessagesOf(init))) + Filter(CatchUp.Clean, Passing(None, MessageOf(r))) by {
        PassingConcat(None, MessagesOf(init), MessageOf(r));
        FilterConcat(CatchUp.Clean, Passing(None, MessagesOf(init)), Passing(None, MessageOf(r)));
      }
      OneRecord(r);
      PublishedConcat(EventsOf(init), EventOf(r));
    }
  }

  lemma OnlyCleanIsClean(m: Message)
    requires m.kind != "clean"
    ensures !CatchUp.Clean(Tag(m))
  {
  }

  lemma OneRecord(r: Record)
    ensures Filter(CatchUp.Clean, Passing(None, MessageOf(r))) == Published(EventOf(r))
  {
    if MessageOf(r) != [] {
      var m := MessageOf(r)[0];
      OneMessage(None, m);
      assert MessageOf(r) == [m];
      OneItem(Tag(m));
      if r.topic.CleanTopic? {
        CleanIsKeyed(r.value.event.value);
        assert Published([r.value.event.value]) == [Tag(m)];
      } else {
        OnlyCleanIsClean(m);
      }
    }
  }

  lemma OneItem(item: Item)
    ensures Filter(CatchUp.Clean, [item]) == if CatchUp.Clean(item) then [item] else []
  {
    assert [item][..0] == [];
  }

  // ---------------------------------------------------------------- the stream endpoint

  /** A browser, seen as the map it paints: the last message received for each key. */
  class Client {
    var view: map<Key, Message>

    constructor ()
      ensures view == map[]
    {
      view := map[];
    }

    method Receive(m: Message)
      modifies this
      ensures view == CatchUp.Receive(old(view), Tag(m))
    {
      var key := CoalesceKey(m);
      if key.Keyed? {
        view := view[key.key := m];
      }
    }
  }

  method SendAll(client: Client, ms: seq<Message>)
    modifies client
    ensures client.view == ApplyAll(old(client.view), Passing(None, ms))
  {
    for i := 0 to |ms|
      invariant client.view == ApplyAll(old(client.view), Passing(None, ms[..i]))
    {
      assert ms[..i + 1][..i] == ms[..i];
      assert Passing(None, ms[..i + 1])[..|Passing(None, ms[..i])|] == Passing(None, ms[..i]);
      client.Receive(ms[i]);
    }
    assert ms[..|ms|] == ms;
  }

  function CleanMessages(events: seq<Event>): seq<Message> {
    seq(|events|, i requires 0 <= i < |events| => CleanMessage(events[i]))
  }

  /** Subscribe first, then snapshot and send the recent events, all before the drain starts. */
  method OpenStream(client: Client, buffer: RB.RingBuffer<Event>, hub: Hub, limit: int) returns (s: Subscriber)
    requires buffer.Valid() && hub.Valid()
    modifies client, hub
    ensures hub.Valid() && fresh(s) && hub.subscribers == old(hub.subscribers) + {s} && s.accepted == []
    ensures client.view == ApplyAll(old(client.view),
                                    Passing(None, CleanMessages(LastN(buffer.appended, Min(buffer.maxsize, Max(0, limit))))))
  {
    s := hub.Subscribe();
    var recent := buffer.Recent(limit);
    SendAll(client, CleanMessages(recent));
  }

  /** One turn of `_drain_to_client`: to the client's map a batch is the pending lane. */
  method FlushToClient(client: Client, s: Subscriber)
    requires s.Valid()
    modifies client, s
    ensures s.Valid() && s.accepted == [] && !s.ready
    ensures client.view == Apply(old(client.view), LaneOf(old(s.accepted), s.coalescedMax))
  {
    ghost var h := s.accepted;
    var batch := s.Drain();
    SendAll(client, batch);
    BatchTagged(h, s.coalescedMax, s.maxPending);
    CatchUp.BatchApplies(old(client.view), h, s.coalescedMax, s.maxPending);
  }

  lemma {:induction false} PassingTags(ms: seq<Message>, items: seq<Item>)
    requires |ms| == |items| && forall i :: 0 <= i < |ms| ==> items[i] == Tag(ms[i])
    ensures Passing(None, ms) == items
  {
    if ms != [] {
      PassingTags(ms[..|ms| - 1], items[..|ms| - 1]);
    }
  }

  lemma BatchTagged(h: seq<Item>, coalescedMax: int, maxPending: nat)
    requires Tagged(h)
    ensures Passing(None, BatchOf(h, coalescedMax, maxPending)) == CatchUp.BatchItems(h, coalescedMax, maxPending)
  {
    var fifo, lane := FifoOf(h, maxPending), LaneOf(h, coalescedMax);
    var items := CatchUp.BatchItems(h, coalescedMax, maxPending);
    FilterMembers(Keyless, h);
    LaneOrdered(h, coalescedMax);
    forall i | 0 <= i < |items| ensures items[i] == Tag(items[i].message) {
      if i < |fifo| {
        assert fifo[i] in Filter(Keyless, h);
        assert items[i] in h;
      } else {
        var slot := lane[i - |fifo|];
        assert h[LastUpdate(h, slot.key)].message == slot.message;
      }
    }
    PassingTags(BatchOf(h, coalescedMax, maxPending), items);
  }
}
