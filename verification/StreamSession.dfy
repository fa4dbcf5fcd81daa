/**
 One browser's session as the program runs it, turn by turn with the consume loop, steps exactly
 as the catch-up protocol does. What the protocol guarantees is thereby true of the browser.
 */
module StreamSession {
  import opened Sequences
  import opened JsonValues
  import opened Lanes
  import opened LaneTheorems
  import opened Broadcaster
  import opened Stream
  import RB = RingBuffer
  import CatchUp
  import MissedKeys

  lemma PassingAll(ms: seq<Message>)
    ensures Passing(None, ms) == Tags(ms)
  {
    PassingTags(ms, Tags(ms));
  }

  /** The coroutine of one connection: where it is, and what it has yet to send. */
  class Session {
    const client: Client
    const sub: Subscriber
    const limit: int
    var phase: CatchUp.Phase
    var unsent: seq<Message>

    constructor (client: Client, sub: Subscriber, limit: int)
      ensures this.client == client && this.sub == sub && this.limit == limit
      ensures phase == CatchUp.Subscribed && unsent == []
    {
      this.client, this.sub, this.limit := client, sub, limit;
      phase, unsent := CatchUp.Subscribed, [];
    }
  }

  /** The subscription of the session stands for what was published since the last drain. */
  ghost predicate SubInState(sub: Subscriber, cfg: CatchUp.Settings, s: CatchUp.State)
    reads sub
  {
    && sub.viewFilter.None? && sub.maxPending == cfg.maxPending && sub.coalescedMax == cfg.coalescedMax
    && s.drainedAt <= |s.published| && sub.accepted == CatchUp.Since(s)
  }

  /** The buffer stands for the clean events published. */
  ghost predicate BufferInState(buffer: RB.RingBuffer<Event>, cfg: CatchUp.Settings, s: CatchUp.State)
    reads buffer
  {
    buffer.Valid() && buffer.maxsize == cfg.bufferSize && Published(buffer.appended) == Filter(CatchUp.Clean, s.published)
  }

  /** The session stands for the protocol's client and its unsent data. */
  ghost predicate SessionInState(x: Session, cfg: CatchUp.Settings, s: CatchUp.State)
    reads x, x.client
  {
    && x.limit == cfg.limit && x.phase == s.phase
    && Tags(x.unsent) == s.unsent && x.client.view == s.client
  }

  /** Session, buffer and hub are in the protocol state `s`. */
  ghost predicate InState(x: Session, buffer: RB.RingBuffer<Event>, hub: Hub, cfg: CatchUp.Settings, s: CatchUp.State)
    reads x, x.client, buffer, hub, hub.subscribers, x.sub
  {
    && hub.Valid() && x.sub in hub.subscribers
    && SubInState(x.sub, cfg, s) && BufferInState(buffer, cfg, s) && SessionInState(x, cfg, s)
  }

  /** A connection is accepted: the client subscribes before anything else. */
  method Connect(buffer: RB.RingBuffer<Event>, hub: Hub, client: Client, cfg: CatchUp.Settings, ghost before: seq<Item>)
    returns (x: Session)
    requires hub.Valid() && BufferInState(buffer, cfg, CatchUp.Connect(before)) && client.view == map[]
    requires hub.maxPending == cfg.maxPending && hub.coalescedMax == cfg.coalescedMax
    modifies hub
    ensures fresh(x) && x.client == client && hub.subscribers == old(hub.subscribers) + {x.sub}
    ensures InState(x, buffer, hub, cfg, CatchUp.Connect(before))
  {
    var sub := hub.Subscribe();
    x := new Session(client, sub, cfg.limit);
  }

  // ---------------------------------------------------------------- a record arrives

  /** The record ends the loop: undecodable, or without an identity to look up for a client without a filter. */
  predicate Raising(r: Record) {
    IsUndecodable(r) || (MessageOf(r) != [] && CoalesceKey(MessageOf(r)[0]).Raises?)
  }

  /** What an aggregate is looked up by: its geohash, or its bucket when that is absent or falsy. */
  function AggregateId(fields: map<string, Json>): Json {
    if Truthy(Get(fields, "geohash")) then Get(fields, "geohash") else Get(fields, "bucket")
  }

  /**
   Apart from undecodable bytes these are aggregates alone: a payload that is truthy and no
   object, such as a list, or an object identified by a list or an object. Clean events never
   raise, and neither does any JSON among the alerts.
   */
  lemma RaisingIff(r: Record)
    ensures Raising(r) <==>
            || IsUndecodable(r)
            || (&& r.topic.AggregatedTopic? && r.value.json.Parsed? && Truthy(r.value.json.value)
                && (r.value.json.value.Object? ==> !Hashable(AggregateId(r.value.json.value.fields))))
  {
    if r.topic.CleanTopic? && r.value.event.Some? {
      CleanIsKeyed(r.value.event.value);
    }
  }

  /** What a record that raises nothing does to the protocol. */
  function After(cfg: CatchUp.Settings, s: CatchUp.State, r: Record): CatchUp.State {
    if MessageOf(r) == [] then s else CatchUp.Next(cfg, s, CatchUp.Publish(Tag(MessageOf(r)[0])))
  }

  lemma SoundIff(filter: Option<Message -> bool>, r: Record)
    ensures Raising(r) && filter.None? ==> IsUndecodable(r) || !Sound(filter, MessageOf(r))
    ensures !Raising(r) ==> !IsUndecodable(r) && Sound(filter, MessageOf(r))
  {
    if MessageOf(r) != [] {
      assert MessageOf(r) == [MessageOf(r)[0]];
      OneMessage(filter, MessageOf(r)[0]);
    }
  }

  lemma AfterPublished(cfg: CatchUp.Settings, s: CatchUp.State, r: Record)
    requires s.drainedAt <= |s.published|
    ensures var t := After(cfg, s, r);
            && t.published == s.published + Passing(None, MessageOf(r)) && t.drainedAt == s.drainedAt
            && CatchUp.Since(t) == CatchUp.Since(s) + Passing(None, MessageOf(r))
            && t.phase == s.phase && t.unsent == s.unsent && t.client == s.client
  {
    PassingAll(MessageOf(r));
    if MessageOf(r) != [] {
      assert MessageOf(r) == [MessageOf(r)[0]];
    }
  }

  lemma EventsAfter(appended: seq<Event>, published: seq<Item>, r: Record)
    requires Published(appended) == Filter(CatchUp.Clean, published)
    ensures Published(appended + EventOf(r)) == Filter(CatchUp.Clean, published + Passing(None, MessageOf(r)))
  {
    PublishedConcat(appended, EventOf(r));
    FilterConcat(CatchUp.Clean, published, Passing(None, MessageOf(r)));
    OneRecord(r);
  }

  /** A turn of the consume loop is a publish step, unless its message raises; then it is none. */
  method Arrive(x: Session, r: Record, buffer: RB.RingBuffer<Event>, hub: Hub, ghost cfg: CatchUp.Settings, ghost s: CatchUp.State)
    returns (raised: bool)
    requires InState(x, buffer, hub, cfg, s)
    modifies buffer, hub.subscribers
    ensures raised <==> Raising(r)
    ensures InState(x, buffer, hub, cfg, if raised then s else After(cfg, s, r))
  {
    AfterPublished(cfg, s, r);
    EventsAfter(buffer.appended, s.published, r);
    raised := Handle(r, buffer, hub);
    forall filter
      ensures Raising(r) && filter == None ==> IsUndecodable(r) || !Sound(filter, MessageOf(r))
      ensures !Raising(r) ==> !IsUndecodable(r) && Sound(filter, MessageOf(r))
    {
      SoundIff(filter, r);
    }
    assert Passing(None, []) == [];
  }

  // ---------------------------------------------------------------- the session's own turns

  lemma SnapshotMessages(events: seq<Event>, published: seq<Item>, bufferSize: nat, limit: int)
    requires Published(events) == Filter(CatchUp.Clean, published)
    ensures Tags(CleanMessages(LastN(events, Min(bufferSize, Max(0, limit))))) == CatchUp.Snapshot(published, bufferSize, limit)
  {
    var n := Min(bufferSize, Max(0, limit));
    assert |Published(events)| == |events|;
    assert Published(LastN(events, n)) == LastN(Published(events), n);
    assert Tags(CleanMessages(LastN(events, n))) == Published(LastN(events, n));
  }

  method TakeSnapshot(x: Session, buffer: RB.RingBuffer<Event>, hub: Hub, ghost cfg: CatchUp.Settings, ghost s: CatchUp.State)
    requires InState(x, buffer, hub, cfg, s) && x.phase.Subscribed?
    modifies x
    ensures InState(x, buffer, hub, cfg, CatchUp.Next(cfg, s, CatchUp.TakeSnapshot))
  {
    SnapshotMessages(buffer.appended, s.published, cfg.bufferSize, cfg.limit);
    var recent := buffer.Recent(x.limit);
    x.phase, x.unsent := CatchUp.SendingSnapshot, CleanMessages(recent);
  }

  method Send(x: Session, buffer: RB.RingBuffer<Event>, hub: Hub, ghost cfg: CatchUp.Settings, ghost s: CatchUp.State)
    requires InState(x, buffer, hub, cfg, s) && x.unsent != []
    modifies x, x.client
    ensures InState(x, buffer, hub, cfg, CatchUp.Next(cfg, s, CatchUp.Send))
  {
    assert Tags(x.unsent[1..]) == Tags(x.unsent)[1..];
    x.client.Receive(x.unsent[0]);
    x.unsent := x.unsent[1..];
  }

  method StartLive(x: Session, buffer: RB.RingBuffer<Event>, hub: Hub, ghost cfg: CatchUp.Settings, ghost s: CatchUp.State)
    requires InState(x, buffer, hub, cfg, s) && x.phase.SendingSnapshot? && x.unsent == []
    modifies x
    ensures InState(x, buffer, hub, cfg, CatchUp.Next(cfg, s, CatchUp.StartLive))
  {
    x.phase := CatchUp.Live;
  }

  /** What a flush does to the protocol, as far as the program can see it. */
  lemma FlushState(cfg: CatchUp.Settings, s: CatchUp.State, batch: seq<Message>)
    requires s.phase.Live? && s.unsent == [] && s.drainedAt <= |s.published| && Tagged(CatchUp.Since(s))
    requires batch == BatchOf(CatchUp.Since(s), cfg.coalescedMax, cfg.maxPending)
    ensures var t := CatchUp.Next(cfg, s, CatchUp.Flush);
            && t.phase == s.phase && t.client == s.client && t.published == s.published
            && t.drainedAt == |t.published| && CatchUp.Since(t) == [] && t.unsent == Tags(batch)
  {
    BatchTagged(CatchUp.Since(s), cfg.coalescedMax, cfg.maxPending);
    PassingAll(batch);
  }

  method Flush(x: Session, buffer: RB.RingBuffer<Event>, hub: Hub, ghost cfg: CatchUp.Settings, ghost s: CatchUp.State)
    requires InState(x, buffer, hub, cfg, s) && x.phase.Live? && x.unsent == []
    modifies x, x.sub
    ensures InState(x, buffer, hub, cfg, CatchUp.Next(cfg, s, CatchUp.Flush))
  {
    var batch := x.sub.Drain();
    FlushState(cfg, s, batch);
    x.unsent := batch;
  }

  // ---------------------------------------------------------------- whole runs

  /** A schedule of the event loop: whose turn it is. */
  datatype Turn = Arrives(r: Record) | Own(step: CatchUp.Step)

  /** The consume loop is still running. */
  predicate Alive(turns: seq<Turn>) {
    forall i {:trigger turns[i]} :: 0 <= i < |turns| ==> turns[i].Arrives? ==> !Raising(turns[i].r)
  }

  /** The protocol's steps: a record publishes its message while the loop runs, and only the loop publishes. */
  ghost function Steps(turns: seq<Turn>): seq<CatchUp.Step> {
    if turns == [] then []
    else
      var init := turns[..|turns| - 1];
      match turns[|turns| - 1]
      case Own(step) => if step.Publish? then Steps(init) else Steps(init) + [step]
      case Arrives(r) =>
        if Alive(turns) && MessageOf(r) != [] then Steps(init) + [CatchUp.Publish(Tag(MessageOf(r)[0]))] else Steps(init)
  }

  lemma RunSnoc(cfg: CatchUp.Settings, before: seq<Item>, steps: seq<CatchUp.Step>, step: CatchUp.Step)
    ensures var s := CatchUp.Run(cfg, before, steps);
            CatchUp.Run(cfg, before, steps + [step]) == if CatchUp.Enabled(s, step) then CatchUp.Next(cfg, s, step) else s
  {
    assert (steps + [step])[..|steps|] == steps;
  }

  lemma AliveSnoc(turns: seq<Turn>, i: nat)
    requires i < |turns|
    ensures turns[..i + 1][..i] == turns[..i] && turns[..i + 1][i] == turns[i]
    ensures Alive(turns[..i + 1]) <==> Alive(turns[..i]) && !(turns[i].Arrives? && Raising(turns[i].r))
  {
    var now, next := turns[..i], turns[..i + 1];
    assert next[..i] == now;
    assert forall j {:trigger next[j]} {:trigger now[j]} :: 0 <= j < i ==> next[j] == now[j];
  }

  /** One step of the session, if it is its turn to take it. */
  method TakeStep(x: Session, step: CatchUp.Step, buffer: RB.RingBuffer<Event>, hub: Hub, ghost cfg: CatchUp.Settings, ghost s: CatchUp.State)
    requires InState(x, buffer, hub, cfg, s) && !step.Publish?
    modifies x, x.client, x.sub
    ensures InState(x, buffer, hub, cfg, if CatchUp.Enabled(s, step) then CatchUp.Next(cfg, s, step) else s)
  {
    match step
    case Publish(_) =>
    case TakeSnapshot => if x.phase.Subscribed? { TakeSnapshot(x, buffer, hub, cfg, s); }
    case Send => if x.unsent != [] { Send(x, buffer, hub, cfg, s); }
    case StartLive => if x.phase.SendingSnapshot? && x.unsent == [] { StartLive(x, buffer, hub, cfg, s); }
    case Flush => if x.phase.Live? && x.unsent == [] { Flush(x, buffer, hub, cfg, s); }
  }

  /** Under any schedule the program runs exactly as the protocol does. */
  method RunSession(x: Session, turns: seq<Turn>, buffer: RB.RingBuffer<Event>, hub: Hub, ghost cfg: CatchUp.Settings,
                    ghost before: seq<Item>)
    returns (alive: bool)
    requires InState(x, buffer, hub, cfg, CatchUp.Connect(before))
    modifies x, x.client, buffer, hub.subscribers
    ensures alive <==> Alive(turns)
    ensures InState(x, buffer, hub, cfg, CatchUp.Run(cfg, before, Steps(turns)))
  {
    alive := true;
    for i := 0 to |turns|
      invariant alive <==> Alive(turns[..i])
      invariant InState(x, buffer, hub, cfg, CatchUp.Run(cfg, before, Steps(turns[..i])))
    {
      ghost var steps := Steps(turns[..i]);
      ghost var s := CatchUp.Run(cfg, before, steps);
      AliveSnoc(turns, i);
      match turns[i]
      case Own(step) =>
        if !step.Publish? {
          RunSnoc(cfg, before, steps, step);
          TakeStep(x, step, buffer, hub, cfg, s);
        }
      case Arrives(r) =>
        if alive {
          var raised := Arrive(x, r, buffer, hub, cfg, s);
          alive := !raised;
          if alive && MessageOf(r) != [] {
            RunSnoc(cfg, before, steps, CatchUp.Publish(Tag(MessageOf(r)[0])));
          }
        }
    }
    assert turns[..|turns|] == turns;
  }

  /**
   So at the end of any schedule the browser itself shows, of every key that was not missed, the
   newest message of its snapshot or since it subscribed, once everything drained has been sent.
   */
  lemma BrowserHoldsNewest(x: Session, buffer: RB.RingBuffer<Event>, hub: Hub, cfg: CatchUp.Settings, before: seq<Item>,
                           turns: seq<Turn>, k: Key)
    requires InState(x, buffer, hub, cfg, CatchUp.Run(cfg, before, Steps(turns)))
    requires x.unsent == [] && x.sub.accepted == [] && !CatchUp.Missed(cfg, CatchUp.Run(cfg, before, Steps(turns)), k)
    ensures CatchUp.HoldsNewest(x.client.view, CatchUp.Visible(CatchUp.Run(cfg, before, Steps(turns))), k)
  {
    CatchUp.CatchUpConverges(cfg, before, Steps(turns), k);
  }

  /** And when no key is published with one message twice, exactly of those and of the keys whose newest message the snapshot carried. */
  lemma BrowserHoldsNewestIff(x: Session, buffer: RB.RingBuffer<Event>, hub: Hub, cfg: CatchUp.Settings, before: seq<Item>,
                              turns: seq<Turn>, k: Key)
    requires InState(x, buffer, hub, cfg, CatchUp.Run(cfg, before, Steps(turns)))
    requires x.unsent == [] && x.sub.accepted == [] && MessagesDiffer(CatchUp.Run(cfg, before, Steps(turns)).published, k)
    ensures var s := CatchUp.Run(cfg, before, Steps(turns));
            CatchUp.HoldsNewest(x.client.view, CatchUp.Visible(s), k)
            <==> !CatchUp.Missed(cfg, s, k) || NewestOf(s.window, k) == MissedKeys.NewestLive(s, k)
  {
    MissedKeys.ConvergesIff(cfg, before, Steps(turns), k);
  }
}
