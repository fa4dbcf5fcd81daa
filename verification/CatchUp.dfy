/**
 A WebSocket session as a protocol: subscribe, take a snapshot of the recent clean events,
 send it, then drain live batches, while events keep being appended and published.

 A client is seen as a map from key to the last message received. An event's append and
 publish are one uninterrupted step, and the session has no view filter.
 */
module CatchUp {
  import opened Sequences
  import opened Lanes
  import opened LaneTheorems

  datatype Phase = Subscribed | SendingSnapshot | Live

  datatype State = State(
    phase: Phase,
    published: seq<Item>,       // every message published so far, to all clients
    subscribedAt: nat,          // how many of them precede the subscription
    drainedAt: nat,             // how many of them precede the last drain
    window: seq<Item>,          // the snapshot as it was taken
    unsent: seq<Item>,          // the part of the snapshot or of the drained batch not yet sent
    client: map<Key, Message>,
    lost: set<Key>)             // keys whose newest message was evicted before the last drain

  datatype Step =
    | Publish(item: Item)
    | TakeSnapshot
    | Send
    | StartLive
    | Flush

  /** What may be pending in the subscriber's lanes. */
  function Since(s: State): seq<Item> {
    From(s.published, s.drainedAt)
  }

  function From(published: seq<Item>, at: nat): seq<Item> {
    if at <= |published| then published[at..] else []
  }

  predicate Clean(item: Item) {
    item.key.Some? && item.key.value.kind == "clean"
  }

  /** `_buffer.recent(limit)` as messages: the newest clean events still buffered. */
  function Snapshot(published: seq<Item>, bufferSize: nat, limit: int): seq<Item> {
    LastN(Filter(Clean, published), Min(bufferSize, Max(0, limit)))
  }

  function SlotItems(slots: seq<Slot>): seq<Item> {
    seq(|slots|, i requires 0 <= i < |slots| => Item(Some(slots[i].key), slots[i].message))
  }

  function BatchItems(h: seq<Item>, coalescedMax: int, maxPending: nat): seq<Item> {
    FifoOf(h, maxPending) + SlotItems(LaneOf(h, coalescedMax))
  }

  /** Alerts lead every batch: nothing keyed comes before anything keyless. */
  lemma KeylessLead(h: seq<Item>, coalescedMax: int, maxPending: nat, i: nat, j: nat)
    requires i < |BatchItems(h, coalescedMax, maxPending)| && j < |BatchItems(h, coalescedMax, maxPending)|
    requires BatchItems(h, coalescedMax, maxPending)[i].key.None? && BatchItems(h, coalescedMax, maxPending)[j].key.Some?
    ensures i < j
  {
    if j < |FifoOf(h, maxPending)| {
      FifoIsKeyless(h, maxPending, j);
    }
  }

  lemma FifoIsKeyless(h: seq<Item>, maxPending: nat, i: nat)
    requires i < |FifoOf(h, maxPending)|
    ensures FifoOf(h, maxPending)[i].key.None?
  {
    FilterMembers(Keyless, h);
    assert FifoOf(h, maxPending)[i] in Filter(Keyless, h);
  }

  datatype Settings = Settings(bufferSize: nat, limit: int, coalescedMax: int, maxPending: nat)

  function Connect(published: seq<Item>): State {
    State(Subscribed, published, |published|, |published|, [], [], map[], {})
  }

  /** The newest message of `k` among `h` was pushed out of the lane. */
  predicate Evicted(h: seq<Item>, coalescedMax: int, k: Key) {
    LastUpdate(h, k) >= 0 && |LaterKeys(h, k)| >= LaneBound(coalescedMax)
  }

  predicate Enabled(s: State, step: Step) {
    match step
    case Publish(_) => true
    case TakeSnapshot => s.phase.Subscribed?
    case Send => s.unsent != []
    case StartLive => s.phase.SendingSnapshot? && s.unsent == []
    case Flush => s.phase.Live? && s.unsent == []
  }

  function Receive(client: map<Key, Message>, item: Item): map<Key, Message> {
    if item.key.None? then client else client[item.key.value := item.message]
  }

  function Next(cfg: Settings, s: State, step: Step): State
    requires Enabled(s, step)
  {
    match step
    case Publish(item) => s.(published := s.published + [item])
    case TakeSnapshot =>
      var window := Snapshot(s.published, cfg.bufferSize, cfg.limit);
      s.(phase := SendingSnapshot, window := window, unsent := window)
    case Send => s.(client := Receive(s.client, s.unsent[0]), unsent := s.unsent[1..])
    case StartLive => s.(phase := Live)
    case Flush =>
      var h := Since(s);
      s.(drainedAt := |s.published|,
         unsent := BatchItems(h, cfg.coalescedMax, cfg.maxPending),
         lost := (s.lost - KeysOf(h)) + set k | k in KeysOf(h) && Evicted(h, cfg.coalescedMax, k))
  }

  /** A run from a new connection; a step that is not enabled does nothing. */
  function Run(cfg: Settings, before: seq<Item>, steps: seq<Step>): State {
    if steps == [] then Connect(before)
    else
      var s := Run(cfg, before, steps[..|steps| - 1]);
      if Enabled(s, steps[|steps| - 1]) then Next(cfg, s, steps[|steps| - 1]) else s
  }

  /** The client overlaid with the unsent snapshot or batch, and then with the pending lane. */
  function Overlay(cfg: Settings, s: State): map<Key, Message> {
    Apply(ApplyAll(s.client, s.unsent), LaneOf(Since(s), cfg.coalescedMax))
  }

  /** The snapshot window, and everything published since the subscription. */
  function Visible(s: State): seq<Item> {
    s.window + From(s.published, s.subscribedAt)
  }

  /** Key `k` holds in `view` its newest message in `h`, or nothing when it has none there. */
  ghost predicate HoldsNewest(view: map<Key, Message>, h: seq<Item>, k: Key) {
    if LastUpdate(h, k) >= 0 then k in view && view[k] == h[LastUpdate(h, k)].message else k !in view
  }

  /** The newest message of `k` is not pending any more and no batch brought it to the client. */
  predicate Missed(cfg: Settings, s: State, k: Key) {
    if LastUpdate(Since(s), k) >= 0 then Evicted(Since(s), cfg.coalescedMax, k) else k in s.lost
  }

  ghost predicate Inv(cfg: Settings, s: State) {
    && s.subscribedAt <= s.drainedAt <= |s.published|
    && (!s.phase.Live? ==> s.drainedAt == s.subscribedAt && s.lost == {})
    && (s.phase.Subscribed? ==> s.client == map[] && s.unsent == [] == s.window)
    && forall k {:trigger k in s.lost} :: LastUpdate(Since(s), k) < 0 && k !in s.lost ==>
         HoldsNewest(ApplyAll(s.client, s.unsent), Visible(s), k)
  }

  // ---------------------------------------------------------------- histories put together

  lemma {:induction false} LastUpdateConcat(a: seq<Item>, b: seq<Item>, k: Key)
    ensures LastUpdate(a + b, k) == if LastUpdate(b, k) >= 0 then |a| + LastUpdate(b, k) else LastUpdate(a, k)
  {
    if b == [] {
      assert a + b == a;
    } else {
      assert (a + b)[..|a + b| - 1] == a + b[..|b| - 1];
      LastUpdateConcat(a, b[..|b| - 1], k);
    }
  }

  lemma {:induction false} ApplyAllConcat(view: map<Key, Message>, a: seq<Item>, b: seq<Item>)
    ensures ApplyAll(view, a + b) == ApplyAll(ApplyAll(view, a), b)
  {
    if b == [] {
      assert a + b == a;
    } else {
      assert (a + b)[..|a + b| - 1] == a + b[..|b| - 1];
      ApplyAllConcat(view, a, b[..|b| - 1]);
    }
  }

  lemma {:induction false} KeylessApplyNothing(view: map<Key, Message>, items: seq<Item>)
    requires forall i :: 0 <= i < |items| ==> items[i].key.None?
    ensures ApplyAll(view, items) == view
  {
    if items != [] {
      KeylessApplyNothing(view, items[..|items| - 1]);
    }
  }

  lemma {:induction false} SlotsApply(view: map<Key, Message>, slots: seq<Slot>)
    ensures ApplyAll(view, SlotItems(slots)) == Apply(view, slots)
  {
    if slots != [] {
      SlotsApply(view, slots[..|slots| - 1]);
      assert SlotItems(slots)[..|slots| - 1] == SlotItems(slots[..|slots| - 1]);
    }
  }

  /** To the client's map a batch is its coalesced lane. */
  lemma BatchApplies(view: map<Key, Message>, h: seq<Item>, coalescedMax: int, maxPending: nat)
    ensures ApplyAll(view, BatchItems(h, coalescedMax, maxPending)) == Apply(view, LaneOf(h, coalescedMax))
  {
    var fifo := FifoOf(h, maxPending);
    FilterMembers(Keyless, h);
    assert forall i :: 0 <= i < |fifo| ==> fifo[i] in Filter(Keyless, h);
    KeylessApplyNothing(view, fifo);
    ApplyAllConcat(view, fifo, SlotItems(LaneOf(h, coalescedMax)));
    SlotsApply(view, LaneOf(h, coalescedMax));
  }

  // ---------------------------------------------------------------- every step keeps the invariant

  lemma PublishKeeps(cfg: Settings, s: State, item: Item)
    requires Inv(cfg, s)
    ensures Inv(cfg, Next(cfg, s, Publish(item)))
  {
    var t := Next(cfg, s, Publish(item));
    assert Since(t) == Since(s) + [item];
    assert Visible(t) == Visible(s) + [item];
    forall k | LastUpdate(Since(t), k) < 0 && k !in t.lost
      ensures HoldsNewest(ApplyAll(t.client, t.unsent), Visible(t), k)
    {
      LastUpdateConcat(Since(s), [item], k);
      LastUpdateConcat(Visible(s), [item], k);
      assert k !in s.lost;
    }
  }

  lemma SnapshotKeeps(cfg: Settings, s: State)
    requires Inv(cfg, s) && s.phase.Subscribed?
    ensures Inv(cfg, Next(cfg, s, TakeSnapshot))
  {
    var t := Next(cfg, s, TakeSnapshot);
    forall k | LastUpdate(Since(t), k) < 0 && k !in t.lost
      ensures HoldsNewest(ApplyAll(t.client, t.unsent), Visible(t), k)
    {
      LastUpdateConcat(t.window, Since(t), k);
      ApplyAllLookup(map[], t.window, k);
    }
  }

  lemma SendKeeps(cfg: Settings, s: State)
    requires Inv(cfg, s) && s.unsent != []
    ensures Inv(cfg, Next(cfg, s, Send))
  {
    var t := Next(cfg, s, Send);
    assert ApplyAll(t.client, t.unsent) == ApplyAll(s.client, s.unsent) by {
      assert s.unsent == [s.unsent[0]] + t.unsent;
      ApplyAllConcat(s.client, [s.unsent[0]], t.unsent);
      assert [s.unsent[0]][..0] == [];
      assert ApplyAll(s.client, [s.unsent[0]]) == t.client;
    }
    assert Since(t) == Since(s) && Visible(t) == Visible(s);
  }

  lemma DrainKeeps(cfg: Settings, s: State)
    requires Inv(cfg, s) && s.phase.Live? && s.unsent == []
    ensures Inv(cfg, Next(cfg, s, Flush))
  {
    var t, h := Next(cfg, s, Flush), Since(s);
    forall k | LastUpdate(Since(t), k) < 0 && k !in t.lost
      ensures HoldsNewest(ApplyAll(t.client, t.unsent), Visible(t), k)
    {
      DrainKeepsKey(cfg, s, k);
    }
  }

  lemma VisibleSplit(s: State)
    requires s.subscribedAt <= s.drainedAt <= |s.published|
    ensures Visible(s) == (s.window + s.published[s.subscribedAt..s.drainedAt]) + Since(s)
  {
  }

  /** A key whose newest message is in the lane gets it from the lane; another keeps what the view has. */
  lemma LaneApplied(view: map<Key, Message>, earlier: seq<Item>, h: seq<Item>, coalescedMax: int, k: Key)
    requires !Evicted(h, coalescedMax, k)
    requires LastUpdate(h, k) < 0 ==> HoldsNewest(view, earlier + h, k)
    ensures HoldsNewest(Apply(view, LaneOf(h, coalescedMax)), earlier + h, k)
  {
    DrainOneKey(view, h, coalescedMax, k);
    LastUpdateConcat(earlier, h, k);
  }

  lemma DrainKeepsKey(cfg: Settings, s: State, k: Key)
    requires Inv(cfg, s) && s.phase.Live? && s.unsent == []
    requires k !in Next(cfg, s, Flush).lost
    ensures HoldsNewest(ApplyAll(s.client, Next(cfg, s, Flush).unsent), Visible(s), k)
  {
    var h := Since(s);
    VisibleSplit(s);
    KeysOfMembers(h, k);
    assert LastUpdate(h, k) < 0 ==> HoldsNewest(ApplyAll(s.client, []), Visible(s), k);
    LaneApplied(s.client, s.window + s.published[s.subscribedAt..s.drainedAt], h, cfg.coalescedMax, k);
    BatchApplies(s.client, h, cfg.coalescedMax, cfg.maxPending);
  }

  lemma StepKeepsInvariant(cfg: Settings, s: State, step: Step)
    requires Inv(cfg, s) && Enabled(s, step)
    ensures Inv(cfg, Next(cfg, s, step))
  {
    match step
    case Publish(item) => PublishKeeps(cfg, s, item);
    case TakeSnapshot => SnapshotKeeps(cfg, s);
    case Send => SendKeeps(cfg, s);
    case StartLive =>
      var t := Next(cfg, s, StartLive);
      assert Since(t) == Since(s) && Visible(t) == Visible(s);
    case Flush => DrainKeeps(cfg, s);
  }

  lemma {:induction false} RunKeepsInvariant(cfg: Settings, before: seq<Item>, steps: seq<Step>)
    ensures Inv(cfg, Run(cfg, before, steps))
  {
    if steps == [] {
      assert Visible(Connect(before)) == [];
    } else {
      var s := Run(cfg, before, steps[..|steps| - 1]);
      RunKeepsInvariant(cfg, before, steps[..|steps| - 1]);
      if Enabled(s, steps[|steps| - 1]) {
        StepKeepsInvariant(cfg, s, steps[|steps| - 1]);
      }
    }
  }

  /**
   At every moment of every run, whatever was sent so far: client, unsent data and pending
   lane together hold, for each key not missed, the newest message of the snapshot window
   or since the subscription.
   */
  lemma CatchUpConverges(cfg: Settings, before: seq<Item>, steps: seq<Step>, k: Key)
    requires !Missed(cfg, Run(cfg, before, steps), k)
    ensures HoldsNewest(Overlay(cfg, Run(cfg, before, steps)), Visible(Run(cfg, before, steps)), k)
  {
    RunKeepsInvariant(cfg, before, steps);
    OverlayHoldsNewest(cfg, Run(cfg, before, steps), k);
  }

  lemma OverlayHoldsNewest(cfg: Settings, s: State, k: Key)
    requires Inv(cfg, s) && !Missed(cfg, s, k)
    ensures HoldsNewest(Overlay(cfg, s), Visible(s), k)
  {
    VisibleSplit(s);
    LaneApplied(ApplyAll(s.client, s.unsent), s.window + s.published[s.subscribedAt..s.drainedAt], Since(s), cfg.coalescedMax, k);
  }

  /** With no more keys since the subscription than the lane holds, nothing is ever missed. */
  lemma {:induction false} FewKeysMissNothing(cfg: Settings, before: seq<Item>, steps: seq<Step>, k: Key)
    requires var s := Run(cfg, before, steps);
             |KeysOf(From(s.published, s.subscribedAt))| <= LaneBound(cfg.coalescedMax)
    ensures !Missed(cfg, Run(cfg, before, steps), k) && Run(cfg, before, steps).lost == {}
  {
    var s := Run(cfg, before, steps);
    assert !Evicted(Since(s), cfg.coalescedMax, k) by {
      RunKeepsInvariant(cfg, before, steps);
      FewKeysEvictNothing(s.published, s.subscribedAt, s.drainedAt, cfg.coalescedMax, k);
    }
    if steps != [] {
      var t, step := Run(cfg, before, steps[..|steps| - 1]), steps[|steps| - 1];
      assert t.subscribedAt <= t.drainedAt <= |t.published| by {
        RunKeepsInvariant(cfg, before, steps[..|steps| - 1]);
      }
      if Enabled(t, step) {
        FewerKeysBefore(cfg, t, step);
        forall x ensures !Evicted(Since(t), cfg.coalescedMax, x) {
          FewKeysEvictNothing(t.published, t.subscribedAt, t.drainedAt, cfg.coalescedMax, x);
        }
      }
      FewKeysMissNothing(cfg, before, steps[..|steps| - 1], k);
    }
  }

  lemma FewerKeysBefore(cfg: Settings, t: State, step: Step)
    requires t.subscribedAt <= |t.published| && Enabled(t, step)
    ensures var s := Next(cfg, t, step);
            |KeysOf(From(t.published, t.subscribedAt))| <= |KeysOf(From(s.published, s.subscribedAt))|
  {
    if step.Publish? {
      var s := Next(cfg, t, step);
      var fewer, more := From(t.published, t.subscribedAt), From(s.published, s.subscribedAt);
      assert more[..|fewer|] == fewer;
      Subset(KeysOf(fewer), KeysOf(more));
    }
  }

  lemma FewKeysEvictNothing(published: seq<Item>, from: nat, at: nat, coalescedMax: int, k: Key)
    requires from <= at <= |published| && |KeysOf(From(published, from))| <= LaneBound(coalescedMax)
    ensures !Evicted(From(published, at), coalescedMax, k)
  {
    var all, h := From(published, from), From(published, at);
    if LastUpdate(h, k) >= 0 {
      assert LaterKeys(h, k) + {k} <= KeysOf(all) && k !in LaterKeys(h, k) by {
        LaterKeysProper(h, k);
        assert all == published[from..at] + h;
        SuffixKeys(published[from..at], h);
      }
      Subset(LaterKeys(h, k) + {k}, KeysOf(all));
    }
  }

  lemma SuffixKeys(a: seq<Item>, b: seq<Item>)
    ensures KeysOf(b) <= KeysOf(a + b)
  {
    forall x | x in KeysOf(b) ensures x in KeysOf(a + b) {
      KeysOfMembers(b, x);
      KeysOfMembers(a + b, x);
      LastUpdateConcat(a, b, x);
    }
  }
}
