/** Which keys of a session really miss their newest message: the exact form of convergence. */
module MissedKeys {
  import opened Sequences
  import opened Lanes
  import opened LaneTheorems
  import opened CatchUp

  /** What was sent or is being sent, without the pending lane. */
  function Sent(s: State): map<Key, Message> {
    ApplyAll(s.client, s.unsent)
  }

  /** The newest message of `k` since the subscription. */
  function NewestLive(s: State, k: Key): Option<Message> {
    NewestOf(From(s.published, s.subscribedAt), k)
  }

  ghost predicate WasPublished(s: State, k: Key, m: Option<Message>) {
    m.Some? ==> Item(Some(k), m.value) in s.published
  }

  /**
   The newest message was sent exactly when it was drained without being evicted, or the
   snapshot already carried it.
   */
  ghost predicate SentIff(s: State, k: Key) {
    NewestLive(s, k).Some? ==>
      (Shown(Sent(s), k) == NewestLive(s, k)
       <==> (LastUpdate(Since(s), k) < 0 && k !in s.lost) || NewestOf(s.window, k) == NewestLive(s, k))
  }

  ghost predicate KeyInv(s: State, k: Key) {
    && s.subscribedAt <= s.drainedAt <= |s.published|
    && (!s.phase.Live? ==> s.drainedAt == s.subscribedAt && s.lost == {})
    && WasPublished(s, k, Shown(Sent(s), k)) && WasPublished(s, k, NewestOf(s.window, k))
    && (k in s.lost ==> NewestLive(s, k).Some?)
    && SentIff(s, k)
  }

  lemma FromSnoc(s: State, item: Item, at: nat)
    requires at <= |s.published|
    ensures From(s.published + [item], at) == From(s.published, at) + [item]
  {
  }

  lemma NewestSnoc(h: seq<Item>, item: Item, k: Key)
    ensures NewestOf(h + [item], k) == if item.key == Some(k) then Some(item.message) else NewestOf(h, k)
    ensures LastUpdate(h + [item], k) < 0 <==> LastUpdate(h, k) < 0 && item.key != Some(k)
  {
    OneMoreUpdate(h, item, k);
  }

  lemma PublishIsNew(s: State, item: Item, k: Key, m: Option<Message>)
    requires MessagesDiffer(s.published + [item], k) && WasPublished(s, k, m) && item.key == Some(k)
    ensures m != Some(item.message)
  {
    if m.Some? {
      var i :| 0 <= i < |s.published| && s.published[i] == Item(Some(k), m.value);
      var next := s.published + [item];
      assert next[i].message != next[|s.published|].message;
    }
  }

  lemma PublishKeepsKey(cfg: Settings, s: State, item: Item, k: Key)
    requires KeyInv(s, k) && MessagesDiffer(s.published + [item], k)
    ensures KeyInv(Next(cfg, s, Publish(item)), k)
  {
    var t := Next(cfg, s, Publish(item));
    FromSnoc(s, item, s.subscribedAt);
    FromSnoc(s, item, s.drainedAt);
    NewestSnoc(From(s.published, s.subscribedAt), item, k);
    NewestSnoc(Since(s), item, k);
    assert SentIff(t, k) by {
      if item.key == Some(k) {
        PublishIsNew(s, item, k, Shown(Sent(s), k));
        PublishIsNew(s, item, k, NewestOf(s.window, k));
      }
    }
  }

  lemma SnapshotWasPublished(cfg: Settings, s: State, k: Key)
    ensures WasPublished(s, k, NewestOf(Snapshot(s.published, cfg.bufferSize, cfg.limit), k))
  {
    var window, i := Snapshot(s.published, cfg.bufferSize, cfg.limit), LastUpdate(Snapshot(s.published, cfg.bufferSize, cfg.limit), k);
    if i >= 0 {
      FilterMembers(Clean, s.published);
      assert window[i] in Filter(Clean, s.published);
      assert window[i] == Item(Some(k), window[i].message);
    }
  }

  lemma SnapshotKeepsKey(cfg: Settings, s: State, k: Key)
    requires Inv(cfg, s) && KeyInv(s, k) && s.phase.Subscribed?
    ensures KeyInv(Next(cfg, s, TakeSnapshot), k)
  {
    var t := Next(cfg, s, TakeSnapshot);
    SnapshotWasPublished(cfg, s, k);
    ApplyAllShows(t.window, k);
    assert Since(t) == From(t.published, t.subscribedAt);
  }

  lemma SendSends(cfg: Settings, s: State)
    requires s.unsent != []
    ensures Sent(Next(cfg, s, Send)) == Sent(s)
  {
    var rest := s.unsent[1..];
    assert s.unsent == [s.unsent[0]] + rest;
    ApplyAllConcat(s.client, [s.unsent[0]], rest);
    assert [s.unsent[0]][..0] == [];
  }

  /** What a flush sends of one key. */
  lemma FlushSends(cfg: Settings, s: State, k: Key)
    requires s.phase.Live? && s.unsent == []
    ensures Shown(Sent(Next(cfg, s, Flush)), k)
            == if LastUpdate(Since(s), k) >= 0 && !Evicted(Since(s), cfg.coalescedMax, k) then NewestOf(Since(s), k)
               else Shown(Sent(s), k)
  {
    BatchApplies(s.client, Since(s), cfg.coalescedMax, cfg.maxPending);
    DrainShows(s.client, Since(s), cfg.coalescedMax, k);
  }

  /** A key updated since the last drain has its newest message there. */
  lemma NewestIsPending(s: State, k: Key)
    requires s.subscribedAt <= s.drainedAt <= |s.published| && LastUpdate(Since(s), k) >= 0
    ensures NewestLive(s, k) == NewestOf(Since(s), k) && WasPublished(s, k, NewestOf(Since(s), k))
  {
    var earlier, h := s.published[s.subscribedAt..s.drainedAt], Since(s);
    assert From(s.published, s.subscribedAt) == earlier + h;
    LastUpdateConcat(earlier, h, k);
    assert h[LastUpdate(h, k)] == s.published[s.drainedAt + LastUpdate(h, k)];
    assert h[LastUpdate(h, k)] == Item(Some(k), h[LastUpdate(h, k)].message);
  }

  lemma FlushKeepsKey(cfg: Settings, s: State, k: Key)
    requires KeyInv(s, k) && s.phase.Live? && s.unsent == []
    ensures KeyInv(Next(cfg, s, Flush), k)
  {
    var t := Next(cfg, s, Flush);
    FlushSends(cfg, s, k);
    KeysOfMembers(Since(s), k);
    if LastUpdate(Since(s), k) >= 0 {
      NewestIsPending(s, k);
    }
    assert Since(t) == [];
  }

  lemma StepKeepsKey(cfg: Settings, s: State, step: Step, k: Key)
    requires Inv(cfg, s) && KeyInv(s, k) && Enabled(s, step) && MessagesDiffer(Next(cfg, s, step).published, k)
    ensures KeyInv(Next(cfg, s, step), k)
  {
    match step
    case Publish(item) => PublishKeepsKey(cfg, s, item, k);
    case TakeSnapshot => SnapshotKeepsKey(cfg, s, k);
    case Send => SendSends(cfg, s);
    case StartLive =>
    case Flush => FlushKeepsKey(cfg, s, k);
  }

  lemma DifferBefore(cfg: Settings, s: State, step: Step, k: Key)
    requires Enabled(s, step) && MessagesDiffer(Next(cfg, s, step).published, k)
    ensures MessagesDiffer(s.published, k)
  {
    var t := Next(cfg, s, step);
    assert forall i {:trigger s.published[i]} :: 0 <= i < |s.published| ==> s.published[i] == t.published[i];
  }

  lemma {:induction false} RunKeepsKey(cfg: Settings, before: seq<Item>, steps: seq<Step>, k: Key)
    requires MessagesDiffer(Run(cfg, before, steps).published, k)
    ensures KeyInv(Run(cfg, before, steps), k)
  {
    if steps != [] {
      var init, step := steps[..|steps| - 1], steps[|steps| - 1];
      var s := Run(cfg, before, init);
      if Enabled(s, step) {
        DifferBefore(cfg, s, step, k);
        RunKeepsKey(cfg, before, init, k);
        RunKeepsInvariant(cfg, before, init);
        StepKeepsKey(cfg, s, step, k);
      } else {
        RunKeepsKey(cfg, before, init, k);
      }
    }
  }

  lemma HoldsIsShown(view: map<Key, Message>, h: seq<Item>, k: Key)
    ensures HoldsNewest(view, h, k) <==> Shown(view, k) == NewestOf(h, k)
  {
  }

  lemma OverlayShows(cfg: Settings, s: State, k: Key)
    ensures Shown(Overlay(cfg, s), k)
            == if LastUpdate(Since(s), k) >= 0 && !Evicted(Since(s), cfg.coalescedMax, k) then NewestOf(Since(s), k)
               else Shown(Sent(s), k)
  {
    DrainShows(Sent(s), Since(s), cfg.coalescedMax, k);
  }

  lemma VisibleNewest(s: State, k: Key)
    requires NewestLive(s, k).Some?
    ensures NewestOf(Visible(s), k) == NewestLive(s, k)
  {
    LastUpdateConcat(s.window, From(s.published, s.subscribedAt), k);
  }

  lemma MissedIsLive(cfg: Settings, s: State, k: Key)
    requires KeyInv(s, k) && Missed(cfg, s, k)
    ensures NewestLive(s, k).Some?
  {
    if LastUpdate(Since(s), k) >= 0 {
      NewestIsPending(s, k);
    }
  }

  /**
   Convergence is exact: when no key is published with one message twice, client, unsent data
   and pending lane together hold the newest message of a key if and only if the key was not
   missed, or was missed by the lane only and the snapshot carried that very message.
   */
  lemma ConvergesIff(cfg: Settings, before: seq<Item>, steps: seq<Step>, k: Key)
    requires MessagesDiffer(Run(cfg, before, steps).published, k)
    ensures var s := Run(cfg, before, steps);
            HoldsNewest(Overlay(cfg, s), Visible(s), k)
            <==> !Missed(cfg, s, k) || NewestOf(s.window, k) == NewestLive(s, k)
  {
    var s := Run(cfg, before, steps);
    if Missed(cfg, s, k) {
      RunKeepsKey(cfg, before, steps, k);
      MissedIsLive(cfg, s, k);
      VisibleNewest(s, k);
      HoldsIsShown(Overlay(cfg, s), Visible(s), k);
      OverlayShows(cfg, s, k);
    } else {
      CatchUpConverges(cfg, before, steps, k);
    }
  }
}
