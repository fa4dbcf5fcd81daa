/** What the lanes hold, and what a client that applies the drained batches ends up with. */
module LaneTheorems {
  import opened Sequences
  import opened Lanes

  // ---------------------------------------------------------------- what is pending

  function KeysOf(h: seq<Item>): set<Key> {
    if h == [] then {}
    else KeysOf(h[..|h| - 1]) + if h[|h| - 1].key.Some? then {h[|h| - 1].key.value} else {}
  }

  /** The index of the newest message of `k`, or -1. */
  function LastUpdate(h: seq<Item>, k: Key): (i: int)
    ensures -1 <= i < |h|
    ensures i >= 0 ==> h[i].key == Some(k)
    ensures forall j :: i < j < |h| ==> h[j].key != Some(k)
  {
    if h == [] then -1
    else if h[|h| - 1].key == Some(k) then |h| - 1
    else LastUpdate(h[..|h| - 1], k)
  }

  /** The keys updated after the newest message of `k`. */
  function LaterKeys(h: seq<Item>, k: Key): set<Key> {
    KeysOf(h[LastUpdate(h, k) + 1..])
  }

  function SlotKeys(slots: seq<Slot>): set<Key> {
    set i | 0 <= i < |slots| :: slots[i].key
  }

  lemma SlotKeysAppend(slots: seq<Slot>, last: Slot)
    ensures SlotKeys(slots + [last]) == SlotKeys(slots) + {last.key}
  {
    var all := slots + [last];
    assert all[|slots|].key == last.key;
    forall k | k in SlotKeys(slots) ensures k in SlotKeys(all) {
      var i :| 0 <= i < |slots| && slots[i].key == k;
      assert all[i].key == k;
    }
    forall k | k in SlotKeys(all) ensures k in SlotKeys(slots) + {last.key} {
      var i :| 0 <= i < |all| && all[i].key == k;
      assert i < |slots| ==> slots[i].key == k;
    }
  }

  lemma {:induction false} SlotKeysCount(slots: seq<Slot>)
    requires DistinctKeys(slots)
    ensures |SlotKeys(slots)| == |slots|
  {
    if slots != [] {
      var init, last := slots[..|slots| - 1], slots[|slots| - 1];
      SlotKeysCount(init);
      assert slots == init + [last];
      SlotKeysAppend(init, last);
      assert last.key !in SlotKeys(init);
    }
  }

  /** Removing a key from the slots removes it from their keys. */
  lemma WithoutKeys(slots: seq<Slot>, k: Key)
    requires DistinctKeys(slots)
    ensures SlotKeys(Without(slots, k)) == SlotKeys(slots) - {k}
  {
    if i :| 0 <= i < |slots| && slots[i].key == k {
      WithoutPresent(slots, k, i);
      var rest := slots[..i] + slots[i + 1..];
      forall x | x in SlotKeys(slots) - {k} ensures x in SlotKeys(rest) {
        var j :| 0 <= j < |slots| && slots[j].key == x;
        assert slots[j] == rest[if j < i then j else j - 1];
      }
      forall x | x in SlotKeys(rest) ensures x in SlotKeys(slots) - {k} {
        var j :| 0 <= j < |rest| && rest[j].key == x;
        assert rest[j] == slots[if j < i then j else j + 1];
      }
    } else {
      WithoutAbsent(slots, k);
    }
  }

  lemma PutKeys(slots: seq<Slot>, k: Key, m: Message)
    requires DistinctKeys(slots)
    ensures SlotKeys(Put(slots, k, m)) == SlotKeys(slots) + {k}
  {
    WithoutKeys(slots, k);
    SlotKeysAppend(Without(slots, k), Slot(k, m));
  }

  /** In `Updates(h)` the newest message of `k` is followed by exactly the keys updated later. */
  lemma {:induction false} UpdatesSplit(h: seq<Item>, k: Key) returns (before: seq<Slot>, after: seq<Slot>)
    requires LastUpdate(h, k) >= 0
    ensures Updates(h) == before + [Slot(k, h[LastUpdate(h, k)].message)] + after
    ensures SlotKeys(after) == LaterKeys(h, k)
  {
    var init, item := h[..|h| - 1], h[|h| - 1];
    if item.key == Some(k) {
      before, after := Without(Updates(init), k), [];
      assert h[|h|..] == [];
    } else {
      before, after := UpdatesSplit(init, k);
      var slot, tail := Slot(k, h[LastUpdate(h, k)].message), h[LastUpdate(h, k) + 1..];
      assert tail[..|tail| - 1] == init[LastUpdate(h, k) + 1..];
      if item.key.Some? {
        UpdatesDistinct(init);
        SplitStep(before, slot, after, item.key.value, item.message);
        before, after := Without(before, item.key.value), Put(after, item.key.value, item.message);
      }
    }
  }

  lemma SplitStep(before: seq<Slot>, slot: Slot, after: seq<Slot>, k: Key, m: Message)
    requires slot.key != k && DistinctKeys(before + [slot] + after)
    ensures Put(before + [slot] + after, k, m) == Without(before, k) + [slot] + Put(after, k, m)
    ensures SlotKeys(Put(after, k, m)) == SlotKeys(after) + {k}
  {
    PutAround(before, slot, after, k, m);
    assert DistinctKeys(after) by {
      DistinctSuffix(before + [slot], after);
    }
    PutKeys(after, k, m);
  }

  lemma DistinctSuffix(a: seq<Slot>, b: seq<Slot>)
    requires DistinctKeys(a + b)
    ensures DistinctKeys(b)
  {
    forall i, j | 0 <= i < j < |b| ensures b[i].key != b[j].key {
      assert b[i] == (a + b)[|a| + i] && b[j] == (a + b)[|a| + j];
    }
  }

  lemma PutAround(before: seq<Slot>, slot: Slot, after: seq<Slot>, k: Key, m: Message)
    requires slot.key != k
    ensures Put(before + [slot] + after, k, m) == Without(before, k) + [slot] + Put(after, k, m)
  {
    PutSplit(before + [slot], after, k, m);
    WithoutConcat(before, [slot], k);
    assert [slot][..0] == [];
    assert Without([slot], k) == [slot];
  }

  /**
   The newest message of a key is pending exactly when fewer than the bound's number of
   other keys were updated after it: the lane holds the most recently updated keys.
   */
  lemma PendingIff(h: seq<Item>, coalescedMax: int, k: Key)
    requires LastUpdate(h, k) >= 0
    ensures HasKey(LaneOf(h, coalescedMax), k) <==> |LaterKeys(h, k)| < LaneBound(coalescedMax)
    ensures HasKey(LaneOf(h, coalescedMax), k) <==> Slot(k, h[LastUpdate(h, k)].message) in LaneOf(h, coalescedMax)
  {
    var before, after := UpdatesSplit(h, k);
    var slot := Slot(k, h[LastUpdate(h, k)].message);
    UpdatesDistinct(h);
    assert |after| == |LaterKeys(h, k)| by {
      DistinctSuffix(before + [slot], after);
      SlotKeysCount(after);
    }
    CutAround(before, slot, after, LaneBound(coalescedMax));
  }

  /** A slot survives the cut exactly when fewer than `c` slots follow it. */
  lemma CutAround(before: seq<Slot>, slot: Slot, after: seq<Slot>, c: nat)
    requires DistinctKeys(before + [slot] + after)
    ensures var lane := LastN(before + [slot] + after, c);
            && (HasKey(lane, slot.key) <==> |after| < c)
            && (slot in lane <==> |after| < c)
  {
    var all := before + [slot] + after;
    var lane := LastN(all, c);
    var cut := |all| - |lane|;
    assert all[|before|] == slot;
    if |after| < c {
      assert lane[|before| - cut] == slot;
    } else {
      forall i | 0 <= i < |lane| ensures lane[i].key != slot.key {
        assert lane[i] == all[cut + i];
      }
    }
  }

  lemma KeylessSplit(h: seq<Item>, i: nat)
    requires i < |h| && Keyless(h[i])
    ensures Filter(Keyless, h) == Filter(Keyless, h[..i]) + [h[i]] + Filter(Keyless, h[i + 1..])
  {
    assert h == h[..i] + [h[i]] + h[i + 1..];
    FilterConcat(Keyless, h[..i] + [h[i]], h[i + 1..]);
    FilterConcat(Keyless, h[..i], [h[i]]);
    assert Filter(Keyless, [h[i]]) == [h[i]] by {
      assert [h[i]][..0] == [];
    }
  }

  lemma LastNAround(before: seq<Item>, item: Item, after: seq<Item>, n: nat)
    ensures var kept := LastN(before + [item] + after, n);
            if |after| < n then |after| < |kept| && kept[|kept| - 1 - |after|] == item
            else kept == LastN(after, n)
  {
    var all := before + [item] + after;
    var kept := LastN(all, n);
    if |after| < n {
      assert all[|before|] == item && kept[|kept| - 1 - |after|] == all[|all| - 1 - |after|];
    } else {
      LastNConcat(before + [item], after, n);
    }
  }

  /**
   A keyless message is pending exactly while fewer than `maxPending` keyless ones follow it,
   that many places from the end of the queue; no keyed message ever displaces it.
   */
  lemma KeylessPendingIff(h: seq<Item>, maxPending: nat, i: nat)
    requires i < |h| && Keyless(h[i])
    ensures var later, fifo := Filter(Keyless, h[i + 1..]), FifoOf(h, maxPending);
            if |later| < maxPending then |later| < |fifo| && fifo[|fifo| - 1 - |later|] == h[i]
            else fifo == FifoOf(h[i + 1..], maxPending)
  {
    KeylessSplit(h, i);
    LastNAround(Filter(Keyless, h[..i]), h[i], Filter(Keyless, h[i + 1..]), maxPending);
  }

  /** Every slot holds the newest message of its key, and they are in order of last update. */
  ghost predicate Ordered(h: seq<Item>, slots: seq<Slot>) {
    && (forall i {:trigger slots[i]} :: 0 <= i < |slots| ==>
         LastUpdate(h, slots[i].key) >= 0 && slots[i].message == h[LastUpdate(h, slots[i].key)].message)
    && (forall i, j {:trigger slots[i], slots[j]} :: 0 <= i < j < |slots| ==>
         LastUpdate(h, slots[i].key) < LastUpdate(h, slots[j].key))
  }

  lemma {:induction false} OrderedRemoval(h: seq<Item>, slots: seq<Slot>, p: nat)
    requires Ordered(h, slots) && p < |slots|
    ensures Ordered(h, slots[..p] + slots[p + 1..])
  {
    var rest := slots[..p] + slots[p + 1..];
    assert forall i {:trigger rest[i]} :: 0 <= i < |rest| ==> rest[i] == slots[if i < p then i else i + 1];
  }

  lemma OrderedDrop(h: seq<Item>, slots: seq<Slot>, cut: nat)
    requires Ordered(h, slots) && cut <= |slots|
    ensures Ordered(h, slots[cut..])
  {
    var rest := slots[cut..];
    assert forall i {:trigger rest[i]} :: 0 <= i < |rest| ==> rest[i] == slots[cut + i];
  }

  lemma OrderedSuffix(h: seq<Item>, slots: seq<Slot>, n: nat)
    requires Ordered(h, slots)
    ensures Ordered(h, LastN(slots, n))
  {
    if |slots| > n {
      OrderedDrop(h, slots, |slots| - n);
    }
  }

  lemma {:induction false} OrderedAppend(h: seq<Item>, slots: seq<Slot>, k: Key, m: Message)
    requires Ordered(h, slots) && !HasKey(slots, k)
    ensures Ordered(h + [Item(Some(k), m)], slots + [Slot(k, m)])
  {
    var next := h + [Item(Some(k), m)];
    assert next[..|h|] == h;
    assert forall i {:trigger slots[i]} :: 0 <= i < |slots| ==> LastUpdate(next, slots[i].key) == LastUpdate(h, slots[i].key);
    assert LastUpdate(next, k) == |h|;
  }

  lemma {:induction false} UpdatesOrdered(h: seq<Item>)
    ensures Ordered(h, Updates(h))
  {
    if h != [] {
      var init, item := h[..|h| - 1], h[|h| - 1];
      var before := Updates(init);
      UpdatesOrdered(init);
      assert h == init + [item];
      if item.key.None? {
        assert forall k :: LastUpdate(h, k) == LastUpdate(init, k);
      } else {
        var k := item.key.value;
        UpdatesDistinct(init);
        if p :| 0 <= p < |before| && before[p].key == k {
          WithoutPresent(before, k, p);
          OrderedRemoval(init, before, p);
        } else {
          WithoutAbsent(before, k);
        }
        assert !HasKey(Without(before, k), k) by {
          WithoutKeys(before, k);
          assert HasKey(Without(before, k), k) ==> k in SlotKeys(Without(before, k));
        }
        OrderedAppend(init, Without(before, k), k, item.message);
      }
    }
  }

  /** The lane lists at most its bound of keys, in order of last update, each with its newest message. */
  lemma LaneOrdered(h: seq<Item>, coalescedMax: int)
    ensures |LaneOf(h, coalescedMax)| <= LaneBound(coalescedMax) && Ordered(h, LaneOf(h, coalescedMax))
  {
    UpdatesOrdered(h);
    OrderedSuffix(h, Updates(h), LaneBound(coalescedMax));
  }

  // ---------------------------------------------------------------- what the client ends up with

  /** The client's view: the last message applied for each key. */
  function Apply(view: map<Key, Message>, slots: seq<Slot>): map<Key, Message> {
    if slots == [] then view
    else Apply(view, slots[..|slots| - 1])[slots[|slots| - 1].key := slots[|slots| - 1].message]
  }

  /** Applying every keyed message of `h`, one by one. */
  function ApplyAll(view: map<Key, Message>, h: seq<Item>): map<Key, Message> {
    if h == [] then view
    else
      var before, item := ApplyAll(view, h[..|h| - 1]), h[|h| - 1];
      if item.key.None? then before else before[item.key.value := item.message]
  }

  lemma {:induction false} ApplyAllLookup(view: map<Key, Message>, h: seq<Item>, k: Key)
    ensures var after := ApplyAll(view, h);
            if LastUpdate(h, k) >= 0 then k in after && after[k] == h[LastUpdate(h, k)].message
            else (k in after <==> k in view) && (k in view ==> after[k] == view[k])
  {
    if h != [] {
      ApplyAllLookup(view, h[..|h| - 1], k);
    }
  }

  lemma {:induction false} ApplyLookup(view: map<Key, Message>, slots: seq<Slot>, k: Key)
    requires DistinctKeys(slots)
    ensures var after := Apply(view, slots);
            if HasKey(slots, k) then k in after && Slot(k, after[k]) in slots
            else (k in after <==> k in view) && (k in view ==> after[k] == view[k])
  {
    if slots != [] {
      var init, last := slots[..|slots| - 1], slots[|slots| - 1];
      assert slots == init + [last];
      ApplyLookup(view, init, k);
      assert HasKey(slots, k) <==> HasKey(init, k) || last.key == k by {
        if i :| 0 <= i < |init| && init[i].key == k {
          assert slots[i].key == k;
        }
      }
    }
  }

  /**
   One drain, key by key: the newest message of a key reaches the client unless at least the
   bound's number of other keys were updated after it; then the client keeps what it had.
   */
  lemma DrainOneKey(view: map<Key, Message>, h: seq<Item>, coalescedMax: int, k: Key)
    ensures var after := Apply(view, LaneOf(h, coalescedMax));
            if LastUpdate(h, k) >= 0 && |LaterKeys(h, k)| < LaneBound(coalescedMax)
            then k in after && after[k] == h[LastUpdate(h, k)].message
            else (k in after <==> k in view) && (k in view ==> after[k] == view[k])
  {
    var lane := LaneOf(h, coalescedMax);
    var after := Apply(view, lane);
    assert if HasKey(lane, k) then k in after && Slot(k, after[k]) in lane
           else (k in after <==> k in view) && (k in view ==> after[k] == view[k]) by {
      LaneDistinct(h, coalescedMax);
      ApplyLookup(view, lane, k);
    }
    if HasKey(lane, k) {
      assert LastUpdate(h, k) >= 0 && after[k] == h[LastUpdate(h, k)].message by {
        LaneOrdered(h, coalescedMax);
        var i :| 0 <= i < |lane| && lane[i] == Slot(k, after[k]);
      }
    }
    if LastUpdate(h, k) >= 0 {
      assert HasKey(lane, k) <==> |LaterKeys(h, k)| < LaneBound(coalescedMax) by {
        PendingIff(h, coalescedMax, k);
      }
    }
  }

  lemma LaneDistinct(h: seq<Item>, coalescedMax: int)
    ensures DistinctKeys(LaneOf(h, coalescedMax))
  {
    UpdatesDistinct(h);
    var all, lane := Updates(h), LaneOf(h, coalescedMax);
    forall i, j | 0 <= i < j < |lane| ensures lane[i].key != lane[j].key {
      assert lane[i] == all[|all| - |lane| + i] && lane[j] == all[|all| - |lane| + j];
    }
  }

  datatype Op = Offer(item: Item) | Drain

  /** A run of offers and drains: the messages since the last drain, and the client's view. */
  datatype Session = Session(since: seq<Item>, view: map<Key, Message>)

  function Play(ops: seq<Op>, coalescedMax: int): Session {
    if ops == [] then Session([], map[])
    else
      var s := Play(ops[..|ops| - 1], coalescedMax);
      match ops[|ops| - 1]
      case Offer(item) => s.(since := s.since + [item])
      case Drain => Session([], Apply(s.view, LaneOf(s.since, coalescedMax)))
  }

  function Offered(ops: seq<Op>): seq<Item> {
    if ops == [] then []
    else
      var before := Offered(ops[..|ops| - 1]);
      if ops[|ops| - 1].Offer? then before + [ops[|ops| - 1].item] else before
  }

  /** The newest message of `k` was pushed out of the lane before it could be drained. */
  function Lost(ops: seq<Op>, coalescedMax: int, k: Key): bool {
    if ops == [] then false
    else
      var init := ops[..|ops| - 1];
      match ops[|ops| - 1]
      case Offer(item) => if item.key == Some(k) then false else Lost(init, coalescedMax, k)
      case Drain =>
        var since := Play(init, coalescedMax).since;
        if LastUpdate(since, k) >= 0 then |LaterKeys(since, k)| >= LaneBound(coalescedMax)
        else Lost(init, coalescedMax, k)
  }

  lemma {:induction false} OneMoreUpdate(h: seq<Item>, item: Item, k: Key)
    ensures LastUpdate(h + [item], k) == if item.key == Some(k) then |h| else LastUpdate(h, k)
  {
    assert (h + [item])[..|h|] == h;
  }

  /** What the client shows for a key. */
  function Shown(view: map<Key, Message>, k: Key): Option<Message> {
    if k in view then Some(view[k]) else None
  }

  /** The newest message of `k`, if it has one. */
  function NewestOf(h: seq<Item>, k: Key): Option<Message> {
    var i := LastUpdate(h, k);
    if i >= 0 then Some(h[i].message) else None
  }

  /** The index among all offered messages of the one the client last received for `k`, or -1. */
  function Delivered(ops: seq<Op>, coalescedMax: int, k: Key): int {
    if ops == [] then -1
    else
      var init := ops[..|ops| - 1];
      var since := Play(init, coalescedMax).since;
      if ops[|ops| - 1].Drain? && LastUpdate(since, k) >= 0 && |LaterKeys(since, k)| < LaneBound(coalescedMax)
      then LastUpdate(Offered(init), k)
      else Delivered(init, coalescedMax, k)
  }

  /** An update since the last drain is the newest of all. */
  lemma {:induction false} SinceIsNewest(ops: seq<Op>, coalescedMax: int, k: Key)
    ensures var since, all := Play(ops, coalescedMax).since, Offered(ops);
            LastUpdate(since, k) >= 0 ==> LastUpdate(all, k) >= 0 && all[LastUpdate(all, k)] == since[LastUpdate(since, k)]
  {
    if ops != [] && ops[|ops| - 1].Offer? {
      var init, item := ops[..|ops| - 1], ops[|ops| - 1].item;
      SinceIsNewest(init, coalescedMax, k);
      OneMoreUpdate(Play(init, coalescedMax).since, item, k);
      OneMoreUpdate(Offered(init), item, k);
    }
  }

  lemma {:induction false} DeliveredIsAnUpdate(ops: seq<Op>, coalescedMax: int, k: Key)
    ensures -1 <= Delivered(ops, coalescedMax, k) <= LastUpdate(Offered(ops), k)
    ensures Delivered(ops, coalescedMax, k) >= 0 ==> Offered(ops)[Delivered(ops, coalescedMax, k)].key == Some(k)
  {
    if ops != [] {
      var init := ops[..|ops| - 1];
      DeliveredIsAnUpdate(init, coalescedMax, k);
      if ops[|ops| - 1].Offer? {
        OneMoreUpdate(Offered(init), ops[|ops| - 1].item, k);
      }
    }
  }

  lemma DrainShows(view: map<Key, Message>, h: seq<Item>, coalescedMax: int, k: Key)
    ensures Shown(Apply(view, LaneOf(h, coalescedMax)), k)
            == if LastUpdate(h, k) >= 0 && |LaterKeys(h, k)| < LaneBound(coalescedMax) then Some(h[LastUpdate(h, k)].message)
               else Shown(view, k)
  {
    DrainOneKey(view, h, coalescedMax, k);
  }

  /** At any moment of any interleaving of offers and drains the client shows the message last delivered. */
  lemma {:induction false} PlayLookup(ops: seq<Op>, coalescedMax: int, k: Key)
    ensures var at := Delivered(ops, coalescedMax, k);
            at < |Offered(ops)|
            && Shown(Play(ops, coalescedMax).view, k) == if at >= 0 then Some(Offered(ops)[at].message) else None
  {
    DeliveredIsAnUpdate(ops, coalescedMax, k);
    if ops != [] {
      var init := ops[..|ops| - 1];
      PlayLookup(init, coalescedMax, k);
      if ops[|ops| - 1].Drain? {
        SinceIsNewest(init, coalescedMax, k);
        DrainShows(Play(init, coalescedMax).view, Play(init, coalescedMax).since, coalescedMax, k);
      }
    }
  }

  /** The message last delivered is the newest one exactly when none is waiting and none was lost. */
  lemma {:induction false} NewestDeliveredIff(ops: seq<Op>, coalescedMax: int, k: Key)
    ensures Delivered(ops, coalescedMax, k) == LastUpdate(Offered(ops), k)
            <==> LastUpdate(Play(ops, coalescedMax).since, k) < 0 && !Lost(ops, coalescedMax, k)
  {
    if ops != [] {
      var init := ops[..|ops| - 1];
      NewestDeliveredIff(init, coalescedMax, k);
      DeliveredIsAnUpdate(init, coalescedMax, k);
      if ops[|ops| - 1].Offer? {
        OneMoreUpdate(Play(init, coalescedMax).since, ops[|ops| - 1].item, k);
        OneMoreUpdate(Offered(init), ops[|ops| - 1].item, k);
      }
    }
  }

  /** What applying every offered message, one by one, would show. */
  function Target(ops: seq<Op>, k: Key): Option<Message> {
    Shown(ApplyAll(map[], Offered(ops)), k)
  }

  lemma ApplyAllShows(h: seq<Item>, k: Key)
    ensures Shown(ApplyAll(map[], h), k) == NewestOf(h, k)
  {
    ApplyAllLookup(map[], h, k);
  }

  lemma AfterDrain(ops: seq<Op>, coalescedMax: int, k: Key)
    ensures var all := ops + [Drain];
            all[..|ops|] == ops && Offered(all) == Offered(ops) && Play(all, coalescedMax).since == []
  {
    assert (ops + [Drain])[..|ops|] == ops;
  }

  /**
   The drain schedule does not matter: after any interleaving that ends in a drain, each key
   the client did not lose holds what applying every message would have given it.
   */
  lemma DrainScheduleIrrelevant(ops: seq<Op>, coalescedMax: int, k: Key)
    requires !Lost(ops + [Drain], coalescedMax, k)
    ensures Shown(Play(ops + [Drain], coalescedMax).view, k) == Target(ops, k)
  {
    AfterDrain(ops, coalescedMax, k);
    PlayLookup(ops + [Drain], coalescedMax, k);
    NewestDeliveredIff(ops + [Drain], coalescedMax, k);
    ApplyAllShows(Offered(ops), k);
  }

  /** No two messages of `k` are the same. */
  ghost predicate MessagesDiffer(h: seq<Item>, k: Key) {
    forall i, j {:trigger h[i], h[j]} :: 0 <= i < j < |h| && h[i].key == Some(k) && h[j].key == Some(k) ==> h[i].message != h[j].message
  }

  /** And not to have lost it is exact: with different messages per key, a lost key shows something older or nothing. */
  lemma DrainScheduleIrrelevantIff(ops: seq<Op>, coalescedMax: int, k: Key)
    requires MessagesDiffer(Offered(ops), k)
    ensures Shown(Play(ops + [Drain], coalescedMax).view, k) == Target(ops, k) <==> !Lost(ops + [Drain], coalescedMax, k)
  {
    if Lost(ops + [Drain], coalescedMax, k) {
      AfterDrain(ops, coalescedMax, k);
      PlayLookup(ops + [Drain], coalescedMax, k);
      DeliveredIsAnUpdate(ops + [Drain], coalescedMax, k);
      NewestDeliveredIff(ops + [Drain], coalescedMax, k);
      ApplyAllShows(Offered(ops), k);
    } else {
      DrainScheduleIrrelevant(ops, coalescedMax, k);
    }
  }

  /** A lane that is never asked to hold more keys than its bound loses nothing. */
  lemma {:induction false} FewKeysLoseNothing(ops: seq<Op>, coalescedMax: int, k: Key)
    requires |KeysOf(Offered(ops))| <= LaneBound(coalescedMax)
    ensures !Lost(ops, coalescedMax, k)
  {
    if ops != [] {
      var init := ops[..|ops| - 1];
      SessionKeys(init, coalescedMax);
      SessionKeys(ops, coalescedMax);
      assert KeysOf(Offered(init)) <= KeysOf(Offered(ops)) by {
        if ops[|ops| - 1].Offer? {
          assert Offered(ops)[..|Offered(init)|] == Offered(init);
        }
      }
      Subset(KeysOf(Offered(init)), KeysOf(Offered(ops)));
      FewKeysLoseNothing(init, coalescedMax, k);
      var since := Play(init, coalescedMax).since;
      if ops[|ops| - 1].Drain? && LastUpdate(since, k) >= 0 {
        LaterKeysProper(since, k);
        Subset(LaterKeys(since, k) + {k}, KeysOf(Offered(init)));
      }
    }
  }

  lemma Subset(a: set<Key>, b: set<Key>)
    requires a <= b
    ensures |a| <= |b|
  {
    assert b == a + (b - a);
  }

  lemma {:induction false} SessionKeys(ops: seq<Op>, coalescedMax: int)
    ensures KeysOf(Play(ops, coalescedMax).since) <= KeysOf(Offered(ops))
  {
    if ops != [] {
      var init := ops[..|ops| - 1];
      SessionKeys(init, coalescedMax);
      if ops[|ops| - 1].Offer? {
        var s := Play(init, coalescedMax);
        assert (s.since + [ops[|ops| - 1].item])[..|s.since|] == s.since;
        assert Offered(ops)[..|Offered(init)|] == Offered(init);
      }
    }
  }

  lemma {:induction false} KeysOfMembers(h: seq<Item>, k: Key)
    ensures k in KeysOf(h) <==> LastUpdate(h, k) >= 0
  {
    if h != [] {
      KeysOfMembers(h[..|h| - 1], k);
    }
  }

  /** The keys updated after `k` are other keys of the history. */
  lemma LaterKeysProper(h: seq<Item>, k: Key)
    requires LastUpdate(h, k) >= 0
    ensures k !in LaterKeys(h, k) && LaterKeys(h, k) + {k} <= KeysOf(h)
  {
    var at := LastUpdate(h, k);
    var tail := h[at + 1..];
    KeysOfMembers(h, k);
    forall x | x in KeysOf(tail) ensures x != k && x in KeysOf(h) {
      assert LastUpdate(tail, x) >= 0 by {
        KeysOfMembers(tail, x);
      }
      assert h[at + 1 + LastUpdate(tail, x)].key == Some(x);
      assert x in KeysOf(h) by {
        KeysOfMembers(h, x);
      }
    }
  }
}
