/**
 The two lanes of a subscriber's buffer as functions of the messages accepted since the
 last drain: keyed messages coalesce, newest first to survive, in a lane bounded by its
 number of distinct keys; keyless messages queue in a bounded FIFO.
 */
module Lanes {
  import opened Sequences
  import opened JsonValues

  datatype Message = Message(kind: string, data: Json)

  datatype Key = Key(kind: string, id: Json)

  /** A message with its coalescing identity; None sends it down the FIFO lane. */
  datatype Item = Item(key: Option<Key>, message: Message)

  /** An entry of the ordered dictionary behind the coalescing lane. */
  datatype Slot = Slot(key: Key, message: Message)

  predicate Keyless(item: Item) {
    item.key.None?
  }

  predicate HasKey(slots: seq<Slot>, k: Key) {
    exists i :: 0 <= i < |slots| && slots[i].key == k
  }

  /** The slots of all other keys, in order. */
  function Without(slots: seq<Slot>, k: Key): seq<Slot> {
    if slots == [] then []
    else
      var rest := Without(slots[..|slots| - 1], k);
      if slots[|slots| - 1].key == k then rest else rest + [slots[|slots| - 1]]
  }

  function SlotMessages(slots: seq<Slot>): seq<Message> {
    seq(|slots|, i requires 0 <= i < |slots| => slots[i].message)
  }

  function ItemMessages(items: seq<Item>): seq<Message> {
    seq(|items|, i requires 0 <= i < |items| => items[i].message)
  }

  /** Every key of `h` with its newest message, in order of last update. */
  function Updates(h: seq<Item>): seq<Slot> {
    if h == [] then []
    else
      var before, item := Updates(h[..|h| - 1]), h[|h| - 1];
      if item.key.None? then before else Put(before, item.key.value, item.message)
  }

  /** `d[k] = m; d.move_to_end(k)` on an ordered dictionary. */
  function Put(slots: seq<Slot>, k: Key, m: Message): seq<Slot> {
    Without(slots, k) + [Slot(k, m)]
  }

  /** The lane keeps one key even when configured to keep none. */
  function LaneBound(coalescedMax: int): nat {
    Max(1, coalescedMax)
  }

  function LaneOf(h: seq<Item>, coalescedMax: int): seq<Slot> {
    LastN(Updates(h), LaneBound(coalescedMax))
  }

  function FifoOf(h: seq<Item>, maxPending: nat): seq<Item> {
    LastN(Filter(Keyless, h), maxPending)
  }

  /** What a drain hands out after history `h`: the FIFO lane leads. */
  function BatchOf(h: seq<Item>, coalescedMax: int, maxPending: nat): seq<Message> {
    ItemMessages(FifoOf(h, maxPending)) + SlotMessages(LaneOf(h, coalescedMax))
  }

  // ---------------------------------------------------------------- one offer, on the lanes

  ghost predicate DistinctKeys(slots: seq<Slot>) {
    forall i, j :: 0 <= i < j < |slots| ==> slots[i].key != slots[j].key
  }

  lemma {:induction false} WithoutConcat(a: seq<Slot>, b: seq<Slot>, k: Key)
    ensures Without(a + b, k) == Without(a, k) + Without(b, k)
  {
    if b == [] {
      assert a + b == a;
    } else {
      WithoutConcat(a, b[..|b| - 1], k);
      assert (a + b)[..|a + b| - 1] == a + b[..|b| - 1];
    }
  }

  lemma {:induction false} WithoutAbsent(slots: seq<Slot>, k: Key)
    requires !HasKey(slots, k)
    ensures Without(slots, k) == slots
  {
    if slots != [] {
      WithoutAbsent(slots[..|slots| - 1], k);
    }
  }

  /** With distinct keys, removing a present key takes exactly its one slot out. */
  lemma WithoutPresent(slots: seq<Slot>, k: Key, i: nat)
    requires DistinctKeys(slots) && i < |slots| && slots[i].key == k
    ensures Without(slots, k) == slots[..i] + slots[i + 1..]
  {
    var before, after := slots[..i], slots[i + 1..];
    assert Without(before, k) == before by {
      WithoutAbsent(before, k);
    }
    assert Without(after, k) == after by {
      WithoutAbsent(after, k);
    }
    assert Without(before + [slots[i]], k) == before by {
      assert (before + [slots[i]])[..i] == before;
    }
    assert Without(slots, k) == before + after by {
      assert slots == (before + [slots[i]]) + after;
      WithoutConcat(before + [slots[i]], after, k);
    }
  }

  lemma PutDistinct(slots: seq<Slot>, k: Key, m: Message)
    requires DistinctKeys(slots)
    ensures DistinctKeys(Put(slots, k, m))
    ensures !HasKey(slots, k) ==> Put(slots, k, m) == slots + [Slot(k, m)]
    ensures HasKey(slots, k) ==> |Put(slots, k, m)| == |slots|
  {
    if i :| 0 <= i < |slots| && slots[i].key == k {
      WithoutPresent(slots, k, i);
    } else {
      WithoutAbsent(slots, k);
    }
  }

  lemma {:induction false} UpdatesDistinct(h: seq<Item>)
    ensures DistinctKeys(Updates(h))
  {
    if h != [] {
      UpdatesDistinct(h[..|h| - 1]);
      var item := h[|h| - 1];
      if item.key.Some? {
        PutDistinct(Updates(h[..|h| - 1]), item.key.value, item.message);
      }
    }
  }

  lemma PutSplit(prefix: seq<Slot>, lane: seq<Slot>, k: Key, m: Message)
    ensures Put(prefix + lane, k, m) == Without(prefix, k) + Put(lane, k, m)
  {
    WithoutConcat(prefix, lane, k);
  }

  lemma SupersedeThenCut(prefix: seq<Slot>, lane: seq<Slot>, c: nat, k: Key, m: Message)
    requires DistinctKeys(prefix + lane) && |lane| <= c && (|lane| == c || prefix == []) && HasKey(lane, k)
    ensures LastN(Put(prefix + lane, k, m), c) == Put(lane, k, m) && |Put(lane, k, m)| == |lane|
  {
    DistinctParts(prefix, lane, k);
    PutDistinct(lane, k, m);
    assert Put(prefix + lane, k, m) == prefix + Put(lane, k, m) by {
      WithoutAbsent(prefix, k);
      PutSplit(prefix, lane, k, m);
    }
    LastNConcat(prefix, Put(lane, k, m), c);
  }

  /** Of two parts with distinct keys, a key is in one only. */
  lemma DistinctParts(prefix: seq<Slot>, lane: seq<Slot>, k: Key)
    requires DistinctKeys(prefix + lane) && HasKey(lane, k)
    ensures DistinctKeys(lane) && !HasKey(prefix, k)
  {
    var all := prefix + lane;
    forall i, j | 0 <= i < j < |lane| ensures lane[i].key != lane[j].key {
      assert all[|prefix| + i] == lane[i] && all[|prefix| + j] == lane[j];
    }
    var j :| 0 <= j < |lane| && lane[j].key == k;
    forall i | 0 <= i < |prefix| ensures prefix[i].key != k {
      assert all[i] == prefix[i] && all[|prefix| + j] == lane[j];
    }
  }

  lemma AppendThenCut(prefix: seq<Slot>, lane: seq<Slot>, c: nat, k: Key, m: Message)
    requires |lane| <= c && c >= 1 && (|lane| == c || prefix == []) && !HasKey(lane, k)
    ensures LastN(Put(prefix + lane, k, m), c) == (if |lane| == c then lane[1..] else lane) + [Slot(k, m)]
  {
    var next := lane + [Slot(k, m)];
    assert Put(prefix + lane, k, m) == Without(prefix, k) + next by {
      WithoutAbsent(lane, k);
      PutSplit(prefix, lane, k, m);
    }
    LastNConcat(Without(prefix, k), next, c);
  }

  /** Cutting to the newest `c` keys commutes with an update: evicted keys may come back. */
  lemma PutThenCut(all: seq<Slot>, c: nat, k: Key, m: Message)
    requires DistinctKeys(all) && c >= 1
    ensures var lane, next := LastN(all, c), LastN(Put(all, k, m), c);
            if HasKey(lane, k) then next == Put(lane, k, m) && |next| == |lane|
            else if |lane| >= c then next == lane[1..] + [Slot(k, m)]
            else next == lane + [Slot(k, m)]
  {
    var lane := LastN(all, c);
    var prefix := all[..|all| - |lane|];
    assert all == prefix + lane;
    if HasKey(lane, k) {
      SupersedeThenCut(prefix, lane, c, k, m);
    } else {
      AppendThenCut(prefix, lane, c, k, m);
    }
  }

  /** An offer changes the lane just as the program does: supersede, or evict and append. */
  lemma LaneStep(h: seq<Item>, item: Item, coalescedMax: int)
    ensures var lane, next := LaneOf(h, coalescedMax), LaneOf(h + [item], coalescedMax);
            match item.key
            case None => next == lane
            case Some(k) =>
              if HasKey(lane, k) then next == Put(lane, k, item.message) && |next| == |lane|
              else if |lane| >= coalescedMax && lane != [] then next == lane[1..] + [Slot(k, item.message)]
              else next == lane + [Slot(k, item.message)]
  {
    assert (h + [item])[..|h|] == h;
    if item.key.Some? {
      UpdatesDistinct(h);
      PutThenCut(Updates(h), LaneBound(coalescedMax), item.key.value, item.message);
    }
  }

  lemma {:induction false} FifoStep(h: seq<Item>, item: Item, maxPending: nat)
    ensures FifoOf(h + [item], maxPending)
            == if Keyless(item) then LastN(FifoOf(h, maxPending) + [item], maxPending) else FifoOf(h, maxPending)
  {
    assert (h + [item])[..|h|] == h;
  }
}
