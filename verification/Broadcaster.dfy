/**
 Fan-out to WebSocket clients with backpressure.

 The class is tied at all times to the messages accepted since the last drain, so that what
 a client receives is a function of that history alone (see `Lanes` and `LaneTheorems`).
 */
module Broadcaster {
  import opened Sequences
  import opened JsonValues
  import opened Lanes
  import opened LaneTheorems

  /** A message's coalescing identity: none sends it down the FIFO lane, and some payloads raise. */
  datatype Identity = NoIdentity | Keyed(key: Key) | Raises

  /** The entry of a lane: a null names nothing, and a list or an object is no dictionary key. */
  function Identified(kind: string, id: Json): Identity {
    if id.Null? then NoIdentity else if Hashable(id) then Keyed(Key(kind, AsKey(id))) else Raises
  }

  /** `_coalesce_key`, and the lookup of what it returns. */
  function CoalesceKey(m: Message): Identity {
    if m.kind == "clean" then
      if !Truthy(m.data) then NoIdentity
      else if !m.data.Object? then Raises
      else Identified("clean", Get(m.data.fields, "sensor_id"))
    else if m.kind == "aggregated" then
      if !Truthy(m.data) then NoIdentity
      else if !m.data.Object? then Raises
      else
        // An absent or falsy geohash falls back to the bucket, which may itself be falsy.
        var geohash := Get(m.data.fields, "geohash");
        Identified("aggregated", if Truthy(geohash) then geohash else Get(m.data.fields, "bucket"))
    else NoIdentity
  }

  /** Messages of different kinds never supersede each other, even about one identifier. */
  lemma KindsDoNotMix(m: Message, n: Message)
    requires CoalesceKey(m).Keyed? && CoalesceKey(m) == CoalesceKey(n)
    ensures m.kind == n.kind && m.data.Object? && n.data.Object?
    ensures m.kind == "clean" ==> AsKey(Get(m.data.fields, "sensor_id")) == AsKey(Get(n.data.fields, "sensor_id"))
  {
  }

  function Tag(m: Message): Item {
    var id := CoalesceKey(m);
    Item(if id.Keyed? then Some(id.key) else None, m)
  }

  /**
   Alerts are never merged away, whatever their payload, and neither is anything without an
   identity: such a message is in the next batch exactly while fewer than `maxPending` others of
   that sort came after it, whatever state was updated in between.
   */
  lemma UnidentifiedIsPendingIff(h: seq<Item>, m: Message, coalescedMax: int, maxPending: nat, i: nat)
    requires i < |h| && h[i] == Tag(m) && (m.kind == "alert" || CoalesceKey(m) == NoIdentity)
    ensures var later, pending := |Filter(Keyless, h[i + 1..])|, |FifoOf(h, maxPending)|;
            && (later < maxPending ==> later < pending && BatchOf(h, coalescedMax, maxPending)[pending - 1 - later] == m)
            && (later >= maxPending ==> FifoOf(h, maxPending) == FifoOf(h[i + 1..], maxPending))
  {
    TagIsKeyless(m);
    KeylessPendingIff(h, maxPending, i);
    var later, pending := |Filter(Keyless, h[i + 1..])|, |FifoOf(h, maxPending)|;
    if later < maxPending {
      FifoLeads(h, coalescedMax, maxPending, pending - 1 - later);
    }
  }

  lemma TagIsKeyless(m: Message)
    requires m.kind == "alert" || CoalesceKey(m) == NoIdentity
    ensures Keyless(Tag(m))
  {
  }

  lemma FifoLeads(h: seq<Item>, coalescedMax: int, maxPending: nat, k: nat)
    requires k < |FifoOf(h, maxPending)|
    ensures k < |BatchOf(h, coalescedMax, maxPending)|
    ensures BatchOf(h, coalescedMax, maxPending)[k] == FifoOf(h, maxPending)[k].message
  {
  }

  /** Messages with their identities, none left out. */
  function Tags(ms: seq<Message>): seq<Item> {
    seq(|ms|, i requires 0 <= i < |ms| => Tag(ms[i]))
  }

  /** What a subscriber has accepted carries its identity, and raised nothing. */
  predicate Tagged(items: seq<Item>) {
    forall i {:trigger items[i]} :: 0 <= i < |items| ==>
      items[i] == Tag(items[i].message) && !CoalesceKey(items[i].message).Raises?
  }

  class Subscriber {
    const maxPending: nat
    const coalescedMax: int
    var coalesced: seq<Slot>
    var fifo: seq<Item>
    var ready: bool
    var coalescedCount: nat
    var droppedCount: nat
    var filteredCount: nat
    var viewFilter: Option<Message -> bool>
    ghost var accepted: seq<Item>  // accepted since the last drain
    ghost var offered: nat
    ghost var drained: nat

    ghost predicate Valid()
      reads this
    {
      && coalesced == LaneOf(accepted, coalescedMax)
      && fifo == FifoOf(accepted, maxPending)
      && (coalesced != [] || fifo != [] ==> ready)
      && Tagged(accepted)
      && offered == filteredCount + coalescedCount + droppedCount + drained + |coalesced| + |fifo|
    }

    constructor (maxPending: nat, coalescedMax: int)
      ensures Valid() && accepted == [] && offered == 0 && drained == 0 && !ready && viewFilter.None?
      ensures this.maxPending == maxPending && this.coalescedMax == coalescedMax
    {
      this.maxPending, this.coalescedMax := maxPending, coalescedMax;
      coalesced, fifo, ready := [], [], false;
      coalescedCount, droppedCount, filteredCount, viewFilter := 0, 0, 0, None;
      accepted, offered, drained := [], 0, 0;
    }

    method SetViewFilter(viewFilter: Option<Message -> bool>)
      requires Valid()
      modifies this`viewFilter
      ensures Valid() && this.viewFilter == viewFilter
    {
      this.viewFilter := viewFilter;
    }

    predicate Passes(m: Message)
      reads this
    {
      viewFilter.None? || viewFilter.value(m)
    }

    /** Accept a message: filter it, coalesce it by key, or queue it; an error leaves everything as it was. */
    method Offer(m: Message) returns (raised: bool)
      requires Valid()
      modifies this
      ensures Valid() && viewFilter == old(viewFilter) && drained == old(drained)
      ensures raised <==> old(Passes(m)) && CoalesceKey(m).Raises?
      ensures raised ==> unchanged(this)
      ensures !raised ==> offered == old(offered) + 1
      ensures !raised ==> accepted == if old(Passes(m)) then old(accepted) + [Tag(m)] else old(accepted)
      ensures !raised ==> filteredCount == old(filteredCount) + if old(Passes(m)) then 0 else 1
      ensures !raised ==> coalescedCount == old(coalescedCount) +
                          if old(Passes(m)) && Tag(m).key.Some? && HasKey(old(coalesced), Tag(m).key.value) then 1 else 0
      ensures !raised ==> ready == (old(ready) || old(Passes(m)))
    {
      if !Passes(m) {
        filteredCount, offered := filteredCount + 1, offered + 1;
        return false;
      }
      raised := CoalesceKey(m).Raises?;
      if !raised {
        Accept(m);
      }
    }

    /** The half of `offer` behind the filter and the identity. */
    method Accept(m: Message)
      requires Valid() && !CoalesceKey(m).Raises?
      modifies this`coalesced, this`fifo, this`ready, this`coalescedCount, this`droppedCount, this`accepted, this`offered
      ensures Valid() && ready && offered == old(offered) + 1 && accepted == old(accepted) + [Tag(m)]
      ensures coalescedCount == old(coalescedCount) +
                                if Tag(m).key.Some? && HasKey(old(coalesced), Tag(m).key.value) then 1 else 0
    {
      var key := CoalesceKey(m);
      if key.Keyed? {
        Coalesce(key.key, m);
      } else {
        Enqueue(Item(None, m));
      }
      ready, offered := true, offered + 1;
    }

    /** The keyed half of `offer`: supersede the key's slot, or evict the oldest key and append. */
    method Coalesce(key: Key, m: Message)
      requires coalesced == LaneOf(accepted, coalescedMax) && fifo == FifoOf(accepted, maxPending)
      modifies this`coalesced, this`coalescedCount, this`droppedCount, this`accepted
      ensures accepted == old(accepted) + [Item(Some(key), m)]
      ensures coalesced == LaneOf(accepted, coalescedMax) && fifo == FifoOf(accepted, maxPending)
      ensures coalescedCount == old(coalescedCount) + if HasKey(old(coalesced), key) then 1 else 0
      ensures |coalesced| + coalescedCount + droppedCount == old(|coalesced| + coalescedCount + droppedCount) + 1
    {
      LaneStep(accepted, Item(Some(key), m), coalescedMax);
      FifoStep(accepted, Item(Some(key), m), maxPending);
      if HasKey(coalesced, key) {
        coalescedCount := coalescedCount + 1;
        coalesced := Put(coalesced, key, m);
      } else {
        if |coalesced| >= coalescedMax && coalesced != [] {
          coalesced := coalesced[1..];
          droppedCount := droppedCount + 1;
        }
        coalesced := coalesced + [Slot(key, m)];
      }
      accepted := accepted + [Item(Some(key), m)];
    }

    /** The keyless half of `offer`: append, then shed the oldest past the cap. */
    method Enqueue(item: Item)
      requires item.key.None? && coalesced == LaneOf(accepted, coalescedMax) && fifo == FifoOf(accepted, maxPending)
      modifies this`fifo, this`droppedCount, this`accepted
      ensures accepted == old(accepted) + [item]
      ensures coalesced == LaneOf(accepted, coalescedMax) && fifo == FifoOf(accepted, maxPending)
      ensures |fifo| + droppedCount == old(|fifo| + droppedCount) + 1
    {
      LaneStep(accepted, item, coalescedMax);
      FifoStep(accepted, item, maxPending);
      fifo := fifo + [item];
      while |fifo| > maxPending
        invariant accepted == old(accepted)
        invariant LastN(fifo, maxPending) == LastN(old(fifo) + [item], maxPending)
        invariant |fifo| + droppedCount == old(|fifo| + droppedCount) + 1
      {
        LastNConcat([fifo[0]], fifo[1..], maxPending);
        assert [fifo[0]] + fifo[1..] == fifo;
        fifo, droppedCount := fifo[1..], droppedCount + 1;
      }
      accepted := accepted + [item];
    }

    /** Hand out everything pending, the FIFO lane first. */
    method Drain() returns (batch: seq<Message>)
      requires Valid()
      modifies this
      ensures Valid() && accepted == [] && !ready && viewFilter == old(viewFilter)
      ensures batch == BatchOf(old(accepted), coalescedMax, maxPending)
      ensures drained == old(drained) + |batch| && offered == old(offered)
      ensures coalescedCount == old(coalescedCount) && droppedCount == old(droppedCount) && filteredCount == old(filteredCount)
    {
      batch := ItemMessages(fifo);
      batch := batch + SlotMessages(coalesced);
      coalesced, fifo, ready := [], [], false;
      drained, accepted := drained + |batch|, [];
    }
  }

  class Hub {
    const maxPending: nat
    const coalescedMax: int
    var subscribers: set<Subscriber>

    ghost predicate Valid()
      reads this, subscribers
    {
      forall s :: s in subscribers ==> s.Valid()
    }

    constructor (maxPending: nat, coalescedMax: int)
      ensures Valid() && subscribers == {} && this.maxPending == maxPending && this.coalescedMax == coalescedMax
    {
      this.maxPending, this.coalescedMax, subscribers := maxPending, coalescedMax, {};
    }

    method Subscribe() returns (s: Subscriber)
      requires Valid()
      modifies this
      ensures Valid() && fresh(s) && subscribers == old(subscribers) + {s}
      ensures s.accepted == [] && s.viewFilter.None? && s.maxPending == maxPending && s.coalescedMax == coalescedMax
    {
      s := new Subscriber(maxPending, coalescedMax);
      subscribers := subscribers + {s};
    }

    method Unsubscribe(s: Subscriber)
      requires Valid()
      modifies this
      ensures Valid() && subscribers == old(subscribers) - {s}
    {
      subscribers := subscribers - {s};
    }

    method OfferTo(s: Subscriber, m: Message) returns (raised: bool)
      requires s.Valid()
      modifies s
      ensures s.Valid() && (raised <==> old(s.Passes(m)) && CoalesceKey(m).Raises?)
      ensures if raised then unchanged(s) else Skipped(s, m)
    {
      raised := s.Offer(m);
    }

    /**
     Every client gets the message by its own filter, whatever state the others are in. A payload
     without an identity to look up raises at the first client that lets it pass: nobody gets it.
     */
    method Publish(m: Message) returns (raised: bool)
      requires Valid()
      modifies subscribers
      ensures Valid()
      ensures raised <==> CoalesceKey(m).Raises? && exists s :: s in subscribers && old(s.Passes(m))
      ensures !raised ==> forall s :: s in subscribers ==> Received(s, m)
      ensures raised ==> forall s :: s in subscribers ==> unchanged(s) || (!old(s.Passes(m)) && Received(s, m))
    {
      hide Subscriber.Valid;
      var todo := subscribers;
      while todo != {}
        invariant todo <= subscribers
        invariant Valid()
        invariant forall s {:trigger s in todo} :: s in todo ==> unchanged(s)
        invariant forall s {:trigger s in subscribers} :: s in subscribers && s !in todo ==> Skipped(s, m)
        decreases todo
      {
        var s :| s in todo;
        raised := OfferTo(s, m);
        if raised {
          return;
        }
        todo := todo - {s};
      }
      raised := false;
    }
  }

  /** And where the lookup of `m` would raise, its filter has kept it out. */
  twostate predicate Skipped(s: Subscriber, m: Message)
    reads s
  {
    Received(s, m) && (CoalesceKey(m).Raises? ==> !old(s.Passes(m)))
  }

  /** Since the old state the subscriber has been offered exactly `m`. */
  twostate predicate Received(s: Subscriber, m: Message)
    reads s
  {
    && s.accepted == (if old(s.Passes(m)) then old(s.accepted) + [Tag(m)] else old(s.accepted))
    && s.viewFilter == old(s.viewFilter) && s.drained == old(s.drained) && s.offered == old(s.offered) + 1
  }
}
