/** What the fan-out takes for the same thing, told by the JSON of the messages. */
module Identities {
  import opened Sequences
  import opened JsonValues
  import opened Lanes
  import opened LaneTheorems
  import opened Broadcaster

  /** A field, or null where it is absent. */
  function FieldOrNull(fields: map<string, Json>, name: string): Json {
    if name in fields then fields[name] else Null
  }

  /** An aggregate is known by its geohash, or by its bucket when it has none that counts as true. */
  function AggregateId(fields: map<string, Json>): Json {
    if Lacks(fields, "geohash") then FieldOrNull(fields, "bucket") else fields["geohash"]
  }

  /** A clean event is known by its sensor. */
  function SensorId(fields: map<string, Json>): Json {
    FieldOrNull(fields, "sensor_id")
  }

  function Aggregate(fields: map<string, Json>): Message {
    Message("aggregated", Object(fields))
  }

  function Clean(fields: map<string, Json>): Message {
    Message("clean", Object(fields))
  }

  predicate IsKey(id: Json) {
    id.Bool? || id.Number? || id.Text?
  }

  /** What becomes of a message known by `id`: null names nothing, lists and objects cannot be looked up. */
  predicate LookedUp(identity: Identity, id: Json) {
    && (identity.NoIdentity? <==> id.Null?)
    && (identity.Keyed? <==> IsKey(id))
    && (identity.Raises? <==> id.Array? || id.Object?)
  }

  lemma AggregateIsLookedUp(f: map<string, Json>)
    ensures LookedUp(CoalesceKey(Aggregate(f)), AggregateId(f))
    ensures CoalesceKey(Aggregate(f)).Keyed? ==> CoalesceKey(Aggregate(f)).key == Key("aggregated", AsKey(AggregateId(f)))
  {
    LacksIff(f, "geohash");
  }

  lemma CleanIsLookedUp(f: map<string, Json>)
    ensures LookedUp(CoalesceKey(Clean(f)), SensorId(f))
    ensures CoalesceKey(Clean(f)).Keyed? ==> CoalesceKey(Clean(f)).key == Key("clean", AsKey(SensorId(f)))
  {
  }

  /** Two aggregates supersede each other exactly when they are known by one dictionary key. */
  lemma AggregatesShareKeyIff(f: map<string, Json>, g: map<string, Json>)
    requires IsKey(AggregateId(f)) && IsKey(AggregateId(g))
    ensures CoalesceKey(Aggregate(f)) == CoalesceKey(Aggregate(g)) <==> SameKey(AggregateId(f), AggregateId(g))
  {
    AggregateIsLookedUp(f);
    AggregateIsLookedUp(g);
    SameKeyIff(AggregateId(f), AggregateId(g));
  }

  /** Two clean events supersede each other exactly when their sensors are one dictionary key. */
  lemma CleanEventsShareKeyIff(f: map<string, Json>, g: map<string, Json>)
    requires IsKey(SensorId(f)) && IsKey(SensorId(g))
    ensures CoalesceKey(Clean(f)) == CoalesceKey(Clean(g)) <==> SameKey(SensorId(f), SensorId(g))
  {
    CleanIsLookedUp(f);
    CleanIsLookedUp(g);
    SameKeyIff(SensorId(f), SensorId(g));
  }

  /** Everything else: other kinds are never looked up, and a payload that is no object has nothing to look up. */
  lemma OthersHaveNoKey(m: Message)
    ensures m.kind != "clean" && m.kind != "aggregated" ==> CoalesceKey(m) == NoIdentity
    ensures (m.kind == "clean" || m.kind == "aggregated") && !m.data.Object? ==>
              CoalesceKey(m) == if m.data in {Null, Bool(false), Number(0.0), Text(""), Array([])} then NoIdentity else Raises
  {
  }

  // ---------------------------------------------------------------- in the lanes

  /** `m` is an aggregate known by `id`. */
  predicate IsAggregateOf(m: Message, id: Json) {
    m.kind == "aggregated" && m.data.Object? && IsKey(AggregateId(m.data.fields)) && SameKey(AggregateId(m.data.fields), id)
  }

  /** Which messages the lane holds under the key of an identifier. */
  lemma KeyIsOf(m: Message, id: Json)
    requires IsKey(id)
    ensures Tag(m).key == Some(Key("aggregated", AsKey(id))) <==> IsAggregateOf(m, id)
  {
    if m.kind == "aggregated" && m.data.Object? {
      assert m == Aggregate(m.data.fields);
      AggregateIsLookedUp(m.data.fields);
      SameKeyIff(AggregateId(m.data.fields), id);
    } else if m.kind == "clean" && m.data.Object? {
      assert m == Clean(m.data.fields);
      CleanIsLookedUp(m.data.fields);
    } else {
      OthersHaveNoKey(m);
    }
  }

  /** `i` holds the newest aggregate of its identifier. */
  ghost predicate IsNewestOf(ms: seq<Message>, id: Json, i: nat) {
    && i < |ms| && IsAggregateOf(ms[i], id)
    && forall j {:trigger ms[j]} :: i < j < |ms| ==> !IsAggregateOf(ms[j], id)
  }

  lemma NewestIsLast(ms: seq<Message>, id: Json, i: nat)
    requires IsKey(id) && IsNewestOf(ms, id, i)
    ensures LastUpdate(Tags(ms), Key("aggregated", AsKey(id))) == i
  {
    var h, k := Tags(ms), Key("aggregated", AsKey(id));
    KeyIsOf(ms[i], id);
    assert h[i] == Tag(ms[i]);
    forall j | i < j < |h| ensures h[j].key != Some(k) {
      KeyIsOf(ms[j], id);
    }
  }

  /**
   After any offers the next batch holds the newest aggregate of an identifier, unless as many
   other keys as the lane holds were updated since; then the lane holds none of it.
   */
  lemma NewestAggregateIsSent(ms: seq<Message>, coalescedMax: int, maxPending: nat, id: Json, i: nat)
    requires IsKey(id) && IsNewestOf(ms, id, i)
    ensures var h, k := Tags(ms), Key("aggregated", AsKey(id));
            if |LaterKeys(h, k)| < LaneBound(coalescedMax)
            then Slot(k, ms[i]) in LaneOf(h, coalescedMax) && ms[i] in BatchOf(h, coalescedMax, maxPending)
            else !HasKey(LaneOf(h, coalescedMax), k)
  {
    var h, k := Tags(ms), Key("aggregated", AsKey(id));
    NewestIsLast(ms, id, i);
    PendingIff(h, coalescedMax, k);
    if |LaterKeys(h, k)| < LaneBound(coalescedMax) {
      InBatch(h, coalescedMax, maxPending, Slot(k, ms[i]));
    }
  }

  lemma InBatch(h: seq<Item>, coalescedMax: int, maxPending: nat, slot: Slot)
    requires slot in LaneOf(h, coalescedMax)
    ensures slot.message in BatchOf(h, coalescedMax, maxPending)
  {
    var lane, fifo := LaneOf(h, coalescedMax), FifoOf(h, maxPending);
    var j :| 0 <= j < |lane| && lane[j] == slot;
    assert BatchOf(h, coalescedMax, maxPending)[|fifo| + j] == slot.message;
  }

  /** The keys that count against it are those of other identifiers and of clean events. */
  lemma OtherIdentifiersCount(ms: seq<Message>, id: Json, i: nat, j: nat)
    requires IsKey(id) && IsNewestOf(ms, id, i) && i < j < |ms|
    ensures CoalesceKey(ms[j]).Keyed? ==> CoalesceKey(ms[j]).key in LaterKeys(Tags(ms), Key("aggregated", AsKey(id)))
  {
    var h, k := Tags(ms), Key("aggregated", AsKey(id));
    NewestIsLast(ms, id, i);
    if CoalesceKey(ms[j]).Keyed? {
      var later := h[i + 1..];
      assert later[j - i - 1] == h[j] == Tag(ms[j]);
      KeysOfMembers(later, CoalesceKey(ms[j]).key);
    }
  }
}
