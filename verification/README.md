# Verified model of the radiation pipeline

A Dafny 4.11 model of the stateful logic of a streaming radiation map: Safecast rows are replayed
into Kafka, Flink operators clean, window and reduce them, a FastAPI backend fans the results out to
browsers and takes configuration back, and a sink archives aggregated blobs in Postgres. The model
covers the small protocols between these parts and the operators' own state machines, and proves what
they promise over all inputs, runs and interleavings. `dafny verify dfyconfig.toml` checks everything.

| file | component | main results |
|---|---|---|
| `JsonValues`, `SinkTable`, `SinkProtocol`, `AggregatedSink`, `SinkRecords`, `SinkWitnesses` | the Postgres sink | any schedule of batches, crashes and restarts ends in the table of one clean pass; exactly when polls of one size, and when any polls at all, commit the log; when a replay reverts a row; which JSON is stored, as what, and that all else changes nothing |
| `Lanes`, `LaneTheorems`, `Broadcaster`, `Identities` | backpressure fan-out | the lanes are functions of the history since the last drain; delivery is conserved; the drain schedule is irrelevant except to keys pushed out of the lane |
| `RingBuffer` | recent events, cursor paging | a walk through the pages never repeats, never looks past its start, delivers what is still buffered, and ends |
| `CatchUp`, `MissedKeys`, `Stream`, `Forwarding`, `StreamSession` | snapshot, then live stream | at every moment client, unsent data and pending lane together hold the newest event of each key, exactly which keys miss theirs, and the program runs as that protocol; which records end the consume loop |
| `ConfigOperators`, `ConfigProtocol`, `ConfigHistory` | config back-channel | warn < danger everywhere, agreement outside the lock, each field the last one set, for every interleaving |
| `Multiples`, `EventTimeWindows`, `WindowOperator`, `UnparseableTimestamps` | watermarks and windows | streaming windows equal batch windows under the bound on disorder, and the bound is sharp; exactly when a record without a timestamp costs an event |
| `JobStreams` | from the raw topic to the windows | malformed records leave the windows alone, the whole job equals the batch computation, and exactly which records stop it |
| `AlertDetection`, `AlertCooldown`, `AlertPipeline` | sustained-high alerts | independence of arrival order up to ties; the cooldown is a maximum-size choice; every burst is reported |
| `TrendDetector` | rising-trend alerts | alerts are disjoint climbs, every climb is reported, and exactly how many there are |
| `Statistics`, `GeoAggregation`, `BlobStatistics`, `NullCpm` | per-cell aggregation | counts add up over any partition; the mean of means within its rounding; exactly which patterns of null CPMs leave it alone |
| `AggregationPipeline` | the aggregation branch | blobs, rolling statistics and trend alerts of a cell do not depend on arrival order |
| `RollingStats`, `ZScoreTheorems`, `ScoredWindows` | rolling z-score | every output told by the windows before it; Samuelson's bound, invariance, when there is no score, restart at any point |
| `HistoryDb`, `HistoryInsights`, `GroupAggregates` | archive queries | the SQL filter selects exactly the rows that pass; newest windows; totals and means; determined peaks |
| `StableSort`, `CsvReader`, `ReplayOrder` | CSV replay | a permutation in stably sorted blocks, no row moves a block's length, resuming continues the output; exactly which files reach the windows within their bound |
| `KafkaSecurity` | credentials | both escaping passes are one, and a reader recovers every credential |
| `SensorDedup` | duplicate suppression | the output is the first-occurrence subsequence; replays and restarts are invisible |

Objects that the program updates in place are classes, tied by `Valid()` to a ghost history of what
happened to them; the theorems are about functions of such histories. Floating-point numbers are
reals: where rounding matters it is a parameter with a stated bound. Times are integers, in
milliseconds where the unit matters.

## What the proofs found

- The Kafka sink of the aggregation job is AT_LEAST_ONCE (`flink-jobs/radiation_tracking_job.py:180-192`),
  so after a recovery one blob can be in the topic twice. The sink's documentation has such records
  collapse onto one row (`aggregated_sink/db.py:3-7`), but when both are polled into one 100-row INSERT
  page Postgres refuses the statement: the batch is rolled back, and retried with the same result for
  as long as polls cut the log the same way (`RedeliveryPoisonsABatch`). Polls of one size ever commit
  the log if and only if no batch they cut has a page that repeats a key, a value that its column does
  not take, such as a `window_start` that is no instant, or a message that is no UTF-8
  (`CatchesUpIff`); polling one by one gets past the first, and no schedule past the others
  (`SomeScheduleCatchesUpIff`). The re-firing of a late window that the documentation also names does
  not arise: no lateness is allowed, and each window fires once (`EveryWindowFiresOnce`).
- A replay can temporarily put an older row back, but only with batches larger than one page
  (`SmallBatchesNeverRevert`, `LargeBatchCanRevert`). The default batch is 200 rows, two pages
  (`aggregated_sink/config.py:40`).
- The coalescing lane holds one key even when configured to hold none; its bound is
  `max(1, coalesced_max)`.
- An unparseable timestamp counts as 0 and is documented as unable to advance the watermark
  (`flink-jobs/operators/watermark.py:50-54`). At the source it can (`WatermarkWith`,
  `UnparseableAtTheSource`). A window directly behind the source would lose an event to it if and only
  if, after a watermark emitted behind it, the event arrives for a window that ended by the epoch minus
  the bound and that the other records had not closed (`UnparseableIsHarmlessIff`). The job has no such
  window: both branches assign watermarks anew behind the parser, and there the record changes nothing
  (`UnparseableRecordInTheJob`).
- `_parse_record` is meant to keep a malformed record from looping the job forever
  (`flink-jobs/radiation_tracking_job.py:64-67`), and the source's assigner to tolerate every payload
  (`flink-jobs/operators/watermark.py:50-52`). A `captured_at` that is JSON but no string, such as 5,
  raises an `AttributeError` in both, which neither catches; in the parser such an `uploaded_at` does
  too, and an integer coordinate beyond the range of a float overflows. The job restarts at its
  checkpoint and never gets past the record: some schedule reads the topic if and only if it holds none
  (`FatalIff`, `TopicIsReadIff`).
- A bad event is meant not to end the backend's consume loop (`backend/app/core/kafka_consumer.py:52-53`).
  An aggregate that is truthy but no object, such as `[1]`, or that is identified by a list or an object,
  raises in the lookup of its coalescing key at the first client it would reach; an alert or aggregate of
  undecodable bytes raises in its handler. The loop ends there, and nothing behind it is forwarded
  (`ConsumeLoop`, `RaisingIff`).
- Block sorting of the CSV is documented as keeping disorder well within the 30 seconds of slack
  (`data-provider/csv_reader.py:16-19`). For any order column that holds if and only if, of two rows read
  into one block, the one whose key comes later is never more than the bound older, and no row behind a
  block boundary is more than the bound older than one in front of it (`StreamedWithinIff`,
  `ReplayIsBounded`). By capture time only the boundaries can fail (`OrderedByTimeIff`,
  `LateRowBreaksTheBound`); by upload time, as preferred, a block can too (`UploadOrderBreaksTheBound`).
- The location of an alert does not depend on arrival order exactly when the latest breaches of the
  window are in one place (`DetectIgnoresOrder`, `TieIsDecidedByOrder`).
- The count-weighted mean of the archive is the mean of the readings when no reading has a null CPM
  (`MeanOfMeans`). With null CPMs, which weigh in the count but not in the average, it is so for every
  choice of the values if and only if each blob has its proportional share of them: c(i) * K = k(i) * C
  for the events c and the values k of each blob and their totals C and K (`NullPatternIsHarmlessIff`,
  `OneNullIsNotProportional`). The job drops such events before it aggregates
  (`flink-jobs/radiation_tracking_job.py:131`); the reduction by itself counts them.
- A message that a client's lane never delivered may still have reached it in the snapshot; apart from
  that, convergence fails exactly for the keys whose newest message was pushed out (`ConvergesIff`).
- A rolling z-score against a baseline that includes the scored window could not reach the default
  threshold of 3 with fewer than ten samples (`SelfScoreNeverFlags`, `TenSamplesCanFlag`).
- An update cannot clear an area or a timespan: null and absent both mean "keep", so the filters only
  ever go from unset to set or from one value to another (`FiltersAreNeverCleared`).
- `FLINK_ROLLING_WINDOWS=0` keeps the whole history and a negative value keeps none
  (`StateIsRecentHistory`).

## Model

| member | source | states |
|---|---|---|
| `SinkProtocol.RunKeepsInvariant` | aggregated_sink/consumer.py:31-49 | Safety over every schedule of polls, faults and restarts: the committed offset is never past what the table holds, every well-formed record below the highest durable offset has its row, and no key is older than its last record below the read position |
| `SinkProtocol.RunKeepsInvariantFrom` | aggregated_sink/consumer.py:52-103 | The same from any state that satisfies it; the committed offset and the log only grow |
| `SinkProtocol.StepKeepsInvariant` | aggregated_sink/consumer.py:31-49 | Every step keeps that invariant, and offset, durable mark and log never go back |
| `SinkProtocol.DurableBatch` | aggregated_sink/db.py:155-164 | A batch that becomes durable, replayed or new, brings the table up to its last record |
| `SinkProtocol.LowerBound` | aggregated_sink/consumer.py:31-49 | A restart at a lower offset asks less of the table, so it cannot break the invariant |
| `SinkProtocol.UpsertLookup` | aggregated_sink/db.py:73-77 | After upserting a stretch of the log a key is untouched, or holds its last record there |
| `SinkProtocol.AtHighWater` | aggregated_sink/db.py:3-7 | Whenever the read position is the highest durable offset, the table is one latest-wins pass over the log, whatever replays came before |
| `SinkProtocol.ExactlyOnceForTheTable` | aggregated_sink/consumer.py:31-49 | Two schedules that have read the same log, however they crashed, leave the same table |
| `SinkProtocol.SmallBatchesNeverRevert` | aggregated_sink/db.py:155-164 | While polls return at most one INSERT page, the table is at every moment the latest-wins pass up to the highest durable offset: no replay reverts a row |
| `SinkProtocol.OnePage` | aggregated_sink/db.py:155-164 | A batch of one page is accepted only if its records have pairwise different keys |
| `SinkProtocol.ReplayOfFirstRecord` | aggregated_sink/db.py:155-164 | When the first and the last record of an accepted batch have one key and different contents, a crash after the commit and a smaller replay put the older row back |
| `SinkWitnesses.LargeBatchCanRevert` | aggregated_sink/db.py:155-164 | The page is the exact limit: 101 blobs of one cell, the last one the first window again, are stored in one batch, and a replay of the first puts its older row back |
| `SinkProtocol.CatchesUpIff` | aggregated_sink/consumer.py:31-49 | From any reachable state, polls of one size commit the whole log after some number of retries if and only if every batch they cut from it is storable: no page repeats a key, every value fits its column and every message is UTF-8 |
| `SinkProtocol.OneByOneIff` | aggregated_sink/consumer.py:31-49 | Polling one record at a time gets past everything but a message that the database or the decoder refuses by itself |
| `SinkProtocol.PoisonStopsEverySchedule` | aggregated_sink/consumer.py:31-49 | No schedule of polls, faults and restarts commits past such a message |
| `SinkProtocol.SomeScheduleCatchesUpIff` | aggregated_sink/consumer.py:31-49 | Some schedule commits the whole log if and only if no such message is left in it |
| `SinkWitnesses.RedeliveryPoisonsABatch` | aggregated_sink/db.py:3-7 | Against the documentation: one blob delivered twice and polled together is never stored, however often it is retried, although polling one by one stores it |
| `SinkWitnesses.NoInstantStopsTheSink` | aggregated_sink/db.py:41-65 | A blob whose window_start is no instant is well-formed to the mapping, and no schedule ever commits past it |
| `SinkProtocol.PoisonBatchNeverAdvances` | aggregated_sink/consumer.py:31-49 | A batch that repeats a key inside a page, or holds what the database refuses, is retried forever without effect |
| `SinkProtocol.CleanRunCatchesUp` | aggregated_sink/consumer.py:52-103 | From any reachable state, enough accepted polls make the table exact and commit the whole log |
| `SinkTable.UpsertConcat` | aggregated_sink/db.py:155-164 | Upserting page after page is upserting all the rows |
| `SinkTable.PageStep` | aggregated_sink/db.py:155-164 | Checking each page by itself decides whether the batch is accepted |
| `AggregatedSink.Decode` | aggregated_sink/consumer.py:20-28 | The decoded values are the JSON messages, in order |
| `AggregatedSink.BuildRows` | aggregated_sink/db.py:119-127 | What the tuples ask of the database is what the records ask, in order, without those that ask nothing |
| `AggregatedSink.RowHoldsItsRecord` | aggregated_sink/db.py:80-116 | Of a JSON object: each column of the value tuple, in the order of the INSERT, holds the record field of its name, and a tuple is made exactly when the key fields are truthy and the count is not null |
| `SinkRecords.SkippedIff` | aggregated_sink/db.py:80-90 | On the JSON alone: a value is skipped exactly when it is no object, or its geohash or window_start is absent, null, false, 0, "", [] or {}, or its count is absent or null, whatever the columns take |
| `SinkRecords.PoisonIff` | aggregated_sink/db.py:80-116 | Of all messages, exactly the undecodable ones and the complete records that a column refuses stop a batch |
| `SinkRecords.WrittenRow` | aggregated_sink/db.py:41-116 | A record that is written stands under the key the columns read from it, with the field of its own name in each of the seventeen columns, the class counts from the object under class_counts |
| `SinkRecords.IncompleteAsksNothing` | aggregated_sink/db.py:119-127 | A value that is no complete record asks for nothing, wherever it is in the log |
| `SinkRecords.SkippedMessagesStopNothing` | aggregated_sink/consumer.py:52-103 | Over whole runs: of two logs that differ in skipped messages only, some schedule commits the one if and only if some schedule commits the other |
| `SinkRecords.TableOnceRead` | aggregated_sink/db.py:3-7 | And any schedule that has read the log leaves the newest row of each key among the messages that ask for one |
| `AggregatedSink.DecodedAsks` | aggregated_sink/consumer.py:20-28 | Dropping what is no JSON before mapping asks the database for the same rows, and the same refusals |
| `AggregatedSink.AskedIsEnough` | aggregated_sink/db.py:119-127 | Skipped records neither add a row nor keep a batch from being stored |
| `AggregatedSink.Connection.TypesTake` | aggregated_sink/db.py:41-65 | The page is type-correct exactly when no value is one its column refuses |
| `AggregatedSink.Connection.ExecutePage` | aggregated_sink/db.py:73-77 | One INSERT statement succeeds exactly when every value fits its column and its conflict keys differ, and then upserts its rows in order; a failed one has no effect |
| `AggregatedSink.UpsertBatch` | aggregated_sink/db.py:155-164 | All rows or none: stored and counted exactly when every value fits its column and no page repeats a key, otherwise the table is as before |
| `AggregatedSink.ProcessBatch` | aggregated_sink/consumer.py:31-49 | The offset is committed only after the rows are; for every fault, refusal and undecodable message what table and offset become |
| `AggregatedSink.RunOnce` | aggregated_sink/consumer.py:80-103 | One turn of the program, restarted when it dies, is exactly one protocol step |
| `AggregatedSink.RunSink` | aggregated_sink/consumer.py:52-103 | Whatever messages arrive and however it polls, fails and dies, over a batch or between two, the program runs exactly as the protocol does |
| `Lanes.LaneStep` | backend/app/core/broadcaster.py:94-110 | Every offer takes the lane from its value on the old history to its value on the new one: supersede and move last, evict the least recently updated, or append; a bound of zero still holds one key |
| `Lanes.FifoStep` | backend/app/core/broadcaster.py:111-118 | The FIFO lane stays the last max_pending keyless messages |
| `Lanes.PutThenCut` | backend/app/core/broadcaster.py:94-110 | Keeping only the newest keys commutes with an update, also when an evicted key returns |
| `LaneTheorems.LaneOrdered` | backend/app/core/broadcaster.py:94-110 | The lane lists at most max(1, coalesced_max) keys, in order of last update, each with its newest message |
| `LaneTheorems.PendingIff` | backend/app/core/broadcaster.py:94-110 | The newest message of a key is pending if and only if fewer than the bound of other keys were updated after it |
| `LaneTheorems.UpdatesSplit` | backend/app/core/broadcaster.py:94-110 | In order of last update a key is followed by exactly the keys updated after it |
| `LaneTheorems.UpdatesOrdered` | backend/app/core/broadcaster.py:94-110 | Without a bound the lane would list every key, in order of last update, with its newest message |
| `LaneTheorems.DrainOneKey` | backend/app/core/broadcaster.py:121-132 | A drained batch gives a client the newest message of a key, or leaves its old one exactly when the bound of other keys overtook it |
| `LaneTheorems.ApplyAllLookup` | backend/app/core/broadcaster.py:9-11 | Applying all messages leaves a client with the last one of each key |
| `LaneTheorems.PlayLookup` | backend/app/core/broadcaster.py:89-132 | At any moment of any interleaving of offers and drains a client shows, of each key, the message last delivered, and which one that is |
| `LaneTheorems.DrainScheduleIrrelevant` | backend/app/core/broadcaster.py:89-132 | For every interleaving ending in a drain, each key that was not pushed out of the lane ends as if every message had been applied |
| `LaneTheorems.DrainScheduleIrrelevantIff` | backend/app/core/broadcaster.py:89-132 | And the condition is exact: when no message of a key repeats, a key that was pushed out shows something older, or nothing |
| `LaneTheorems.NewestDeliveredIff` | backend/app/core/broadcaster.py:89-132 | The message last delivered is the newest one exactly when none is waiting and none was pushed out |
| `LaneTheorems.KeylessPendingIff` | backend/app/core/broadcaster.py:111-118 | A keyless message is pending exactly while fewer than max_pending keyless ones follow it, that many places from the end |
| `LaneTheorems.FewKeysLoseNothing` | backend/app/core/broadcaster.py:12-16 | With no more distinct keys than the bound, no key is ever pushed out |
| `LaneTheorems.LaterKeysProper` | backend/app/core/broadcaster.py:94-110 | The keys counted against a key are other keys of the history |
| `Broadcaster.KindsDoNotMix` | backend/app/core/broadcaster.py:48-63 | A message supersedes only messages of its own kind |
| `Identities.AggregatesShareKeyIff` | backend/app/core/broadcaster.py:48-63 | On the JSON fields: two aggregates supersede each other exactly when their identifiers, the geohash or the bucket where that is absent or falsy, are one dictionary key |
| `Identities.CleanEventsShareKeyIff` | backend/app/core/broadcaster.py:48-63 | Two clean events exactly when their sensor_id is one dictionary key |
| `JsonValues.SameKeyIff` | backend/app/core/broadcaster.py:48-63 | Values are one dictionary key when they are equal, where true and false equal the numbers 1 and 0 |
| `Identities.OthersHaveNoKey` | backend/app/core/broadcaster.py:48-63 | Alerts and other kinds have no key whatever they hold; a clean event or an aggregate that is no object has none when it is falsy, and raises otherwise |
| `Identities.NewestAggregateIsSent` | backend/app/core/broadcaster.py:89-132 | After any offers the next batch holds the newest aggregate of every identifier, unless as many other keys as the lane holds were updated since; then the lane holds none of it |
| `Identities.OtherIdentifiersCount` | backend/app/core/broadcaster.py:94-110 | What counts against it are the keys of other identifiers and of clean events |
| `Broadcaster.UnidentifiedIsPendingIff` | backend/app/core/broadcaster.py:48-63 | Alerts, and everything without an identity, are never merged away: such a message is in the next batch exactly while fewer than max_pending of its sort came after it, whatever else was updated |
| `Broadcaster.Subscriber.Offer` | backend/app/core/broadcaster.py:89-119 | Filtered messages are only counted; others extend the history the lanes stand for, each under the key it is looked up by; offered = filtered + coalesced + dropped + drained + pending, and pending data implies ready; a payload whose identity cannot be looked up raises and changes nothing |
| `Broadcaster.Subscriber.Coalesce` | backend/app/core/broadcaster.py:94-110 | The keyed half keeps lane and history in step and accounts for one message |
| `Broadcaster.Subscriber.Enqueue` | backend/app/core/broadcaster.py:111-119 | The keyless half keeps the FIFO and the history in step and accounts for one message |
| `Broadcaster.Subscriber.Drain` | backend/app/core/broadcaster.py:121-132 | A batch is the FIFO lane, then the lane of the history; afterwards nothing is pending or ready |
| `Broadcaster.Hub.Publish` | backend/app/core/broadcaster.py:157-160 | Every subscriber is offered the message exactly once, by its own filter, whatever the others' state; it raises exactly when the identity cannot be looked up and some client would get the message, and then nobody does |
| `RingBuffer.RingBuffer.Append` | backend/app/core/ring_buffer.py:50-52 | The buffer is the last maxsize events ever appended, numbered from zero |
| `RingBuffer.RingBuffer.Recent` | backend/app/core/ring_buffer.py:54-58 | The newest events of the whole history that both limit and buffer allow, oldest first |
| `RingBuffer.RingBuffer.PageAt` | backend/app/core/ring_buffer.py:60-95 | A page, its has_more and its next cursor in terms of the history: matching, still buffered, below the cursor |
| `RingBuffer.CandidatesAre` | backend/app/core/ring_buffer.py:83-87 | Filtering the deque by cursor and view filter gives the matching events of the history by number |
| `RingBuffer.TakenThen` | backend/app/core/ring_buffer.py:60-95 | Later appends do not change what a page could show |
| `RingBuffer.PageShows` | backend/app/core/ring_buffer.py:60-95 | A page shows matching, buffered events below the cursor, in order |
| `RingBuffer.PageLeaves` | backend/app/core/ring_buffer.py:88-95 | The next cursor leaves exactly the matching events not yet shown |
| `RingBuffer.WalkShows` | backend/app/core/ring_buffer.py:68-80 | A walk by next cursor never shows an event appended after it began |
| `RingBuffer.WalkDescends` | backend/app/core/ring_buffer.py:68-80 | No event is shown twice: every page is older than all pages before it |
| `RingBuffer.WalkDelivers` | backend/app/core/ring_buffer.py:68-80 | A finished walk shows a matching event on the page that reaches down to it if and only if it is still buffered then |
| `RingBuffer.WalkLength` | backend/app/core/ring_buffer.py:68-80 | Under any appends and evictions a walk from m matching events ends within ceil(m / limit) pages |
| `RingBuffer.PagesNeededIsCeiling` | backend/app/core/ring_buffer.py:68-80 | That number of pages is the ceiling |
| `RingBuffer.NextPageCandidates` | backend/app/core/ring_buffer.py:83-87 | Between two pages events only arrive above the cursor and leave at the bottom: the next page chooses from what the last one left, less exactly the events evicted in between |
| `RingBuffer.QuietWalk` | backend/app/core/ring_buffer.py:68-80 | On a quiet buffer the pages concatenate to the filtered buffer |
| `CatchUp.RunKeepsInvariant` | backend/app/routers/stream.py:109-134 | Every interleaving of publishing, snapshot, sending and flushing keeps the convergence invariant |
| `CatchUp.StepKeepsInvariant` | backend/app/routers/stream.py:109-134 | Every step keeps it |
| `CatchUp.CatchUpConverges` | backend/app/routers/stream.py:109-124 | At every moment, client overlaid with unsent data and then the pending lane holds for each key not missed the newest message of the snapshot window or since the subscription |
| `MissedKeys.ConvergesIff` | backend/app/routers/stream.py:109-134 | The exact form: when no key is published with one message twice, they hold a key's newest message if and only if no batch missed it or the snapshot carried that very message |
| `MissedKeys.RunKeepsKey` | backend/app/routers/stream.py:109-134 | Behind it, for every run and key: what was sent is the newest message exactly when it was drained or in the snapshot |
| `CatchUp.FewKeysMissNothing` | backend/app/routers/stream.py:109-124 | While no more keys arrive than the lane holds, no key is ever missed |
| `CatchUp.DrainKeepsKey` | backend/app/routers/stream.py:50-56 | A flush loses no key that the lane still held |
| `CatchUp.BatchApplies` | backend/app/routers/stream.py:50-56 | To the client's map a batch is its coalesced lane: keyless messages do not disturb it |
| `CatchUp.KeylessLead` | backend/app/core/broadcaster.py:28-30 | Alerts lead every batch: nothing keyed comes before anything keyless |
| `Stream.HandleClean` | backend/app/core/kafka_consumer.py:48-61 | Append, then publish; a malformed event does neither |
| `Stream.HandleJson` | backend/app/core/kafka_consumer.py:64-84 | JSON is forwarded as it came, what is no JSON is dropped, and undecodable bytes raise; so does a payload without an identity to look up, and nobody gets it |
| `Stream.PublishOne` | backend/app/core/broadcaster.py:157-160 | One published message extends every client's stream by it and counts as one offer, or raises and reaches nobody |
| `Stream.Handle` | backend/app/core/kafka_consumer.py:92-101 | A record reaches the handler of its topic; unknown topics change nothing |
| `Stream.ConsumeLoop` | backend/app/core/kafka_consumer.py:87-103 | The buffer and every client are extended by the same stream, malformed records left out, up to the first record that cannot be decoded or on which a client's lookup raises: that one ends the loop, and nobody gets it |
| `Stream.EventsArePublished` | backend/app/core/kafka_consumer.py:58-61 | The clean messages published are the events appended, one by one and in order |
| `Forwarding.AlertsAreForwarded` | backend/app/core/kafka_consumer.py:64-84 | The alerts sent are the JSON of the alerts topic, unchanged and in order |
| `Forwarding.AggregatesAreForwarded` | backend/app/core/kafka_consumer.py:64-84 | The aggregates sent are that of the aggregated topic |
| `Forwarding.EventsAreForwarded` | backend/app/core/kafka_consumer.py:48-61 | The clean messages sent are the valid events of the clean topic, each with all its fields and its sensor under sensor_id |
| `Forwarding.NothingElseIsSent` | backend/app/core/kafka_consumer.py:92-101 | And nothing else is sent |
| `Stream.SendAll` | backend/app/routers/stream.py:50-56 | Sending a list applies it message by message |
| `Stream.OpenStream` | backend/app/routers/stream.py:105-118 | Subscribed before the snapshot; the client gets exactly the recent events of the history |
| `Stream.FlushToClient` | backend/app/routers/stream.py:43-56 | One flush applies the pending lane to the client and empties the subscriber |
| `Stream.BatchTagged` | backend/app/core/broadcaster.py:121-132 | Every message of a batch carries the key it was coalesced by |
| `StreamSession.RunSession` | backend/app/routers/stream.py:90-134 | Under any schedule of arriving records and of the session's own steps, the program with its hub, buffer, subscription and client runs exactly as the catch-up protocol does, and its consume loop is alive exactly while no record has raised |
| `StreamSession.Arrive` | backend/app/core/kafka_consumer.py:87-103 | One turn of the consume loop is one publish step of the protocol, or raises and is none |
| `StreamSession.Connect` | backend/app/routers/stream.py:105-109 | A connection that subscribes before anything else starts in the protocol's first state |
| `StreamSession.TakeSnapshot` | backend/app/routers/stream.py:113-116 | The recent events of the buffer are the snapshot of what was published |
| `StreamSession.Flush` | backend/app/routers/stream.py:43-56 | A drained batch is the protocol's flush |
| `StreamSession.BrowserHoldsNewest` | backend/app/routers/stream.py:109-124 | So the browser itself shows the newest message of every key not missed, once everything drained has been sent |
| `StreamSession.BrowserHoldsNewestIff` | backend/app/routers/stream.py:109-134 | And exactly of those and of the keys whose newest message the snapshot carried, when no message repeats |
| `StreamSession.RaisingIff` | backend/app/core/kafka_consumer.py:78-84 | Against the intention that a bad event must not end the loop: which records do, field by field |
| `ConfigOperators.WarnBandNeedsOrder` | backend/app/routers/config.py:180-186 | The WARN class is non-empty if and only if warn < danger |
| `ConfigOperators.ThresholdClassifier.ProcessBroadcastElement` | flink-jobs/operators/classifier.py:79-98 | The thresholds are those of the last well-formed message consumed; malformed ones leave the last good in place |
| `ConfigOperators.ThresholdClassifier.ProcessElement` | flink-jobs/operators/classifier.py:65-77 | An event is classified in place by that config: DANGER from the danger threshold on, WARN between the two, SAFE below both, nothing without a CPM |
| `ConfigOperators.RegionFilter.ProcessBroadcastElement` | flink-jobs/operators/region_filter.py:110-132 | Each well-formed message replaces the whole filter, an absent field clears it; malformed ones are dropped |
| `ConfigOperators.RegionFilter.ProcessElement` | flink-jobs/operators/region_filter.py:101-108 | An event passes exactly when it lies in the closed box and the half-open timespan of the last well-formed config, each as far as it is set |
| `ConfigOperators.LastConfigIs` | flink-jobs/operators/classifier.py:79-98 | The config both operators go by holds the four fields of the last well-formed message; an absent or empty area or timespan is none |
| `ConfigOperators.NoConfigYet` | flink-jobs/operators/classifier.py:65-77 | Before any, 100 and 1000, no area and no timespan |
| `ConfigProtocol.FiltersAreNeverCleared` | backend/app/routers/config.py:167-178 | In no run does a later update remove an area or a timespan once it is set |
| `ConfigProtocol.ConfigProducer.Start` | backend/app/core/kafka_producer.py:47-70 | Disabled and unreachable leave the producer as it was, with a status that says why |
| `ConfigProtocol.ConfigProducer.Stop` | backend/app/core/kafka_producer.py:72-78 | After a stop nothing can be published; a producer that never started keeps its status |
| `ConfigProtocol.ConfigProducer.Publish` | backend/app/core/kafka_producer.py:80-96 | Success exactly when available and acknowledged; a failure appends nothing and is counted |
| `ConfigProtocol.ConfigService.UpdateConfig` | backend/app/routers/config.py:158-204 | Publish before commit, field by field: with 202 the four active fields are what the payload sets or what they were, the message carries exactly them, and warn < danger; 422 for crossed thresholds and 503 for an unreachable broker change neither config nor topic |
| `ConfigProtocol.Post` | backend/app/routers/config.py:42-88 | A payload that fails validation by itself is answered with 422 and reaches neither lock nor topic; any other gets the answer of the update |
| `ConfigProtocol.RunKeepsInvariant` | backend/app/routers/config.py:112-204 | Lock, order, history and replay invariants hold in every interleaving of updates, failures, appends and reads |
| `ConfigProtocol.StepKeepsInvariant` | backend/app/routers/config.py:158-204 | Every step keeps them |
| `ConfigProtocol.ThresholdsAlwaysOrdered` | backend/app/routers/config.py:180-186 | warn < danger at all times in the active config, in every well-formed message and in the classifier's state |
| `ConfigProtocol.AgreementOutsideTheLock` | backend/app/routers/config.py:163-166 | Outside the critical section the active config is the last published one |
| `ConfigProtocol.NoUpdateIsLost` | backend/app/routers/config.py:163-166 | The active config is the merge of all accepted payloads in topic order, each once, and those are exactly the requests answered with success |
| `ConfigHistory.FieldsAreLatest` | backend/app/routers/config.py:166-178 | Field by field, in every interleaving: outside the lock each of the four active fields is the value set by the last accepted request, in topic order, that sets it, or the initial value when none does |
| `ConfigHistory.LastMessageCarriesLatest` | backend/app/routers/config.py:188-200 | The last well-formed message of the topic carries exactly those four |
| `ConfigHistory.ValidIff` | backend/app/routers/config.py:42-88 | A payload is valid exactly when it keeps every sane config sane and does not cross its own thresholds |
| `ConfigHistory.RunStaysSane` | backend/app/routers/config.py:166-200 | So in every interleaving the active config and all published messages have positive thresholds, an area on the globe with an extent and a timespan that ends after it starts |
| `ConfigProtocol.CaughtUpOperatorsAgree` | flink-jobs/operators/classifier.py:79-98 | Operators that have read the topic hold exactly the active config, or their defaults when nothing was ever published |
| `ConfigProtocol.ReadsLagAtMostOneUpdate` | backend/app/routers/config.py:117-123 | A read sees the last published config, or the one before it while its update is being committed |
| `ConfigProtocol.RequestIsAtomic` | backend/app/routers/config.py:166-204 | A request can always run to its end once it holds the lock, and its steps together are one update, field by field |
| `ConfigProtocol.RunCountsMessages` | backend/app/routers/config.py:188-203 | One well-formed message per accepted request |
| `ConfigProtocol.ForeignMessagesChangeNothing` | flink-jobs/operators/classifier.py:79-98 | Something malformed may be on the topic at any time: config, lock and requests are as before, and an operator that reads it keeps what it holds |
| `ConfigProtocol.LastConfigOrigin` | flink-jobs/operators/classifier.py:79-98 | After one well-formed message the starting config no longer matters |
| `EventTimeWindows.WindowsPerEvent` | flink-jobs/operators/alert_window.py:102-108 | When the slide divides the size every event lies in exactly size / slide windows |
| `EventTimeWindows.DefaultWindowsPerEvent` | flink-jobs/operators/alert_window.py:39-40 | One aggregation window and five alert windows per event at the defaults |
| `EventTimeWindows.StartsAre` | flink-jobs/operators/alert_window.py:102-108 | An event is assigned to exactly the windows that start on a multiple of the slide and whose stretch of time it lies in |
| `EventTimeWindows.ShortSpanSharesWindow` | flink-jobs/operators/alert_window.py:102-108 | Events spanning at most window minus slide share a window, wherever they lie on the grid |
| `EventTimeWindows.LongerSpanMayNotShare` | flink-jobs/operators/alert_window.py:102-108 | One millisecond more, and some position on the grid has no common window |
| `Multiples.CountBetween` | flink-jobs/operators/alert_window.py:102-108 | A stretch of k slides holds exactly k window starts |
| `WindowOperator.PlayKeepsInvariant` | flink-jobs/operators/alert_window.py:102-108 | After any input the pending and the fired windows hold exactly what arrived for them in time |
| `WindowOperator.EveryWindowFiresOnce` | flink-jobs/operators/alert_window.py:51-67 | For any arrival order each non-empty window fires exactly once, with the events that arrived before it closed, in order of time |
| `WindowOperator.WatermarkTrails` | flink-jobs/operators/watermark.py:117-136 | The watermark never passes the greatest timestamp minus the bound minus one |
| `WindowOperator.NothingIsLate` | flink-jobs/operators/watermark.py:39-41 | Within the bound on disorder no event of a window is late |
| `WindowOperator.OneMillisecondTooLate` | flink-jobs/operators/watermark.py:39-41 | The bound is sharp: one millisecond more and a window can lose its event |
| `WindowOperator.BatchIs` | flink-jobs/tests/integration/test_alert_window.py:35-69 | The batch computation: every non-empty window with exactly the events whose time lies in it |
| `WindowOperator.BatchByTime` | flink-jobs/tests/integration/test_alert_window.py:35-69 | The same by the times of the readings alone |
| `WindowOperator.StreamingEqualsBatch` | flink-jobs/tests/integration/test_alert_window.py:35-69 | For every arrival order within the bound, what the operator emits is the batch computation over the same events |
| `WindowOperator.ArrivalOrderIrrelevant` | flink-jobs/tests/integration/test_alert_window.py:128-132 | Two arrival orders within the bound fire the same windows with the same events |
| `WindowOperator.AscendingUnique` | flink-jobs/operators/alert_window.py:51-67 | Firings in order of time are determined by their members |
| `UnparseableTimestamps.UnparseableIsHarmlessIff` | flink-jobs/operators/watermark.py:50-62 | For a window placed directly behind the source's strategy: a record with an unparseable timestamp, wherever it arrives, leaves everything it emits unchanged if and only if no event arrives, after a watermark emitted behind the record, for a window that ended by the epoch minus the bound and was still open |
| `UnparseableTimestamps.HarmlessAfterTheEpoch` | flink-jobs/operators/watermark.py:50-62 | There it has no effect once something at or after the epoch was seen, whatever follows |
| `UnparseableTimestamps.HarmlessForRecentEvents` | flink-jobs/operators/watermark.py:50-62 | And none on a key whose later events all lie at or after the epoch minus the bound |
| `UnparseableTimestamps.CostsTheFirstEventIff` | flink-jobs/operators/watermark.py:50-62 | Directly behind the source, as the first record of a stream, it costs the event behind it exactly when a window of that event ended by the epoch minus the bound; the job has no window there |
| `UnparseableTimestamps.ContentWith` | flink-jobs/operators/watermark.py:50-62 | There, window by window: with the record a window collects no more than without it, and the same exactly when it loses no event |
| `UnparseableTimestamps.WatermarkWith` | flink-jobs/operators/watermark.py:117-136 | Against the documentation, what the record does to the source's watermark: nothing until one is emitted, and then it is at least the epoch minus the bound minus one |
| `JobStreams.UnparseableRecordInTheJob` | flink-jobs/radiation_tracking_job.py:58-75 | In the job, where windows stand behind the parser on watermarks of their own, an unparseable record leaves what every window emits unchanged, wherever it arrives |
| `JobStreams.UnparseableAtTheSource` | flink-jobs/operators/watermark.py:50-62 | While at the source it acts: a watermark emitted behind it is not below the epoch minus the bound minus one |
| `JobStreams.OnlyParsedRecordsMatter` | flink-jobs/operators/geo_window.py:73-84 | What reaches the windows depends on nothing but the sound records, the config messages and the branch's own watermarks |
| `JobStreams.SameVisibleSameResult` | flink-jobs/operators/geo_window.py:73-84 | Two raw streams that agree on those give the same windows |
| `JobStreams.WithoutReassignmentNothingFires` | flink-jobs/operators/geo_window.py:77-84 | On the watermark that comes through the broadcast connect no window would ever fire |
| `JobStreams.WindowsPick` | flink-jobs/operators/geo_window.py:73-90 | What arrives at the windows of a key is a part of the capture times of the sound records, in their order, whatever the cleaning drops |
| `JobStreams.JobEqualsBatch` | flink-jobs/radiation_tracking_job.py:126-175 | The whole job, for each key: when the capture times of the sound records come within the bound, its windows are those of the batch computation over the events that reach them, whatever malformed records lie between |
| `JobStreams.ReplayThroughTheJob` | data-provider/csv_reader.py:16-19 | And so for a replayed file whose blocks and block boundaries are within the bound |
| `JobStreams.FatalIff` | flink-jobs/radiation_tracking_job.py:68-75 | Which records raise an error that nothing catches, field by field: a time that is no string, or a coordinate beyond the range of a float |
| `JobStreams.ParsedIff` | flink-jobs/radiation_tracking_job.py:53-75 | Exactly the records with a sensor, two readable times and two numbers for coordinates become events; the event keeps the payload and the time it was captured, whenever it was uploaded, and the source has stamped it with the same time |
| `JobStreams.ParseRaisesIff` | flink-jobs/radiation_tracking_job.py:68-75 | Which records make parsing raise, field by field in the order it reads them |
| `JobStreams.SourceTimestampIs` | flink-jobs/operators/watermark.py:50-79 | What the source stamps a record with: its time, or the epoch when it has none that can be read; it raises exactly for a captured_at that is no string |
| `JobStreams.StrategiesAgree` | flink-jobs/operators/watermark.py:64-136 | On sound records the strategy at the source and that of a branch stamp the same times |
| `JobStreams.CleaningSeesAll` | flink-jobs/radiation_tracking_job.py:126-150 | Every sound record and every config message reaches the operators behind the parser once, in order, and what they pass on reaches the windows |
| `JobStreams.FatalRecordStopsTheJob` | flink-jobs/radiation_tracking_job.py:64-67 | Against the intention: no schedule of reads, checkpoints, failures and new records gets the job past such a record |
| `JobStreams.RestartIsAtTheCheckpoint` | flink-jobs/radiation_tracking_job.py:64-67 | After any failure the job is where it took its last checkpoint, whatever it read since |
| `JobStreams.TopicIsReadIff` | flink-jobs/radiation_tracking_job.py:64-67 | Some schedule reads the whole topic if and only if none of the records left is one |
| `AlertDetection.PeakCpm` | flink-jobs/operators/alert_detection.py:77-85 | The headline value is the greatest CPM among the breaches that have one |
| `AlertDetection.Latest` | flink-jobs/operators/alert_detection.py:78 | The latest breach, and the first to arrive among equally late ones |
| `AlertDetection.AlertDescribesBreaches` | flink-jobs/operators/alert_detection.py:69-90 | An alert exactly for at least min_breaches readings classified DANGER, with their number, the greatest value they carry, and place and time of a latest one |
| `AlertDetection.DetectIgnoresOrder` | flink-jobs/operators/alert_detection.py:69-90 | The alert does not depend on the order of events when the latest breaches are in one place |
| `AlertDetection.TieIsDecidedByOrder` | flink-jobs/operators/alert_detection.py:73-78 | And only then: otherwise two orders of the same events give different alerts |
| `AlertDetection.CandidatesIgnoreOrder` | flink-jobs/operators/alert_window.py:51-67 | The same for the whole stream of candidates |
| `AlertDetection.CandidatesRise` | flink-jobs/operators/alert_window.py:51-67 | Candidates of a sensor come with rising window ends |
| `AlertDetection.CandidateOf` | flink-jobs/operators/alert_detection.py:69-71 | A fired window with enough breaches always contributes its candidate |
| `AlertDetection.CandidatesAre` | flink-jobs/operators/alert_window.py:51-67 | The candidates are the alerts of the fired windows and no others |
| `AlertCooldown.AlertCooldownOperator.ProcessElement` | flink-jobs/operators/alert_dedup.py:93-101 | The last emitted end in the state is that of the greedy choice over all candidates so far |
| `AlertCooldown.EmittedSpaced` | flink-jobs/operators/alert_dedup.py:50-60 | For any order of candidates emitted ends rise by at least the cooldown |
| `AlertCooldown.SuppressedHasReason` | flink-jobs/operators/alert_dedup.py:93-101 | A suppressed candidate ends less than one cooldown after, or before, an alert already emitted |
| `AlertCooldown.GreedyIsOptimal` | flink-jobs/operators/alert_dedup.py:93-101 | In window_end order no subset with the same gaps is larger than what is emitted, which is such a subset |
| `AlertCooldown.EveryCandidateCovered` | flink-jobs/operators/alert_dedup.py:93-101 | In order, each candidate has an alert at its end or less than one cooldown before |
| `AlertPipeline.AlertsIgnoreArrivalOrder` | flink-jobs/operators/alert_detection.py:69-90 | End to end, two arrival orders within the bound give the same alerts, when breaches at one instant are in one place |
| `AlertPipeline.AlertsAreOptimal` | flink-jobs/operators/alert_dedup.py:93-101 | End to end, the windows hand the cooldown its candidates in order, so its choice is a largest one |
| `AlertPipeline.BurstMakesCandidate` | flink-jobs/operators/alert_window.py:102-108 | min_breaches DANGER readings within window minus slide make a candidate of the window that starts at the slide below them |
| `AlertPipeline.BurstIsReported` | flink-jobs/operators/alert_dedup.py:93-101 | Such a burst has an alert at or less than one cooldown before that window's end |
| `TrendDetector.IsRising` | flink-jobs/operators/trend_detector.py:66-81 | True exactly when the last N values climb strictly and by at least min_delta, and N is at least 2 |
| `TrendDetector.PushedSeries` | flink-jobs/operators/trend_detector.py:60-63 | Keeping N values and clearing them at an alert decides the same as looking at the whole history since the last alert |
| `TrendDetector.TrendDetectorOperator.ProcessElement` | flink-jobs/operators/trend_detector.py:152-165 | An alert exactly when the newest average completes N climbing ones since the last alert, carrying those N; blobs without an average change nothing |
| `TrendDetector.AlertsAreClimbs` | flink-jobs/operators/trend_detector.py:66-81 | Every alert ends N averages that qualify |
| `TrendDetector.AlertsAreDisjoint` | flink-jobs/operators/trend_detector.py:160-163 | No two alerts share an average |
| `TrendDetector.EveryClimbIsReported` | flink-jobs/operators/trend_detector.py:160-163 | Every qualifying run of N averages has an alert at one of its averages |
| `TrendDetector.AlertCountBound` | flink-jobs/operators/trend_detector.py:160-163 | At most floor(n / N) alerts over n averages |
| `TrendDetector.SteadyClimbAlerts` | flink-jobs/operators/trend_detector.py:13-18 | Exactly floor(L / N) alerts on a steady climb of L averages |
| `TrendDetector.TooFewWindowsNeverAlert` | flink-jobs/operators/trend_detector.py:44-48 | A setting below two windows never alerts |
| `GeoAggregation.WorstClassification` | flink-jobs/operators/geo_aggregation.py:28-38 | The most severe class among the events, or none when no event has one |
| `GeoAggregation.Extremes` | flink-jobs/operators/geo_aggregation.py:41-77 | Greatest and least CPM among those present |
| `GeoAggregation.AggregateBucket` | flink-jobs/operators/geo_aggregation.py:41-77 | The loop computes the blob: counts, mean, extremes, class counts, worst class and centroid |
| `BlobStatistics.BlobIs` | flink-jobs/operators/geo_aggregation.py:41-77 | Every number of a blob told by the readings alone: how many there are and how many of each class, the rounded mean, the greatest and the least of the CPMs present, the worst class, the rounded means of latitudes and of longitudes |
| `GeoAggregation.CountsAddUp` | flink-jobs/operators/geo_aggregation.py:54-77 | Counts and per-class counts add up over any partition of events into cells and windows |
| `GeoAggregation.MeanOfMeans` | backend/app/core/history_db.py:163-177 | With no null CPM the count-weighted mean of any blobs is within the rounding of the mean of all readings, and equal to it without rounding |
| `GeoAggregation.BlobsSummarize` | flink-jobs/operators/geo_aggregation.py:60-66 | The aggregation's blobs meet that with four decimals: within 0.00005 |
| `NullCpm.NullPatternIsHarmlessIff` | backend/app/core/history_db.py:163-177 | The archive's weighted mean is the mean of the readings for every choice of CPM values with a given pattern of nulls if and only if every blob has its proportional share of the values |
| `NullCpm.ProportionalCases` | flink-jobs/operators/geo_aggregation.py:60-66 | That holds of every pattern without a null, and of any single blob |
| `NullCpm.OneNullIsNotProportional` | flink-jobs/operators/geo_aggregation.py:60-66 | One null in one of two blobs breaks it: 20 for readings whose mean is 25 |
| `NullCpm.AgreesIff` | backend/app/core/history_db.py:167 | For given values the two means agree exactly when weighted sum and sum are in the ratio of the counts |
| `AggregationPipeline.BlobIgnoresOrder` | flink-jobs/tests/integration/test_event_time_windows.py:1-11 | A blob is the same for any order of its events, in all its statistics |
| `AggregationPipeline.BranchIgnoresArrivalOrder` | flink-jobs/tests/integration/test_event_time_windows.py:95-101 | End to end, two arrival orders of a cell's events within the bound give equal blobs in equal order, and with them equal rolling statistics, anomalies and trend alerts |
| `AggregationPipeline.BranchEqualsBatch` | flink-jobs/tests/integration/test_event_time_windows.py:1-11 | And the blobs are those of the batch computation over all events of the cell |
| `AggregationPipeline.BlobsSummarizeTheirWindows` | flink-jobs/operators/geo_window.py:37-90 | Each blob is that of exactly the events of its window, none of them late |
| `AggregationPipeline.TotalPermutes` | flink-jobs/operators/geo_aggregation.py:60-77 | A sum over readings does not depend on their order |
| `Statistics.MeanIsMean` | flink-jobs/operators/geo_aggregation.py:60-66 | The quotient is the mean: scaled by the count it is the sum |
| `RollingStats.PushKeeps` | flink-jobs/operators/rolling_stats.py:57-60 | Pushing onto what is kept of a history is what is kept of the longer one |
| `RollingStats.RollingStatsOperator.ProcessElement` | flink-jobs/operators/rolling_stats.py:161-171 | A blob is scored against the last N non-null averages before it, and then joins them; empty windows pass through |
| `RollingStats.StateIsRecentHistory` | flink-jobs/operators/rolling_stats.py:57-60 | The state is always the last N non-null averages; all of them for N = 0 and none below |
| `RollingStats.OutputsSeeHistory` | flink-jobs/operators/rolling_stats.py:161-171 | Each output depends on its blob and the N averages before it alone |
| `ScoredWindows.OutputsAreScored` | flink-jobs/operators/rolling_stats.py:70-121 | What the operator says about every window, with h the last N averages before it: the score is (x - mean(h)) / deviation(h) within 0.00005 and null exactly when h has fewer than two samples or all equal; a flagged window lies within the rounding of the threshold's distance from the mean of h or beyond, and every window beyond is flagged; the rolling average is the mean of h and x within the rounding; a window without an average gets null, null and no flag |
| `ScoredWindows.AveragesAre` | flink-jobs/operators/rolling_stats.py:161-171 | These averages are those of the windows that have one, in order |
| `RollingStats.RestartIsInvisible` | flink-jobs/tests/integration/test_checkpoint_restart.py:71-74 | Saving and resuming at any point gives the uninterrupted output |
| `ZScoreTheorems.Cauchy` | flink-jobs/operators/rolling_stats.py:80-84 | The square of a sum of n deviations is at most n times the sum of their squares |
| `ZScoreTheorems.SampleWithinBaseline` | flink-jobs/operators/rolling_stats.py:80-84 | For any sample of a baseline of n, (x - mean)^2 <= (n - 1) * variance |
| `ZScoreTheorems.SelfScoreNeverFlags` | flink-jobs/operators/rolling_stats.py:113-116 | Scored against a baseline of fewer than ten with itself in it, no window could be an anomaly at the default threshold |
| `ZScoreTheorems.TenSamplesCanFlag` | flink-jobs/operators/rolling_stats.py:87-92 | Ten is the exact limit |
| `ZScoreTheorems.PriorScoreIsUnbounded` | flink-jobs/operators/rolling_stats.py:113-116 | Against the prior windows alone every score can be reached |
| `ZScoreTheorems.ZeroVariance` | flink-jobs/operators/rolling_stats.py:78-83 | The variance is zero exactly when all samples are equal |
| `ZScoreTheorems.UndefinedIff` | flink-jobs/operators/rolling_stats.py:70-84 | There is no score exactly with fewer than two samples or all equal |
| `ZScoreTheorems.AnomalyWithinRounding` | flink-jobs/operators/rolling_stats.py:70-92 | Without root or quotient: a window is flagged only if two prior windows differ and it lies within 0.00005 deviations of the threshold's distance from their mean or beyond it, and always when it lies 0.00005 beyond |
| `ZScoreTheorems.AnomalyIff` | flink-jobs/operators/rolling_stats.py:70-92 | Without rounding the threshold is met exactly |
| `ZScoreTheorems.ScoreIsInvariant` | flink-jobs/operators/rolling_stats.py:70-84 | Shifting and positively scaling baseline and value together does not change the score |
| `HistoryDb.MakeBBox` | backend/app/core/history_db.py:36-45 | All four bounds or none, each minimum below its maximum; anything else is the error |
| `HistoryDb.Where` | backend/app/core/history_db.py:52-72 | On any parameter list the clauses, with their positional parameters, are true of exactly the rows that pass; rows without a centroid fall out under a box |
| `HistoryDb.LaterValuesDoNotDisturb` | backend/app/core/history_db.py:154-159 | Parameters appended later, such as the limit, do not change what the clauses mean |
| `HistoryDb.ClausesStayBound` | backend/app/core/history_db.py:154-159 | Nor do they unbind any of them |
| `HistoryInsights.SelectsPassing` | backend/app/core/history_db.py:154-159 | With the limit appended, the query still selects exactly the rows that pass |
| `HistoryInsights.Timeseries` | backend/app/core/history_db.py:154-178 | The newest limit windows of the rows that pass, oldest first; no answer when the query fails |
| `HistoryInsights.NewestThenOrdered` | backend/app/core/history_db.py:160-175 | Newest first, limited and re-sorted is the tail of the windows in order |
| `HistoryInsights.NewestWindowsAreShown` | backend/app/core/history_db.py:160-162 | A window the limit leaves out is older than every window shown |
| `GroupAggregates.PointsAre` | backend/app/core/history_db.py:154-178 | The answer told by the rows: one point for each window it shows, in order of time, and a window is left out only for newer ones up to the limit |
| `HistoryInsights.WindowsAre` | backend/app/core/history_db.py:163-173 | The groups are exactly the windows of the selected rows |
| `HistoryInsights.CountsOverWindows` | backend/app/core/history_db.py:166 | Without a limit the windows' counts add up to the count of all selected rows |
| `HistoryInsights.PointMeanIsReadingsMean` | backend/app/core/history_db.py:167 | A window's average is the mean of the readings behind it, within the rounding of its blobs |
| `HistoryInsights.DangerIsNeverNull` | backend/app/core/history_db.py:163-169 | Null danger counts count as none, also when all of them are null |
| `HistoryInsights.MaxCpm` | backend/app/core/history_db.py:168 | The greatest peak among the rows that have one |
| `GroupAggregates.PointIs` | backend/app/core/history_db.py:154-178 | Each number of a point as one total over the selected rows of its window: readings, danger readings with null as none, anomalies, the greatest peak, and an average that, taken as often as there are readings, is the sum of average times count; null without any |
| `GroupAggregates.HotspotIs` | backend/app/core/history_db.py:180-199 | The same for a hotspot, with the number of its rows, and latitude and longitude each averaged over the rows that have it |
| `HistoryInsights.TakeHottest` | backend/app/core/history_db.py:180-199 | The limit hottest cells: distinct, hottest first, nulls last, none of the others hotter |
| `HistoryInsights.Hotspots` | backend/app/core/history_db.py:180-199 | The hottest cells of the rows that pass, each with the aggregates of its own rows |
| `GroupAggregates.HotspotsAre` | backend/app/core/history_db.py:180-199 | The answer told by the rows: as many cells as there are up to the limit, each once, hotter ones first, and no row of a cell left out is hotter than a cell shown |
| `HistoryInsights.PeaksAreDetermined` | backend/app/core/history_db.py:180-199 | Any two answers list the same peaks; only the choice among equal cells is open |
| `HistoryInsights.HotspotMeanIsReadingsMean` | backend/app/core/history_db.py:190 | A hotspot's average is the mean of the readings behind the cell, within the rounding of its blobs |
| `StableSort.SortPermutes` | data-provider/csv_reader.py:196-199 | The sort of a block is a permutation |
| `StableSort.SortSorts` | data-provider/csv_reader.py:196-199 | Its result is in timestamp order with missing timestamps last |
| `StableSort.SortIsStable` | data-provider/csv_reader.py:196-199 | Rows with one timestamp keep their order |
| `StableSort.AnyStableSort` | data-provider/csv_reader.py:196-199 | Any stable sort gives this result |
| `StableSort.BeforeIff` | data-provider/csv_reader.py:196-199 | That order: by the first character in which two timestamps differ, a missing one last |
| `CsvReader.StreamRows` | data-provider/csv_reader.py:118-213 | Skipping, filtering, batching and flushing yield the filtered rows sorted block by block, for every batch size |
| `CsvReader.WiderSpanKeepsMore` | data-provider/csv_reader.py:68-87 | A wider time span keeps every row a narrower one keeps, and rows without a timestamp always pass |
| `CsvReader.KeptAre` | data-provider/csv_reader.py:68-87 | What is kept, in order: behind the skipped rows, those without a captured_at or with one that is not before the start nor after the end |
| `CsvReader.StreamedPermutes` | data-provider/csv_reader.py:179-211 | The output is a permutation of the skipped and filtered rows |
| `CsvReader.BlocksAreSorted` | data-provider/csv_reader.py:192-199 | Each block of the output is the stable sort of the same block of the input |
| `CsvReader.RowsOfABlockAreOrdered` | data-provider/csv_reader.py:192-199 | Of two rows of one block the first has no greater value in the order column, told by the first character in which they differ, or the second has none |
| `CsvReader.BoundedReordering` | data-provider/csv_reader.py:16-19 | The row at each position comes from less than a block away |
| `CsvReader.OriginsAreDistinct` | data-provider/csv_reader.py:16-19 | And no two positions hold the same row of the input |
| `ReplayOrder.StreamedWithinIff` | data-provider/csv_reader.py:16-19 | For any order column, the output is within a bound on disorder if and only if, of any two rows read into one block, the one whose key comes later is not more than the bound older, and across every block boundary of the file no later row is more than the bound older than an earlier one |
| `ReplayOrder.SortWithinIff` | data-provider/csv_reader.py:192-199 | Block by block: the sorted block is within the bound if and only if the rows as they were read agree pair by pair |
| `ReplayOrder.OrderedByTimeIff` | data-provider/csv_reader.py:54-55 | Ordered by capture time, the boundaries of the file alone decide |
| `ReplayOrder.ReplayIsBounded` | data-provider/csv_reader.py:16-19 | End to end, for each key of the file, whatever the order column and whichever rows are dropped on the way: with every block and block boundary within the bound, the rows reach the window operator within it, and its windows are those of the batch computation |
| `ReplayOrder.ReplayIsBoundedIff` | data-provider/csv_reader.py:16-19 | And when all rows arrive and are of one key, only then |
| `ReplayOrder.OneBlockIsWithin` | data-provider/csv_reader.py:207-211 | A file of less than one block is within every bound, however disordered it is |
| `ReplayOrder.LateRowBreaksTheBound` | data-provider/csv_reader.py:16-19 | Against the documentation: for every block size, one full block and then a row more than the bound older is not within it |
| `ReplayOrder.UploadOrderBreaksTheBound` | data-provider/csv_reader.py:54-55 | Nor does one block suffice when rows are ordered by upload time: two rows of one block, uploaded in one order and captured in the other, break the bound in every file |
| `ReplayOrder.TwoUploadsBreakTheBound` | data-provider/csv_reader.py:54-55 | Two such rows alone pass as they are |
| `ReplayOrder.CaptureOrderWithin` | data-provider/csv_reader.py:54-55 | Ordered by capture time the blocks take care of themselves |
| `ReplayOrder.PickedWithin` | data-provider/csv_reader.py:16-19 | Dropping rows does not take a stream out of its bound |
| `ReplayOrder.BoundedIff` | flink-jobs/operators/watermark.py:39-41 | A stream within the bound as a whole is so for each of its keys, whenever watermarks are emitted; for one key that is exactly the operator's bound |
| `CsvReader.StreamedConcat` | data-provider/csv_reader.py:192-205 | At a flush the stream splits: what follows does not depend on what came before |
| `CsvReader.ResumeContinues` | data-provider/csv_reader.py:179-186 | Skipping exactly the raw rows consumed up to a flush yields the remaining output |
| `KafkaSecurity.TwoPassesAreOne` | flink-jobs/operators/kafka_config.py:35-43 | The two replace passes escape each character exactly once |
| `KafkaSecurity.QuoteFirstIsWrong` | flink-jobs/operators/kafka_config.py:35-43 | The other order of the passes does not |
| `KafkaSecurity.EscapedReadsBack` | flink-jobs/operators/kafka_config.py:35-43 | A quoted-string reader recovers an escaped value, whatever follows, exactly when no character of it ends the string early |
| `KafkaSecurity.CredentialsReadBack` | flink-jobs/operators/kafka_config.py:66-73 | Reading the generated configuration recovers user name and password |
| `KafkaSecurity.AllCredentialsReadBack` | flink-jobs/operators/kafka_config.py:66-73 | For all strings, when the reader breaks on no character |
| `KafkaSecurity.ConfigIsInjective` | flink-jobs/operators/kafka_config.py:66-73 | Different credentials never share a configuration |
| `KafkaSecurity.KafkaSecurityProperties` | flink-jobs/operators/kafka_config.py:46-75 | Which properties are set in each case; the login configuration, character by character, with the SCRAM module exactly for a mechanism that starts with SCRAM and the PLAIN module otherwise; and that it reads back as the given credentials unless one of them holds a breaking character |
| `KafkaSecurity.ApplySecurity` | flink-jobs/operators/kafka_config.py:78-86 | In any order of setting, the builder ends with all the properties over its own |
| `SensorDedup.SameKeyIff` | flink-jobs/operators/sensor_dedup.py:23-35 | Two readings share a key exactly when they carry the same digest, or neither carries one and their capture times agree |
| `SensorDedup.DuplicatesIff` | flink-jobs/operators/sensor_dedup.py:23-35 | Field by field, of readings whose md5sums hold no colon: an empty md5sum is none and an absent capture time equals only itself and the text None |
| `SensorDedup.SensorDedupOperator.ProcessElement` | flink-jobs/operators/sensor_dedup.py:66-71 | Each sensor's output grows by the reading exactly when its key is new to that sensor; no other sensor is affected |
| `SensorDedup.PassedIsFirstOccurrences` | flink-jobs/operators/sensor_dedup.py:66-71 | The output is what the input holds at the positions of first occurrences |
| `SensorDedup.PositionsAre` | flink-jobs/operators/sensor_dedup.py:66-71 | These positions are exactly those with no earlier reading of the same key |
| `SensorDedup.PositionsRise` | flink-jobs/operators/sensor_dedup.py:66-71 | And they rise: the order is kept |
| `SensorDedup.RestartIsInvisible` | flink-jobs/operators/sensor_dedup.py:66-71 | Saving the state at any point and resuming gives the uninterrupted output |
| `SensorDedup.ReplayIsInvisible` | flink-jobs/operators/sensor_dedup.py:66-71 | Readings already seen change nothing, wherever and however often they are sent again |

## Left out

- One Kafka partition, one backend lifetime and publish failures that append nothing are assumed: ordering across partitions, a backend restart and a publish whose outcome is unknown are not modelled.
- Expiry of keyed state after its TTL, which runs on processing time: the results of cooldown, deduplication, trend and rolling statistics hold while no entry expires.
- What Postgres makes of a value tuple is a parameter of the sink: the instant and the text its key columns read, or that some column refuses it. `ingested_at` is not a column of the model.
- The parsers of the backend: what they make of a message value is a parameter. A view filter is any function of the message, so one that raises is not modelled.
- A negative `max_pending` raises in the source; it is a natural number here.
- `CatchUp` and `StreamSession` have no view filter, and appending an event and publishing it is one step, as it is between two awaits of the consumer.
- Fairness of the configuration lock: safety is proved for every order of entering it.
- Token and origin checks, metrics, settings, health, view-filter validation, the CPM range filters, the field mapper, the mobile/fixed classifier and the hot-region join: single-branch or plumbing.
- Real Kafka, Flink, Postgres, asyncio and HTTP: only the outcomes of their steps. Flink's windows lie on the multiples of the slide, before the epoch too; idle partitions do not hold back the watermark here because there is one.
- Haversine, geohash encoding, MD5 and the parsing and printing of dates: values arrive parsed. Two spellings of one instant are one time, so the text of `triggered_at` is not distinguished.
- The operators between parser and windows are one parameter of `JobStreams`, of which only the timestamps of what they pass on are known.
- Floating-point rounding other than the stated rounding functions, not-a-number and infinities: sums are exact, so that they do not depend on the order of their terms is a statement about reals.
- A `min_breaches` below one: with none the source takes `max` of an empty list and raises.
- The two trend settings are any values; the floor of two windows that the module puts on its default is not repeated by the operator, as in the source.
- How a particular JAAS parser treats line ends and letters behind a backslash is a parameter of the reader; a value with a character that ends a quoted string early is not recovered, and `EscapedReadsBack` says so.
- `strip` and `upper` of the security settings are parameters, so no Unicode case folding is modelled.
- Header normalisation and column renaming of the CSV happen before `StreamRows`; the file and its decoding are not modelled, and `_parse_ts` is a parameter.
- SQL leaves the order of equal peaks among the hotspots open, and so does their contract.
- `summary`, connection retries of the archive pool and of the sink, and schema creation: no property beyond the queries themselves.
