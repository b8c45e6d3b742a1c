# What holds of the alert pipeline

The system watches network traffic for threats. Packets are aggregated into flows
(`ingest/pcap_ingester.py`), detections become alerts (`inference/stream_processor_faust.py`,
`inference/models.py`, `inference/enrichment.py`), alerts are correlated per source address in Redis
(`inference/correlation.py`), and a sink moves them from Kafka into the database (`api/kafka_sink.py`),
from which the dashboard reads them page by page (`api/routes/alerts.py`). This project models the parts of
that pipeline that keep state and can fail in the middle, and proves what they promise over every run.

| files | what they model |
|---|---|
| `AlertTable`, `SinkModel`, `SinkSteps`, `SinkSafety`, `SinkGuarantees`, `SinkOffers`, `SinkCompletion`, `SinkIntegrity`, `SinkReplay`, `SinkConvergence`, `SinkRedelivery`, `KafkaSink` | the Kafka-to-database sink: partition logs with gaps, the retained batch, ambiguous commits, evacuations, crashes, restarts, lost sequence values, and what redelivery does to the table |
| `DlqRotation` | the rotating dead-letter file |
| `SortedSet`, `CorrelationWindow`, `RollbackLaws`, `SeenSetLaws`, `RollbackExact`, `IncidentLaws`, `TimedWindows`, `WindowTrace` | the two Lua scripts, their keys and deadlines |
| `StreamProcessor`, `CompensationLaws`, `EmitLoop`, `EmitPaths` | any number of agents that publish, correlate, send, compensate and report |
| `DomainSlicer` | the domain name's variants and sliding windows |
| `FlowTable`, `FlowOutput` | bidirectional flow aggregation with eviction, and what is emitted on the way |
| `EnrichmentCache` | the cache with expiry and least-recently-used eviction |
| `AlertPages` | the cursor walk over the alert table |

What the broker, the database, Redis, the file system, the clock and the scheduler do is a parameter of every
run (`Turn`, `Session`, `Move`, `Env`, `Call`, `Expiry`, `traffic`), so a statement about a run is a statement
about every behaviour of the environment. Code that updates its state in place is a class or a method with
loops; each is tied to a function on the state, and the theorems are about those functions.

Where the obvious property is not quite true of the code, the code is kept, an input shows the failure, and
the exact condition is proved:

- Offsets offered to the broker can go down across a crash (`OffersMayDropAcrossACrash`). No life to come,
  however many follow, offers less than an earlier offer exactly if no record between the committed offset
  and that offer, the last one aside, is left to read (`LaterOffersHoldIff`). Committed offsets never go
  down.
- Replaying a stretch that ends before what was already applied can put old columns back
  (`ShortReplayRegresses`, over two lives of the sink `RedeliveryRegresses`). The table is that of a single
  pass exactly if every alert was written last by a stretch that ends with its final columns
  (`ReplayConvergesIff`, over whole lifetimes `LifetimeConvergesIff`).
- The seen set forgets ids first in, first out only for twice its bound M (`RepeatRejectedIffRecent`); after
  that even the newest can be the one forgotten (`NewestIsForgotten`). It then holds the M largest in byte
  order of all ids from the M-th on (counted from 0), whatever their age (`SaturatedRemembersIff`,
  `RepeatRejectedIffLarge`).
- A rollback need not restore what the alert displaced: it can leave another alert's id forgotten
  (`RollbackForgetsAnother`), and an id that begins with a space remembered, because only the rollback
  strips it (`PaddedIdIsKept`). List and counter are restored exactly if all alerts fit into 100 entries.
  The seen ids are restored, up to twice the bound, exactly if nothing was evicted with the alert in place
  or the alert itself was; beyond, where that is not enough (`EvictedIsNotEnough`), exactly if at least M
  ids from the M-th on are larger than the alert's id, or than the one it pushed to M-th place; and only if
  the rollback takes out no other id (`RollbackExactIff`, `RollbackForgetsIdIff`).
- The window need not hold exactly the detections that completed: a correlation abandoned on a timeout can
  run after its compensating rollback (`AbandonedAddIsNotCompensated`), and an error reported after the
  script took effect is not compensated at all (`AppliedErrorIsNotCompensated`). It does exactly if no add
  was skipped or failed after it took effect, and every add that ran late or whose incident could not be
  sent was rolled back afterwards (`CompensationIff`).
- After one flow too many the table is no longer the plain grouping (`EvictionLosesGrouping`). It is, and
  nothing is evicted, exactly if the accepted packets have at most `MAX_FLOWS` distinct endpoint pairs with
  protocol (`GroupingIffFewPairs`).
- The window of a class's maximum can be renewed (`MaximumIsExtended`), in one second only, when the
  remaining time reads 0 (`MaximumExtendedIff`); the deadline of a list counts from the add that created it
  (`DeadlineIsFromCreation`).

## Model

| member | source | states |
|---|---|---|
| SinkGuarantees.LifetimeAtLeastOnce | api/kafka_sink.py:206-357 | over every sequence of process lives (poll errors, rolled-back or ambiguous database commits, offset commits that raise before or after taking effect, evacuations, stale commits, drain, death at any effect) every prefix of the effects has each offset below a committed one upserted, handed to the dead-letter writer, or rejected by the poll filter |
| SinkGuarantees.CommittedMessageIsSafe | api/kafka_sink.py:206-357 | for one message: once its offset is committed past, its alert id has a row in the table or its record was handed to the dead-letter writer |
| SinkGuarantees.SessionOffersRise | api/kafka_sink.py:195-196 | in one life, the offsets offered for a partition never decrease, start no lower than the committed one, and never exceed the observed watermark |
| SinkGuarantees.OffersMayDropAcrossACrash | api/kafka_sink.py:312-327 | a concrete pair of lives in which the second offers less than the first, so monotone offers do not extend over restarts |
| SinkGuarantees.AppliedOffersStand | api/kafka_sink.py:312-342 | across crashes, no offer is below an earlier one that the broker applied |
| SinkOffers.SessionOffersSourced | api/kafka_sink.py:186-357 | whatever one life offers for a partition is one past a record at or after the offset committed when it began |
| SinkOffers.NextOffersHoldIff | api/kafka_sink.py:186-357 | after any lifetime and for any offset m (an earlier offer, say): no next life, whatever it reads and whatever fails, offers less than m if and only if every record of the partition from the committed offset on lies at m - 1 or later |
| SinkOffers.LaterOffersHoldIff | api/kafka_sink.py:186-357 | the same condition decides over every continuation: no later life, however many follow and wherever each dies, offers less than m if and only if every record from the committed offset on lies at m - 1 or later |
| SinkGuarantees.CommittedNeverDecreases | api/kafka_sink.py:206-357 | the broker's committed offset of a partition never decreases over any lifetime |
| SinkGuarantees.StaleCommitCatchesUp | api/kafka_sink.py:308-327 | after an acknowledged stale commit with an empty batch, committed equals observed and nothing is stale |
| SinkGuarantees.CleanTurnCommitsEverything | api/kafka_sink.py:236-258 | a turn that flushes without a fault empties the batch, resets the failure count and commits every observed partition up to its watermark |
| SinkCompletion.PollReaches | api/kafka_sink.py:209-231 | a poll reads every partition it names as far as it says, or to the end of the log, and no other |
| SinkCompletion.TurnEmptiesIff | api/kafka_sink.py:209-299 | below the failure threshold (5) and the panic guard (500) a turn empties the batch if and only if it holds 100 items or its time has come, the database commits, and one of three offset commits succeeds; otherwise it is retained as polled, with one more failure counted exactly if a flush was due |
| SinkCompletion.FifthFailureGivesUp | api/kafka_sink.py:266-299 | the fifth failed flush in a row dead-letters every item of the batch with its reason, empties the batch and starts the count again |
| SinkCompletion.PanicEmpties | api/kafka_sink.py:328-342 | a batch of 500 never outlives its turn |
| SinkCompletion.GivenUpIsNotStale | api/kafka_sink.py:266-342 | after a batch is given up the stale commit would offer what it would have before, less what the broker acknowledged for the batch, which the panic guard does not note |
| SinkCompletion.RaisedCommitMayHaveWritten | api/kafka_sink.py:152-159 | a database commit that raises is retried either way: if it took effect every valid item has its row, and otherwise no row is written |
| SinkCompletion.WaitingIsQuiet | api/kafka_sink.py:232-237 | a turn with a batch below 100 whose time has not come leaves database, dead letters and offsets alone |
| SinkCompletion.LastBatchIsKept | api/kafka_sink.py:347-357 | if the last database commit succeeds, every item still held when the signal comes is upserted or dead-lettered after the last turn |
| SinkCompletion.LastBatchIsStored | api/kafka_sink.py:347-357 | every such item that the schema accepts and whose savepoint does not fail is upserted, and its alert has a row |
| SinkCompletion.LastBatchIsRejected | api/kafka_sink.py:144-149 | every other one is dead-lettered |
| SinkCompletion.LastBatchIsCommitted | api/kafka_sink.py:350-354 | if the last offset commit is acknowledged too, every such item is committed past |
| SinkCompletion.NothingReadIsLost | api/kafka_sink.py:186-357 | after a life whose last database commit succeeded, every offset it read is upserted, dead-lettered or rejected by the poll filter, whatever happened in its turns |
| SinkCompletion.EveryAlertReadIsKept | api/kafka_sink.py:212-231 | in particular every JSON object of at most 5 MiB with an id |
| SinkIntegrity.LifetimeIsGenuine | api/kafka_sink.py:113-357 | over every lifetime each effect carries only records of the log, under their own partition and offset, of at most 5 MiB, that are JSON objects with an id, and upserts only such as the schema accepts |
| SinkIntegrity.EveryRowIsFromLog | api/kafka_sink.py:125-143 | every row of the table, after every lifetime, has the id and the columns of some valid record of the log |
| SinkGuarantees.RunKeepsLoopHead | api/kafka_sink.py:206-209 | at every loop head failures are below 5 and the batch below 500, however much a poll returned |
| SinkGuarantees.FullTurn | api/kafka_sink.py:209-299 | at capacity a turn polls nothing and either empties the batch or keeps it and counts one more failure, below the threshold |
| SinkGuarantees.FullBatchIsEmptied | api/kafka_sink.py:209-299 | from any loop head with at least 100 items the batch is emptied within 5 minus failures turns, whatever database and broker do |
| SinkSafety.OfferIsSafe | api/kafka_sink.py:240-249 | offering offsets keeps the invariant whichever partitions the broker applied them for, provided no item of the batch is held in memory only |
| SinkSafety.ProcessBatchKeepsInv | api/kafka_sink.py:123-159 | a batch either stays for retry, or all its items reached the table or the dead-letter writer before any offset is returned |
| SinkSafety.EvacuateKeepsInv | api/kafka_sink.py:266-281 | each evacuation keeps the invariant, commits included that raise with or without effect |
| SinkModel.StoredIsInTable | api/kafka_sink.py:125-151 | every object stored by any batch has a row under its alert id, and primary keys stay distinct, positive and below the sequence |
| SinkModel.MaxOffsetsIsLeastBound | api/kafka_sink.py:144-149 | the offsets to commit are, for exactly the partitions with an item, one past that partition's largest offset |
| KafkaSink.Sink.PollRecords | api/kafka_sink.py:209-231 | reads partition by partition, records every offset as observed, and puts exactly the accepted messages into the batch: the state is that of the step function |
| KafkaSink.Sink.FetchRecords | api/kafka_sink.py:212-231 | the inner loop over one partition's records, gaps and filtered records included, leaves the state of the step function |
| KafkaSink.Sink.WriteItems | api/kafka_sink.py:121-143 | the item loop leaves in the session the upserts of exactly the surviving items, hands the others over, and collects the largest offsets of all of them |
| KafkaSink.Sink.ProcessAll | api/kafka_sink.py:113-159 | the item loop and the commit leave the table, the dead letters and the offsets map that the step function says, for every commit outcome; a transaction that is rolled back still loses sequence values |
| KafkaSink.Sink.EvacuateBatch | api/kafka_sink.py:266-281 | hands every item over before it offers the batch's offsets; the panic variant leaves the acknowledged offsets alone |
| KafkaSink.Sink.HandOver | api/kafka_sink.py:266-272 | the loop hands over every item of the batch, in order, and computes the largest offset of each partition |
| KafkaSink.Sink.FlushBatch | api/kafka_sink.py:236-299 | three commit attempts, failure counting and evacuation as the step function says |
| KafkaSink.Sink.CommitStalePartitions | api/kafka_sink.py:308-327 | commits exactly the observed offsets above the acknowledged ones, with an empty batch only |
| KafkaSink.Sink.Turn | api/kafka_sink.py:206-346 | one pass of the main loop is one step of the state machine |
| KafkaSink.Sink.Loop | api/kafka_sink.py:206-346 | any number of passes of the main loop are that many steps, each starting below both bounds |
| KafkaSink.Sink.DrainBatch | api/kafka_sink.py:347-357 | the drain processes a remaining batch once and commits its offsets once |
| KafkaSink.Sink.RunSink | api/kafka_sink.py:186-357 | one life, drain included, leaves the effects of its session, and every prefix of them is at-least-once safe |
| KafkaSink.Live | api/kafka_sink.py:186-357 | one life from what was left before it, up to the effect at which it dies |
| KafkaSink.Deploy | api/kafka_sink.py:162-357 | successive lives, each from what the one before left, produce a lifetime that is at-least-once safe throughout |
| AlertTable.ReplayConverges | api/kafka_sink.py:113-152 | whatever overlapping stretches of a partition were upserted before, once the last one reaches as far as any of them the table equals that of a single pass |
| AlertTable.ShortReplayRegresses | api/kafka_sink.py:133-143 | a concrete replay that stops short of what was applied and leaves an old column value |
| AlertTable.ReplayConvergesIff | api/kafka_sink.py:113-152 | overlapping stretches leave the table of a single pass if and only if, for every alert below the furthest end, the last stretch it occurs in ends with its final columns |
| AlertTable.SpreadAlike | api/models.py:4-8 | sequence values lost to rolled-back transactions change primary keys only: alerts, columns and the relative order of the keys are those of upserts without any loss |
| AlertTable.KeysAreDense | api/models.py:4-8 | without lost sequence values there are as many keys as rows |
| AlertTable.UpsertedFields | api/kafka_sink.py:133-143 | after any upserts, a row exists exactly if it was there or was written, and its columns are those written last |
| AlertTable.UpsertsGrow | api/models.py:4-8 | upserts keep primary keys in place, and new rows get larger keys than all there were |
| SinkReplay.OrderlyReplays | api/kafka_sink.py:125-151 | up to the first batch given up on, effects that keep the order condition leave, apart from lost sequence values, the table of their stretches, each of which begins inside or at the end of the one before it |
| SinkReplay.CommittedIsReached | api/kafka_sink.py:236-249 | up to the first batch given up on, the committed offset never lies beyond the end of the stretch upserted last |
| SinkConvergence.LifetimeIsOrderly | api/kafka_sink.py:206-357 | every lifetime over one partition in which no savepoint fails for an item the schema accepts, up to the first batch given up on, upserts stretches of a single pass in overlapping order and offers only offsets the last stretch reached |
| SinkRedelivery.LifetimeConvergesIff | api/kafka_sink.py:113-357 | redelivery end to end, over one partition, without savepoint failures for valid items and without a batch given up on: at any moment of any lifetime the table holds the alerts, columns and key order of a single pass up to the highest offset upserted if and only if every alert was written last by a batch that ends with its final columns |
| SinkRedelivery.LifetimeConverges | api/kafka_sink.py:113-357 | under the same premises, it does whenever the batch upserted last ends with the highest offset upserted so far |
| SinkRedelivery.RedeliveryRegresses | api/kafka_sink.py:113-357 | a concrete lifetime, under the same premises: the second of two lives, each dying before it commits an offset, upserts less than the first did and leaves the old column |
| DlqRotation.RotationKeepsSuffix | api/kafka_sink.py:41-54 | from an empty directory, with renames failing and the process dying at any point, the generations from oldest to current are a suffix of everything appended, and none beyond the oldest exists |
| DlqRotation.FaultlessFilesStayWithinLimit | api/kafka_sink.py:41-54 | without failures every file is within the limit up to its last record, every rotated one is above it, and generations are contiguous |
| DlqRotation.RotateMovesUp | api/kafka_sink.py:45-51 | a rotation without failures moves every generation up by one, drops at most the oldest and leaves an empty current file |
| DlqRotation.NothingLostBelowCapacity | api/kafka_sink.py:41-54 | without failures either nothing was lost, or at least count (one, if it is not positive) times the limit is retained, and no further generation is ever written |
| DlqRotation.Writer.RotateIfNeeded | api/kafka_sink.py:41-54 | the descending rename loop, stopped by the first failure, leaves the files of the specification |
| DlqRotation.Writer.Write | api/kafka_sink.py:72-90 | rotation, then one appended record unless the process dies |
| SortedSet.AddSpec | inference/correlation.py:37-38 | ZADD leaves an ascending set with the member at its new score and every other entry as it was |
| SortedSet.PopSpec | inference/correlation.py:39-41 | removing rank 0 removes exactly the entry least by score, then by member |
| CorrelationWindow.AnyRunKeepsWf | inference/correlation.py:30-118 | under adds, rollbacks and expiries of any keys, the seen set stays within its bound and ascending, the list within 100, and an existing counter is at least 1 |
| WindowTrace.RunIsItsWindow | inference/correlation.py:14-87 | read off the trace of adds alone, expiries included: the list holds the newest 100 alerts of the window open at that second, the counter their number, the seen set what the ids of its own window leave, and a class's maximum is the largest severity of its window; each begins at the first add more than 300 seconds after the beginning before it |
| WindowTrace.AnswerIsItsWindow | inference/correlation.py:14-87 | what the script replies at any later second: nothing for an id its window remembers, otherwise the size of the window with this alert, an incident exactly for the second, every fifth and each rise above the class's window, and the newest 100 alerts with it |
| WindowTrace.EndedWindowIsForgotten | inference/correlation.py:42-60 | an alert more than 300 seconds after the last one is counted as the first and raises no incident |
| TimedWindows.ListedIsRecent | inference/correlation.py:48-53 | in every run, rollbacks included, every alert listed after an operation was added at most 300 seconds before it |
| TimedWindows.ForgottenIsAccepted | inference/correlation.py:31-46 | in every run an alert whose id was not added within the last 300 seconds is accepted |
| CorrelationWindow.DeployedBounds | inference/correlation.py:30-50 | with the deployed bound, at most 5000 ids and 100 list entries after any run |
| RollbackExact.DeployedSeen | inference/correlation.py:30-41 | with the deployed bound as many ids are remembered as were accepted, but 5000 at most |
| CorrelationWindow.Source.CorrelateScript | inference/correlation.py:14-87 | the script, key by key and with deadlines, leaves the window and returns the reply of the specification |
| CorrelationWindow.Source.AcceptAlert | inference/correlation.py:37-86 | an alert that is no duplicate changes seen set, list, counter and class maximum, with their deadlines, and gets the reply of the specification |
| CorrelationWindow.Source.RollbackScript | inference/correlation.py:89-118 | the rollback script, with the stripped id its caller passes, leaves the window of the specification |
| CorrelationWindow.Source.TrackSeen | inference/correlation.py:30-46 | bounded, insertion-scored id tracking with a deadline set only when the key is created |
| RollbackLaws.RollbackRemovesOneContribution | inference/correlation.py:89-118 | from any window with room for all alerts in the seen set and the list, and for an id that stripping leaves alone: add an alert, then any with other ids, then roll it back: list, counter and seen ids equal those of the run without it, other classes keep their maximum, its own class has none |
| RollbackLaws.RollbackExactIffUntrimmed | inference/correlation.py:48-49 | with all alerts accepted, the rollback restores list and counter if and only if the old list, the alert and the later alerts fit into 100 entries |
| RollbackExact.RollbackExactIff | inference/correlation.py:30-118 | from an empty window, any number of alerts with distinct ids, trimming and eviction included: list and counter after the rollback are those of the run without the alert if and only if all alerts fit into 100 entries; the seen ids if and only if the rollback takes out no other id and, up to twice the bound M, nothing was evicted with the alert in place or at least M came after it, beyond that, at least M of the ids from the M-th on (counted from 0) are larger than the odd one, which is the alert's own id or the one it pushed to M-th place; the class maxima always, its own class's aside |
| RollbackExact.RollbackForgetsAnother | inference/correlation.py:39-41 | a concrete run in which a rolled-back alert had evicted another one's id, which stays forgotten although the list is restored |
| RollbackExact.EvictedIsNotEnough | inference/correlation.py:37-41 | a concrete run beyond twice the bound in which the alert itself was evicted, and yet the seen ids after its rollback are not those of the run without it |
| RollbackLaws.RollbackIdempotentIff | inference/correlation.py:99-117 | a second rollback changes nothing if and only if the alert occurs at most once in the list |
| RollbackLaws.RollbackForgetsIdIff | inference/correlation.py:340-353 | the rollback forgets the recorded id if and only if stripping it leaves it unchanged |
| RollbackLaws.SpacesAre | inference/correlation.py:340-353 | the characters that stripping takes away are exactly the 29 that Python counts as spaces |
| RollbackLaws.StripTakesEnds | inference/correlation.py:340-353 | stripping takes away exactly the spaces at both ends |
| RollbackLaws.StripKeepsIff | inference/correlation.py:340-353 | an id is as it is stripped if and only if it neither begins nor ends with a space |
| RollbackLaws.PaddedIdIsKept | inference/correlation.py:340-353 | a concrete alert whose id begins with a space: its rollback empties the list and keeps the id |
| RollbackLaws.RollbackClearsOnlyItsClass | inference/correlation.py:115-116 | the class of the alert has no maximum afterwards, every other class keeps its own |
| RollbackLaws.AcceptedList | inference/correlation.py:48-56 | after accepted alerts the list is the newest first, cut at 100, and the counter grew by their number |
| SeenSetLaws.FirstTwoCapsAreFifo | inference/correlation.py:30-41 | for the first 2M distinct ids the set holds exactly the entries of the last M |
| SeenSetLaws.RepeatRejectedIffRecent | inference/correlation.py:30-41 | after at most 2M distinct alerts, a repeat is a complete no-op if and only if it is among the last M |
| SeenSetLaws.SaturatesAtTwiceTheCap | inference/correlation.py:37-41 | from the 2M-th distinct id on, at every later count, the set is full and all its scores equal M |
| SeenSetLaws.SaturatedForgetsLeast | inference/correlation.py:37-41 | once saturated, the id forgotten is the least in byte order and the set stays saturated |
| SeenSetLaws.SaturatedKeepsNewcomerIff | inference/correlation.py:37-41 | once saturated, the id just accepted is remembered if and only if some remembered id is smaller |
| SeenSetLaws.SaturatedRemembersIff | inference/correlation.py:37-41 | after any 2M or more distinct ids, an id is remembered if and only if it came M-th or later (counted from 0) and fewer than M of the ids from there on are larger in byte order |
| SeenSetLaws.RepeatRejectedIffLarge | inference/correlation.py:30-41 | after 2M or more distinct alerts, a repeat is a complete no-op if and only if its id is among the M largest of those from the M-th on |
| SeenSetLaws.NewestIsForgotten | inference/correlation.py:37-41 | a concrete run of distinct alerts in which the id just accepted is the one forgotten, so that its repeat is accepted as new |
| SeenSetLaws.ReplayNeverRejected | inference/correlation.py:33-36 | a replay-marked alert is listed and counted whatever the set remembers |
| IncidentLaws.UniformIncidents | inference/correlation.py:55-80 | n accepted alerts of one class and severity raise (1 if n >= 2 else 0) + n/5 incidents |
| IncidentLaws.IncidentsAreClimbs | inference/correlation.py:62-80 | incidents are bounded by the second alert, the multiples of five and the severity levels climbed within the classes |
| IncidentLaws.IncidentsBound | inference/correlation.py:62-80 | with K classes and four severities, at most 1 + n/5 + 4K incidents |
| IncidentLaws.NoGapOfFive | inference/correlation.py:65-68 | among any five accepted alerts in a row one raises an incident, from any state |
| IncidentLaws.MaximumIsLargest | inference/correlation.py:62-80 | the maximum kept for a class is the largest severity of its accepted alerts |
| IncidentLaws.IncidentAtIff | inference/correlation.py:58-86 | which of any accepted alerts raise an incident: exactly the second, every fifth, and from the second on those more severe than all earlier ones of their class |
| IncidentLaws.RiseFires | inference/correlation.py:65-85 | from the second alert on, a severity above its class's maximum raises an incident whose snapshot starts with that alert |
| IncidentLaws.AddsStayInStep | inference/correlation.py:48-60 | in runs without rollback, at every second and across expiries, list and counter share one deadline and the list length is min(counter, 100) |
| IncidentLaws.RollbackInStepIff | inference/correlation.py:103-112 | the rollback of a listed alert keeps list length and counter in agreement if and only if the counter had not passed 100 |
| IncidentLaws.MixedRunsStayInStep | inference/correlation.py:48-118 | with rollbacks and expiries anywhere, list and counter stay in agreement at every second as long as at most 100 alerts were added |
| IncidentLaws.DeadlineIsFromCreation | inference/correlation.py:50-53 | in every run, rollbacks and expiries included, the deadline of a list is 300 seconds after the add that created it, the last one to find no living list |
| IncidentLaws.AddNeverExtends | inference/correlation.py:42-60 | no add moves the deadline of a living list, counter or seen set, and a new list or counter gets a full window |
| IncidentLaws.MaximumExtendedIff | inference/correlation.py:71-80 | a living class maximum gets a new deadline if and only if the severity rises in its very last second |
| IncidentLaws.MaximumIsExtended | inference/correlation.py:71-80 | a concrete run in which a class maximum set at second 0 gets a new deadline at second 300 |
| IncidentLaws.Summarise | inference/correlation.py:262-300 | the related ids are the nonempty ids of the snapshot and the alert's own, each once, and the severity is the largest of them |
| StreamProcessor.WindowWasPublished | inference/stream_processor_faust.py:211-233 | in every state of every interleaving, every alert in the window was acknowledged by the broker first and added |
| StreamProcessor.WindowIsHeld | inference/stream_processor_faust.py:222-262 | without trimming, under any faults, list, seen ids and counter are those of exactly the adds that ran and were not rolled back since |
| StreamProcessor.CompensationIsExact | inference/stream_processor_faust.py:211-256 | with any number of agents, no Redis fault and no correlation timeout, at quiescence they are those of exactly the published detections whose incident send did not fail, although a send timeout rolls back twice |
| CompensationLaws.CompensationIff | inference/stream_processor_faust.py:211-262 | with any number of agents, any interleaving, timeouts, cancellations and Redis faults, without trimming: at quiescence list, seen ids and counter are those of exactly the detections that completed if and only if no add was skipped or failed after it took effect, and every add that ran late or whose incident could not be sent was rolled back after it |
| StreamProcessor.AbandonedAddIsNotCompensated | inference/stream_processor_faust.py:224-256 | a run in which an abandoned add takes effect after its rollback, so that a dead-lettered alert stays in the window |
| CompensationLaws.AppliedErrorIsNotCompensated | inference/stream_processor_faust.py:257-262 | a run in which Redis reports an error after the script took effect: the alert is dead-lettered, nothing rolls it back, and it stays in the window |
| StreamProcessor.OneOutcome | inference/stream_processor_faust.py:161-265 | in every state of every run a detection has one dead-letter dispatch if it ended there and none otherwise, and each dispatched copy is marked a replay |
| EmitPaths.PathEnds | inference/stream_processor_faust.py:161-265 | from any state, whatever happens to it, exactly the listed moves take a detection from its start to its outcome: publish, add, a send exactly for an incident, one rollback when it fails and a second one when that was for the time, a report; each can be made in turn, and the other detections stay where they are |
| EmitLoop.Agent.SendIncident | inference/stream_processor_faust.py:234-256 | an acknowledged send changes nothing, an error rolls back once, a timeout twice, and both send one dead letter |
| EmitLoop.Agent.CorrelateAndSend | inference/stream_processor_faust.py:222-262 | the resulting window, outcome and dead letter for every result of the correlation, each step being a move of the protocol |
| EmitLoop.Agent.EmitDetection | inference/stream_processor_faust.py:161-265 | a refused publish leaves the window alone; each detection either completes or sends exactly one dead letter |
| EmitLoop.Agent.EmitAll | inference/stream_processor_faust.py:161-265 | after the loop every detection has its one outcome, and without correlation timeouts the protocol is quiescent |
| DomainSlicer.EncodeInjective | inference/models.py:68-69 | two sanitised names have the same codes if and only if they are equal |
| DomainSlicer.CodesAreAlphabetical | inference/models.py:68-69 | a character has code i + 1 if and only if it is the i-th of a to z, 0 to 9, hyphen and dot, and none otherwise |
| DomainSlicer.SplitThenJoin | inference/models.py:145-147 | splitting at dots loses nothing and leaves labels without dots |
| DomainSlicer.SelectVariants | inference/models.py:137-153 | the whole name, the normalised form, the last two labels and the labels of at least four characters, in this order, each at its first occurrence only |
| DomainSlicer.LastTwoLabels | inference/models.py:145-149 | the last two labels of a name that ends in two labels are these, whatever is before them |
| DomainSlicer.ImportantAreInspected | inference/models.py:137-166 | however many labels a name has, its normalised form and its last two labels are among the eight inspected |
| DomainSlicer.SliceVariant | inference/models.py:169-187 | the window loop with its early exit and conditional tail yields between one and budget slices, those of the specification |
| DomainSlicer.CoverageIsExact | inference/models.py:174-187 | the slices of a name longer than 35 cover a position if and only if it is below min(L, 35 + 15 (b - 1)) |
| DomainSlicer.StretchInsideOneSlice | inference/models.py:174-185 | every stretch of at most 21 of the first 35 + 15 (b - 1) characters lies inside a single slice |
| DomainSlicer.LongerStretchIsCut | inference/models.py:177-183 | 21 is the most: a certain stretch of 22 is cut by every slice of any name of at least 50 |
| DomainSlicer.SlicesOfSpec | inference/models.py:170-187 | every slice has length 35, with codes 1 to 38 followed only by zeros, and there is at least one and at most budget |
| DomainSlicer.SharesFit | inference/models.py:166-167 | up to eight shares fit into 32 slices and each is at least one; the share is 32 / n, and shares larger by one would not fit |
| DomainSlicer.BuildSlices | inference/models.py:155-190 | the batch holds every inspected variant's slices, the final cap drops none, and every variant has one |
| DomainSlicer.NoBlindSpot | inference/models.py:137-190 | with n variants inspected, every stretch of at most 21 of the first 35 + 15 (32 / n - 1) characters of each is in some slice of the batch |
| DomainSlicer.Slices | inference/models.py:120-190 | variants and batch composed: for any two names at most eight variants in the order of their importance, all of them if there is room; n of them get 32 / n slices each, and every stretch of at most 21 characters that these reach is in one of them; nothing for an empty name |
| FlowTable.TableIsGrouping | ingest/pcap_ingester.py:98-133 | as long as at most cap flows were created, the table is the grouping of the accepted packets by unordered endpoint pair and protocol, with origin counts in the first packet's direction (only the first packet for an endpoint paired with itself) |
| FlowTable.EvictionIff | ingest/pcap_ingester.py:149-158 | something was evicted if and only if more than cap flows were created |
| FlowTable.GroupingIffFewPairs | ingest/pcap_ingester.py:98-158 | stated on the capture: the table is the grouping of the accepted packets, and nothing is evicted, if and only if they have at most cap distinct unordered endpoint pairs with protocol |
| FlowTable.EvictionLosesGrouping | ingest/pcap_ingester.py:149-158 | a concrete capture with one pair too many, after which a flow was evicted and the table is not the grouping |
| FlowTable.RunNoReverse | ingest/pcap_ingester.py:101-127 | in every state, evictions or not, no key occurs twice and no key's distinct reverse is another entry |
| FlowTable.FinalEmissionsConserve | ingest/pcap_ingester.py:106-164 | the final emissions carry exactly the accepted packets and bytes, for every capture and bound |
| FlowTable.EachFlowEmittedOnce | ingest/pcap_ingester.py:149-164 | every flow ever created is finally emitted exactly once, and no other |
| FlowTable.TableIsBounded | ingest/pcap_ingester.py:144-158 | after every packet the table holds at most cap entries |
| FlowTable.EvictsTheOldest | ingest/pcap_ingester.py:149-158 | with one entry too many exactly the first of the least start time goes, and is emitted |
| FlowTable.EvictionsAreOldest | ingest/pcap_ingester.py:149-158 | at every packet of every run at most one flow is evicted, and it started no later than any flow that stays |
| FlowOutput.SnapshotsAreBlocks | ingest/pcap_ingester.py:77-142 | over any capture every packet is counted, skipped ones included, and the records emitted before a flow ends are exactly one block for each accepted packet whose number is a multiple of 500, in order, each with every flow held at that packet before any eviction |
| FlowOutput.IngestShowsBlocks | ingest/pcap_ingester.py:76-164 | the final flush adds no such record |
| FlowOutput.BlockIsGrouping | ingest/pcap_ingester.py:136-142 | as long as at most cap pairs were seen before it, a block is the grouping of the packets accepted so far |
| FlowOutput.OrdinaryCaptureIsEmitted | ingest/pcap_ingester.py:79-164 | a capture of IP packets over TCP or UDP of at most 65535 bytes is emitted in full, and one without any not at all |
| FlowOutput.EveryEmissionWasBegun | ingest/pcap_ingester.py:106-164 | whatever is emitted was begun by an accepted packet: its source is the flow's first endpoint, its destination the second, and its time the flow's start |
| FlowTable.DeployedTable | ingest/pcap_ingester.py:73-158 | with the deployed bound, never more than 50000 flows, and the plain grouping exactly for captures with at most that many pairs |
| FlowTable.UpdateGroups | ingest/pcap_ingester.py:106-133 | one packet changes the table exactly as it changes the declarative grouping |
| FlowTable.Ingester.UpdateFlow | ingest/pcap_ingester.py:106-133 | reverse entry first, then own entry, then a new one: the table of the specification |
| FlowTable.Ingester.EvictOldest | ingest/pcap_ingester.py:149-158 | evicts and emits down to the bound in order of start time, then of creation |
| FlowTable.Ingester.HandlePacket | ingest/pcap_ingester.py:79-158 | filter, update, periodic snapshot and eviction of one packet |
| FlowTable.Ingester.Ingest | ingest/pcap_ingester.py:76-164 | the whole capture with its final flush conserves packets and bytes |
| EnrichmentCache.RunKeepsShape | inference/enrichment.py:43-49 | after any gets and sets keys are distinct and at most max_cache_size |
| EnrichmentCache.UnexpiredServedIff | inference/enrichment.py:34-49 | exactly when an unexpired key is served: it returns its last value unless, at some set since its last touch, as many other keys as fit, touched after it, were still held, that is, not looked up after they expired |
| EnrichmentCache.LookupDropsExpired | inference/enrichment.py:34-42 | a lookup leaves no expired entry of its key |
| EnrichmentCache.FreshKeyIsServed | inference/enrichment.py:34-49 | with a clock that does not go back, a key whose last set has not expired and with fewer than max_cache_size other keys set or hit since its last touch returns exactly its last value |
| EnrichmentCache.NothingStaleIsServed | inference/enrichment.py:34-42 | whatever is returned is the last value set for that key, not expired |
| EnrichmentCache.OrderedByLastTouch | inference/enrichment.py:39-44 | behind every entry are exactly the keys touched since it was and still held |
| EnrichmentCache.Enricher.Lookup | inference/enrichment.py:34-42 | a live entry moves to the end and is returned, an expired one is removed |
| EnrichmentCache.Enricher.Store | inference/enrichment.py:43-49 | set at the end, then eviction from the front down to the bound |
| EnrichmentCache.Enricher.Replay | inference/enrichment.py:34-49 | a trace of calls ends in the cache the trace theorems speak of |
| AlertPages.PageDescends | api/routes/alerts.py:27-30 | a page is no longer than the limit, strictly descending and below a positive cursor |
| AlertPages.PageOmits | api/routes/alerts.py:27-30 | a row below the cursor is on the page unless the page is full of rows with larger ids |
| AlertPages.CursorDecreases | api/routes/alerts.py:28-30 | the next cursor is smaller than this one and never the unfiltered 0 |
| AlertPages.WalkVisits | api/routes/alerts.py:27-30 | from any cursor, a walk visits exactly the ids below it that the table has at that call, in descending order |
| AlertPages.WalkIsComplete | api/routes/alerts.py:27-30 | starting without a cursor, a walk shows exactly the rows present at the first call, once each, in descending order, each under its alert, whatever the sink inserts or updates between the pages |

## Left out

- Delivery: records of a partition come in offset order, and a fetch may stop anywhere; consumer-group rebalancing, retention that removes unread records, and a commit applied after the process has restarted are not modelled.
- Dead-letter writes: a handed-over record counts as written. The code logs and swallows write errors (`api/kafka_sink.py:89-90`, `inference/stream_processor_faust.py:307-308`), so at-least-once is relative to that writer. File locks, fsync, permissions and the Kafka dead-letter topic beside the file are not modelled.
- SinkRedelivery.LifetimeConvergesIff: about one partition, because rows of different partitions may interleave on the same alert id; it excludes batches given up on, whose rows are never written, and savepoints that fail for an item the schema accepts, whose rows a single pass would have. Primary keys are compared by their order only: how many sequence values a rolled-back transaction or savepoint loses is left open.
- SinkRedelivery.LifetimeConverges: the same premises.
- SinkConvergence.LifetimeIsOrderly: one partition, and no savepoint that fails for an item the schema accepts.
- SinkGuarantees.SessionOffersRise: one life only, since `OffersMayDropAcrossACrash` shows the statement false across lives; `LaterOffersHoldIff` says exactly when it extends to the lives that follow.
- RollbackLaws.RollbackRemovesOneContribution: assumes room in the seen set and the list; what trimming and eviction change is in `RollbackExactIff`.
- RollbackExact.RollbackExactIff: from an empty window, with distinct nonempty ids.
- WindowTrace.RunIsItsWindow: runs of adds, of alerts with a positive severity; what rollbacks do over time is in `TimedWindows`, `IncidentLaws` and `RollbackExact`.
- DlqRotation.FaultlessFilesStayWithinLimit: sizes are numbers of characters, not bytes on disk.
- CompensationLaws.CompensationIff: assumes that nothing is trimmed or evicted; expiry is left out as below.
- StreamProcessor.CompensationIsExact: one source address; windows of different addresses share no key. Expiry is left to `CorrelationWindow` and `IncidentLaws`.
- JSON text: two alerts have the same text exactly when they are equal, and the evidence field is normalised once. Whether the payload schema accepts an object is a flag of the message.
- `add_alert` before and after the script: validity of the address, the replication check, sanitising of the class name, the parts of an incident other than related ids and severity, and the risk score.
- `predict` before and after slicing: length and deadline guards, Unicode and IDNA normalisation (the two resulting names are parameters), the network and its thresholds.
- `_emit_flow` with a payload over its limit, and the flow fields that are constant; the text of a flow key determines its parts.
- The HTTP client, address checks and playbooks of the enricher.
- Executors, semaphores, timeouts as durations, sleeping and backoff: only their outcomes appear.
- Rule evaluation, incident listing, formatting, authentication, rate limiting, manifests and the user interface: threshold tables or plumbing.
