# A verified model of the stateful core of substream-backend

The project models, in Dafny, the parts of the repository that keep state across calls, and proves
what they promise over whole runs.

- **Event bus** (`MessageSequencer.dfy`, `Reordering.dfy`, `Stalling.dfy`, `ShardedBus.dfy`,
  `BusDelivery.dfy`, `PublishedEvents.dfy`, `PartitionOwners.dfy`, `OtherPartitions.dfy`,
  `Rebalance.dfy`): numbering and reordering of events,
  partition buffers with a two-step flush to the migration log, the fencing partition owner, and the
  rebalance protocol that ties them together, with other callers and failures at every `await`.
- **Write-ahead ledger** (`WalFrames.dfy`, `Segments.dfy`, `WalWriter.dfy`, `AckWatermarks.dfy`,
  `LedgerSync.dfy`, `LedgerRefinement.dfy`, `SegmentDates.dfy`, `PartitionDetector.dfy`): record
  frames, the sliding window of segments, the partition-mode throttle, the acknowledged watermark,
  archive spill and replay against one abstract log, what age a segment has, and the quorum decision.
- **Connection pool** (`ConnectionPool.dfy`, `ConnectionRuns.dfy`): slots, generations and grace
  timers as explicit deadlines, over entry objects updated in place.
- **Rate limiter and migrations** (`RateLimiter.dfy`, `Retrying.dfy`, `Migrations.dfy`,
  `MigrationRuns.dfy`).
- **Vesting arithmetic and flow metering** (`Vesting.dfy`, `FlowNormalizer.dfy`, `Metering.dfy`).
- `Common.dfy`, `Decimal.dfy` and `Text.dfy` hold what several of them use.

Code that updates fields is a class whose methods are proved against a step function; the claims over
runs are lemmas about that function. One synchronous stretch of code is one step. Clock readings are
parameters. `dafny verify dfyconfig.toml` checks everything.

## Where the code does not do what it or its documentation says

Each is a lemma; where the intended property holds under a condition, the exact condition is proved.

- At any limit of at least one, a lane delivers nothing beyond the first event lost, however long the
  stream goes on in order: overflow drops the oldest held event, and what is expected then never arrives
  (`DeliveryStopsAtTheFirstGap`, `AllDeliveredIffNothingLost`). Only the awaited event
  releases the lane; where it has arrived already, that takes a duplicate (`StalledLaneReleasedIff`),
  and the first copy, left behind, can later move the expected seqno back (`ExpectedGoesBackIff`,
  `DuplicateMovesExpectedBack`).
- A flush loses what is published to its partition meanwhile, unless the partition is paused at every
  such call (`FlushLosesNothingIff`, `PublishDuringFlushIsLost`).
- After a partition the pending count can stay at its threshold outside partition mode
  (`PendingAtThresholdIff`, `PendingCanReachThreshold`), and a forced advance below the pending LSN
  lowers it (`PendingKeptIff`, `PendingCanFall`).
- The replay order relies on zero-padded names sorting like their indices. They do for fewer than
  10^10 segments, and the next one sorts wrongly (`NamesOrderedIff`).
- A failed archive step can make an old full segment the active one again (`OldSegmentReopenedIff`,
  `OldSegmentIsReopened`).
- The throttle of 50 MiB a minute lets through 12 bytes more in each window (`BoundIsAttained`).
- Listing peers more than once can hide a lost majority, if and only if it changes half of the number
  of peers rounded down (`RepeatedPeersHideIff`). A clock that goes back leaves flags stale
  (`StaleFlagIff`, `ClockGoingBackLeavesAStaleFlag`).
- `handleReconnect` is documented to throw `DuplicateConnectionError`; it never does. With a stale
  generation it throws another error after it has begun to disconnect the live connection
  (`ReconnectExactly`). `clear` emits no event, so listeners take the nodes it removed for present
  until they come back (`ClearTellsIff`, `EventsTellIffNotClearedAway`).
- `retryAfterSeconds` can be too short, and for a subnet bucket larger than an IP's exactly when a refill rate is below one per second: the bucket
  that admitted the refused attempt was charged for it (`RetryAllowedIff`, `WaitsSufficeIff`,
  `SlowIp`).
- `rollback` undoes the last `migrate` if and only if no version was added out of order
  (`MigrateThenRollbackIff`, `RollbackPicksWhatWasAppliedIff`, `OlderVersionAddedLater`). A run that
  stops between two files of one version loses the second (`InterruptedLosesNothingIff`,
  `EveryInterruptionHarmlessIff`, `SharedVersionIsLost`).
- The flow hash is ambiguous if and only if an address or the protocol begins with a whole endpoint
  and a dash (`HashIsUniqueIff`, `FlowsCollide`); a dash alone does no harm.
- Direction and canonical order come from the IPv4 reading of an address: between IPv6 addresses the two
  directions of a flow are both ingress, and two different flows (`NotNormalized`).
- A shard that is full drops packets of new flows without a sign (`AllAcceptedIffFits`).

## Model

| member | source | states |
|---|---|---|
| MessageSequencers.KeyInjective | backend/src/event-bus/message-sequencer.ts:88-90 | two (flow, partition) pairs share a map key exactly when they are equal, whatever colons the flow id holds |
| MessageSequencers.MessageSequencer.Assign | backend/src/event-bus/message-sequencer.ts:25-31 | an event that has a seqno passes through untouched; otherwise it gets the next number of its own (flow, partition) and no other counter moves |
| MessageSequencers.MessageSequencer.Accept | backend/src/event-bus/message-sequencer.ts:33-74 | a missing seqno is an error that changes nothing; otherwise the lane of the event becomes what `AcceptOnLane` says, the result is its result, and no other lane changes |
| MessageSequencers.MessageSequencer.Drain | backend/src/event-bus/message-sequencer.ts:45-59 | the run handed out is the arrived event followed by everything held behind it without a gap, which leaves the buffer |
| MessageSequencers.MessageSequencer.Overflow | backend/src/event-bus/message-sequencer.ts:65-71 | the overflow loop sheds the lowest held events until the limit is met and expects the one after the last shed |
| MessageSequencers.AnswerTellsTheLane | backend/src/event-bus/message-sequencer.ts:41-73 | the answer counts what is held afterwards, and says stalled exactly for an event ahead of the expected one; exactly an event behind it is handed straight back and changes nothing |
| Reordering.EveryArrivalInOnePlace | backend/src/event-bus/message-sequencer.ts:33-74 | for every stream of distinct seqnos, with gaps, in any order, at any limit: each arrived event is in exactly one of delivered, dropped and held; delivered seqnos strictly increase; the buffer is within the limit; held seqnos are never below the expected one |
| Reordering.ExpectedNeverDecreases | backend/src/event-bus/message-sequencer.ts:57-71 | over any further arrivals of distinct seqnos the expected seqno never goes back |
| Reordering.NothingDroppedIffFits | backend/src/event-bus/message-sequencer.ts:33-74 | a stream of distinct seqnos loses nothing if and only if none is below 1 and never more than the limit of arrived events lie beyond the first missing one; then delivered is everything below that one in order and the rest is held |
| Reordering.AcceptSorts | backend/src/event-bus/message-sequencer.ts:33-74 | every arrival order of 1..n with n at most the limit plus one comes out as 1..n, with nothing dropped, nothing held and n + 1 expected |
| Stalling.DeliveryStopsAtTheFirstGap | backend/src/event-bus/message-sequencer.ts:33-74 | at any limit of at least one, for every ascending stream with any gaps: exactly the gap-free start 1..n is delivered, of the rest the latest are held up to the limit and exactly those before them were dropped, and which seqno is expected |
| Stalling.AllDeliveredIffNothingLost | backend/src/event-bus/message-sequencer.ts:33-74 | such a stream is delivered in full if and only if it is 1, 2, 3, ... without a gap |
| Stalling.OneLossStallsTheLane | backend/src/event-bus/message-sequencer.ts:61-71 | whichever one event is lost from a stream in perfect order, everything before it comes out and nothing ever after |
| Stalling.LimitZeroNeverStalls | backend/src/event-bus/message-sequencer.ts:61-71 | at limit 0 there is no stall: exactly the events that directly continue the one before them are delivered |
| Stalling.StalledLaneReleasedIff | backend/src/event-bus/message-sequencer.ts:45-71 | after every in-order stream with a loss: an arrival gets something delivered if and only if it carries the awaited seqno; that event is held already exactly when it arrived before, and then only a second copy releases the lane and the first stays behind |
| Stalling.ExpectedGoesBackIff | backend/src/event-bus/message-sequencer.ts:41-71 | for every lane within its limit: an arrival moves the expected seqno back if and only if it is new, beyond the expected one, the buffer is full and an event is held whose successor is below the expected seqno |
| Stalling.DuplicateMovesExpectedBack | backend/src/event-bus/message-sequencer.ts:41-71 | that state can be reached: a run with a duplicate in which the expected seqno moves back to one already delivered |
| ShardedBus.ShardedEventBus.PartitionFor | backend/src/event-bus/sharded-bus.ts:95-99 | the rolling 32-bit hash loop computes the partition of the flow |
| ShardedBus.ShardedEventBus.PublishEvent | backend/src/event-bus/sharded-bus.ts:58-69 | exactly a paused partition refuses, and nothing changes; otherwise the event returned holds the flow id, payload and time of the call, is numbered, and joins the end of the buffer of its partition |
| ShardedBus.ShardedEventBus.PauseProduction | backend/src/event-bus/sharded-bus.ts:71-73 | exactly the given partitions become paused as well |
| ShardedBus.ShardedEventBus.ResumeProduction | backend/src/event-bus/sharded-bus.ts:75-77 | exactly the given partitions stop being paused |
| ShardedBus.ShardedEventBus.BeginFlush | backend/src/event-bus/sharded-bus.ts:79-81 | the first half of a flush captures the buffer as stamped records and leaves the bus as it is |
| ShardedBus.ShardedEventBus.WriteFlush | backend/src/event-bus/sharded-bus.ts:82 | the awaited append puts the captured records at the end of the partition's migration log |
| ShardedBus.ShardedEventBus.EndFlush | backend/src/event-bus/sharded-bus.ts:83-84 | the second half empties the buffer, whatever it holds by then, and returns the captured records |
| ShardedBus.ShardedEventBus.FailFlush | backend/src/event-bus/sharded-bus.ts:79-85 | a flush whose append throws leaves buffer and log as they were |
| ShardedBus.ShardedEventBus.UpdatePartitionOwners | backend/src/event-bus/sharded-bus.ts:91-93 | the owner map is replaced and nothing else |
| ShardedBus.MigrationLog.Append | backend/src/event-bus/sharded-bus.ts:16-22 | appending adds the records behind those of the partition and touches no other; nothing for an empty batch |
| BusDelivery.LogPlusBufferIsPublished | backend/src/event-bus/sharded-bus.ts:58-85 | for every interleaving of publish, pause, resume and two-step (or failed) flushes in which a partition stays paused while flushed by one caller, log ++ buffer is what it was followed by exactly the events published since, in order |
| BusDelivery.PublishesAreNumbered | backend/src/event-bus/message-sequencer.ts:25-31 | every interleaving, disciplined or not, numbers the successful publishes of a flow 1, 2, ..., n |
| BusDelivery.SeqnosAreContiguous | backend/src/event-bus/sharded-bus.ts:58-99 | from a new bus, the seqnos of a flow in (migration log ++ buffer) of its partition are exactly 1..n in order, n the number of its successful publishes |
| PublishedEvents.PublishedAsAsked | backend/src/event-bus/sharded-bus.ts:58-69 | for every run: the i-th event published holds the flow id, payload and time of the i-th publish called while its partition was not paused, read off the calls alone |
| PublishedEvents.ContentAsAsked | backend/src/event-bus/sharded-bus.ts:58-85 | from a new bus, a disciplined run leaves in (migration log ++ buffer) of a partition exactly what those publishes of its flows handed in, in order, numbered 1, 2, ... within each flow |
| PublishedEvents.PartitionIs | backend/src/event-bus/sharded-bus.ts:95-99 | the partition of a flow is its id as a number in base 31, cut to 32 bits, modulo the partition count |
| PublishedEvents.FlushWrites | backend/src/event-bus/sharded-bus.ts:79-85 | whatever others do meanwhile, a flush adds to the log exactly the events buffered when it began, in order, each with the migration id, the name of this node and the time of the flush |
| BusDelivery.FlushLosesNothingIff | backend/src/event-bus/sharded-bus.ts:79-85 | for one flush and whatever others do before and after its append returns (publish, pause, resume, flush other partitions): the log then holds what log and buffer held at its begin; nothing is lost if and only if every publish of a flow of this partition is called while it is paused |
| BusDelivery.QuietWithoutPauses | backend/src/event-bus/sharded-bus.ts:58-77 | when nobody pauses or resumes meanwhile, that is: the partition is paused, or no publish is of one of its flows |
| BusDelivery.PublishDuringFlushIsLost | backend/src/event-bus/sharded-bus.ts:79-85 | in every state with the partition neither paused nor being flushed, one publish between the begin of a flush and its append returning is lost |
| PartitionOwners.PartitionOwner.AppendMessage | backend/src/event-bus/partition-owner.rs:29-38 | a fenced partition refuses; otherwise the message joins the end of its buffer |
| PartitionOwners.PartitionOwner.ActivateFence | backend/src/event-bus/partition-owner.rs:18-20 | the token becomes the active one of its partition, whatever was active before |
| PartitionOwners.PartitionOwner.ConfirmFence | backend/src/event-bus/partition-owner.rs:22-27 | true exactly for the active token, and nothing changes |
| PartitionOwners.PartitionOwner.DrainPartition | backend/src/event-bus/partition-owner.rs:40-55 | without the active token an error and no change; with it, the whole buffer in order, which is then gone |
| PartitionOwners.PartitionOwner.ReleaseFence | backend/src/event-bus/partition-owner.rs:57-63 | only the active token removes its fence |
| PartitionOwners.AcceptedIsDrainedPlusBuffered | backend/src/event-bus/partition-owner.rs:29-55 | over every run of calls the messages accepted for a partition are all those drained followed by those buffered, in order |
| PartitionOwners.OnlyTheLatestTokenCounts | backend/src/event-bus/partition-owner.rs:18-27 | a token is confirmed if and only if it is the latest one activated for the partition and was not released since |
| PartitionOwners.TokensDecide | backend/src/event-bus/partition-owner.rs:29-63 | after any run: drain and release succeed iff the token is in force, append succeeds iff no token is |
| PartitionOwners.ConfirmedMeansUntouched | backend/src/event-bus/partition-owner.rs:22-55 | if a token is still confirmed after calls by others that do not know it, the fence held throughout and the buffer is untouched |
| PartitionOwners.LostStaysLost | backend/src/event-bus/partition-owner.rs:18-27 | a token out of force stays out unless its holder activates it again |
| Rebalancing.ScriptIsSafe | backend/src/event-bus/rebalance-coordinator.ts:26-43 | in every prefix of the effects, a partition is assumed only after all migrating partitions were fenced and right after it was itself drained, flushed and confirmed; owners change and partitions resume only after all were assumed |
| Rebalancing.RebalanceCoordinator.AwaitDrain | backend/src/event-bus/rebalance-coordinator.ts:34 | with the drain bound to the token of the migration, as the partition owner demands: a refused or thrown drain enters no effect; after a drain the owner buffer is empty as long as the token is in force |
| Rebalancing.RebalanceCoordinator.AwaitFlush | backend/src/event-bus/rebalance-coordinator.ts:35 | a flush at which others run before and after the append loses nothing, empties the buffer when it completes and leaves buffer and log intact when it throws |
| Rebalancing.RebalanceCoordinator.AwaitConfirm | backend/src/event-bus/rebalance-coordinator.ts:36-37 | confirmed only while the token is in force at that moment |
| Rebalancing.RebalanceCoordinator.AwaitAssume | backend/src/event-bus/rebalance-coordinator.ts:38 | what the old side still holds when the new owner is told to take over: nothing unflushed, and nothing undrained while the fence is held |
| Rebalancing.RebalanceCoordinator.FencePhase | backend/src/event-bus/rebalance-coordinator.ts:28-30 | the fences come in order; a throw leaves a proper prefix of the script |
| Rebalancing.RebalanceCoordinator.MovePartition | backend/src/event-bus/rebalance-coordinator.ts:34-38 | whatever others do at each await and wherever it throws, the effects so far are a prefix of drain, flush, confirm, assume; nothing published is lost; the bus buffer handed over is empty |
| Rebalancing.RebalanceCoordinator.MovePhase | backend/src/event-bus/rebalance-coordinator.ts:33-39 | the partitions move one after the other, each handover clean; a failure leaves a proper prefix of the script |
| Rebalancing.RebalanceCoordinator.Rebalance | backend/src/event-bus/rebalance-coordinator.ts:22-44 | for every schedule of other callers and of throws: the effects are a prefix of the script and safe; success means owners changed, partitions resumed and their buffers empty; a failure leaves owners unchanged and all migrating partitions paused; no published event is lost; every partition that is not migrating ends, on the bus and at the old owner, exactly as the steps of the others alone would leave it, so it is paused iff their pauses and resumes leave it so; the logs of the migrating ones grow only by records stamped with this migration; while nobody else fences a migrating partition it succeeds if and only if none of its 5n awaited calls throws |
| Rebalancing.PausedElsewhere | backend/src/event-bus/rebalance-coordinator.ts:27-42 | so a partition that is neither migrating nor named in a pause or resume of the others is paused afterwards exactly when it was before |
| WalFrames.BigEndianRoundTrip | src/ledger/wal-writer.ts:90-92 | a number below 256^k written as k big-endian bytes is read back |
| WalFrames.DecodePrefix | src/ledger/ledger-sync-protocol.ts:158-180 | decoding any byte prefix of encoded records gives exactly the records whose frames lie wholly inside it |
| WalFrames.DecodeFrames | src/ledger/wal-writer.ts:89-97 | decoding the concatenated frames of records with LSN < 2^64 and payload < 2^32 bytes gives back exactly the records |
| WalFrames.MaxLsnBounds | src/ledger/ledger-sync-protocol.ts:162-179 | the highest LSN returned bounds every delivered LSN and is one of them (0 for none) |
| WalFrames.ReplayRaw | src/ledger/ledger-sync-protocol.ts:162-179 | the offset loop delivers exactly the decoded records in order and returns their highest LSN |
| SegmentStore.SegmentPathInjective | src/ledger/segment-manager.ts:129-131 | different segment indices have different paths |
| SegmentStore.SegmentManager.GetActiveSegment | src/ledger/segment-manager.ts:72-77 | the last segment, created first when there is none |
| SegmentStore.SegmentManager.TrimWindow | src/ledger/segment-manager.ts:145-154 | the oldest segments go, with their files, until the window fits |
| SegmentStore.SegmentManager.CreateNewSegment | src/ledger/segment-manager.ts:135-143 | a new empty segment with the next index joins the end of the list |
| SegmentStore.SegmentManager.Rotate | src/ledger/segment-manager.ts:79-83 | creates, trims and returns the active segment, which is created again if the window holds none |
| SegmentStore.TrimmedIs | src/ledger/segment-manager.ts:145-154 | trimming drops exactly the first segments - max segments, removes exactly their files and records exactly their indices |
| SegmentStore.SegmentManager.RecordWrite | src/ledger/segment-manager.ts:90-99 | the active segment grows by the bytes; a rotation happens, and is reported, exactly when it reaches 64 MiB |
| SegmentStore.SegmentManager.RemoveSegment | src/ledger/segment-manager.ts:105-110 | the segment with that index leaves the list, and its file goes unless the deletion fails; an unknown index changes nothing |
| SegmentStore.SegmentManager.GetSegmentsOlderThan | src/ledger/segment-manager.ts:116-119 | exactly the segments created before the cutoff, in their order |
| SegmentStore.WindowIsBounded | src/ledger/segment-manager.ts:62-110 | after any writes of at most F bytes, rotations and prefix removals: indices strictly increase, at most N = max(1, maxSegments) segments, the active one below 64 MiB, in all at most (N - 1)(64 MiB - 1 + F) + 64 MiB - 1 bytes |
| SegmentDates.CreationTimes | src/ledger/segment-manager.ts:135-143 | over every run each retained segment carries the clock reading of the operation that first raised the highest index to its index |
| SegmentDates.RecordedAged | src/ledger/segment-manager.ts:90-99 | accounting for a write dates every segment it creates, the first one or that of a rotation, by the clock at its start, with room for at least one segment |
| SegmentDates.SpillsByAge | src/ledger/ledger-sync-protocol.ts:87-105 | with a clock that never goes back, a spill archives exactly the retained segments whose creating operation read a clock more than 300 000 ms before, oldest first, and keeps all others |
| WalWriters.WalWriter.Append | src/ledger/wal-writer.ts:72-112 | refused exactly when the payload would pass the window budget in partition mode, never outside it; a record that is not 64-bit numbered or 32-bit sized is an error; otherwise its frame is in the active segment and charged, the flush counter grows and is reset where it reaches 10 MiB in partition mode or 64 MiB outside, and the LSN is acknowledged |
| WalWriters.WalWriter.WriteFrame | src/ledger/wal-writer.ts:89-97 | the frame is at the end of the active segment's file and accounted for, with a rotation where that fills it |
| WalWriters.WalWriter.Flush | src/ledger/wal-writer.ts:117-121 | resets the flush counter; may create the first segment |
| WalWriters.WalWriter.SetPartitionMode | src/ledger/wal-writer.ts:128-138 | entering partition mode flushes, resets the flush counter and opens an empty window now; anything else only sets the flag |
| WalWriters.EpisodeIsBounded | src/ledger/wal-writer.ts:72-101 | a partition episode of D ms writes at most (D / 60000 + 1)(50 MiB + 12) frame bytes, for every run with a clock that never goes back |
| WalWriters.BoundIsAttained | src/ledger/wal-writer.ts:83-101 | for every length of episode that bound is reached exactly: the check counts the payload, the charge the frame |
| AckWatermarks.AckWatermark.AcknowledgeLsn | src/ledger/ack-watermark.ts:70-85 | an LSN at or below the watermark changes nothing; a new one is pending, and the count threshold advances outside partition mode |
| AckWatermarks.AckWatermark.ForceAdvance | src/ledger/ack-watermark.ts:91-98 | a higher LSN becomes watermark and pending LSN at once; a lower one changes nothing |
| AckWatermarks.AckWatermark.OnTimer | src/ledger/ack-watermark.ts:148-153 | outside partition mode, with something pending, the watermark takes the pending LSN |
| AckWatermarks.AckWatermark.AdvanceWatermark | src/ledger/ack-watermark.ts:140-146 | nothing unless the pending LSN is higher; then watermark = pending LSN, none pending, and `onAdvance` is called with it |
| AckWatermarks.RunsAreConsistent | src/ledger/ack-watermark.ts:70-153 | over every run: watermark <= pending LSN, none pending iff they are equal, and `onAdvance` sees strictly increasing LSNs, each acknowledged or forced, the last of which is the watermark |
| AckWatermarks.AdvancesInBatches | src/ledger/ack-watermark.ts:70-85 | of n rising LSNs reported outside a partition between two timer ticks, the watermark is the LSN of the last one of the last full batch of `advanceRecords`, and exactly those since are pending |
| AckWatermarks.PartitionFreezes | src/ledger/ack-watermark.ts:82-98 | in partition mode only a forced advance to a higher LSN moves the watermark |
| AckWatermarks.PendingAtThresholdIff | src/ledger/ack-watermark.ts:70-85 | over every run: outside partition mode the pending count is at or above the threshold if and only if some partition ended with that many pending and only calls that return before looking at the threshold followed |
| AckWatermarks.PendingCanReachThreshold | src/ledger/ack-watermark.ts:70-85 | for every threshold and start a run that ends there, outside a partition with the whole threshold pending |
| AckWatermarks.PendingKeptIff | src/ledger/ack-watermark.ts:91-98 | a step keeps the pending LSN from falling if and only if it is not a forced advance strictly between watermark and pending LSN |
| AckWatermarks.PendingCanFall | src/ledger/ack-watermark.ts:91-98 | such a forced advance can be reached from any start: the pending LSN falls from any acknowledged LSN to any lower one above the watermark |
| AckWatermarks.PendingIsHighest | src/ledger/ack-watermark.ts:70-98 | without such forced advances the pending LSN is the highest LSN reported in the run |
| AckWatermarks.TickCatchesUp | src/ledger/ack-watermark.ts:148-153 | and a tick outside partition mode brings the watermark to it |
| LedgerSync.LedgerSyncProtocol.SpillToArchive | src/ledger/ledger-sync-protocol.ts:87-108 | the stale segments are taken one by one in order, whichever steps fail: each is archived compressed under its own name and removed, or left, or unlisted with its file kept; the count is the number of steps that succeed |
| LedgerSync.LedgerSyncProtocol.SpillSegment | src/ledger/ledger-sync-protocol.ts:94-105 | one step: nothing changes when archiving fails; when only the deletion fails the archive is there and the segment unlisted |
| LedgerSync.SpillWithoutFailures | src/ledger/ledger-sync-protocol.ts:94-107 | without failing steps a spill archives every stale segment in turn and counts them all |
| LedgerSync.SpilledExactly | src/ledger/ledger-sync-protocol.ts:94-105 | of the oldest segments a spill leaves exactly those whose step failed before the archive was written, in order, and all newer ones |
| LedgerSync.SpillCounts | src/ledger/ledger-sync-protocol.ts:94-107 | of the oldest segments, under any failing steps, the count is that of the steps that archived and deleted, and archived in order are all but those that failed before |
| LedgerSync.OldSegmentReopenedIff | src/ledger/ledger-sync-protocol.ts:94-105 | after a spill that leaves something, another segment is active than before if and only if all segments were stale and the last one was archived: then an older one whose step failed is written again |
| LedgerSync.OldSegmentIsReopened | src/ledger/ledger-sync-protocol.ts:87-113 | it happens, from an empty store: of two stale segments archiving the older one fails and the newer one is archived; then the older, closed one is active again |
| LedgerSync.LedgerSyncProtocol.ArchiveSegment | src/ledger/ledger-sync-protocol.ts:148-152 | the archive of the segment's name holds its compressed file, and no other archive changes |
| LedgerSync.LedgerSyncProtocol.ReplayFromArchive | src/ledger/ledger-sync-protocol.ts:116-140 | delivers the records of the archives in sorted name order; the watermark becomes max(old, highest LSN replayed), with pending LSN and count to match, and `onAdvance` sees exactly the running maxima that raise it; without archives nothing changes |
| LedgerSync.NamesOrdered | src/ledger/ledger-sync-protocol.ts:144-146 | below 10^10, archive names compare as their indices do |
| LedgerSync.ElevenDigitsSortWrong | src/ledger/ledger-sync-protocol.ts:118-120 | the name of index 10^10 sorts before that of 10^10 - 1 |
| LedgerSync.NamesOrderedIff | src/ledger/ledger-sync-protocol.ts:118-146 | names of all indices below a bound sort in index order if and only if the bound is at most 10^10 |
| LedgerRefinement.RunKeeps | src/ledger/ledger-sync-protocol.ts:87-108 | every run of appends, rotations, trims and spills keeps: indices ascend through archived and retained segments, each file and archive holds exactly the frames of its records, every record is trimmed, archived or retained |
| LedgerRefinement.ListingInOrder | src/ledger/ledger-sync-protocol.ts:117-120 | the sorted listing, however the directory lists it, is the archived segments in index order |
| LedgerRefinement.ReplayThenRetainedIsTheLog | src/ledger/ledger-sync-protocol.ts:87-180 | for every such run with a clock that never goes back and fewer than 10^10 segments: records replayed from the archives ++ records in the retained segments = the appended records in append order minus exactly those of trimmed segments |
| LedgerRefinement.HistoryIsAppended | src/ledger/wal-writer.ts:89-97 | the log of that theorem is exactly the encodable records appended, in order |
| PartitionDetectors.PartitionDetector.constructor | src/consensus/partition-detector.ts:71-86 | every peer starts reachable, heard from now |
| PartitionDetectors.PartitionDetector.ReceiveHeartbeat | src/consensus/partition-detector.ts:109-118 | a known peer becomes reachable, heard from now; an unknown one changes nothing |
| PartitionDetectors.PartitionDetector.CheckPeers | src/consensus/partition-detector.ts:141-168 | the loop clears the flags of timed-out peers, and the quorum decision and the callback started follow from the number of cleared flags |
| PartitionDetectors.PartitionDetector.GetUnreachableCount | src/consensus/partition-detector.ts:131-137 | the number of peers whose flag is cleared |
| PartitionDetectors.CheckIsExact | src/consensus/partition-detector.ts:109-184 | with a clock that never goes back, after every check each sticky flag says exactly "heard from within the timeout", and the node is partitioned iff more than half of its peers were not |
| PartitionDetectors.FlagIsExact | src/consensus/partition-detector.ts:109-151 | for every run and any clock: a flag is set if and only if every check since the last heartbeat of its peer came within the timeout of that heartbeat |
| PartitionDetectors.DecisionIsExact | src/consensus/partition-detector.ts:141-168 | for any clock, after a check the node is partitioned if and only if more than half of its peers have a late check since their last heartbeat |
| PartitionDetectors.StaleFlagIff | src/consensus/partition-detector.ts:145-151 | for any clock, after a check: the flag calls a peer heard from within the timeout unreachable if and only if an earlier check since that heartbeat read a clock beyond it |
| PartitionDetectors.ClockGoingBackLeavesAStaleFlag | src/consensus/partition-detector.ts:145-151 | for every configuration and peer a clock that jumps ahead for one check and comes back leaves such a flag |
| PartitionDetectors.NoticesAlternate | src/consensus/partition-detector.ts:157-184 | in every run the callbacks started alternate, beginning with a partition, and the flag is the last one |
| PartitionDetectors.UnpartitionedKeepsAQuorum | src/consensus/partition-detector.ts:109-168 | in every run, between checks too, an unpartitioned node has at most half of its peers unreachable |
| PartitionDetectors.QuorumsMeet | src/consensus/partition-detector.ts:153-168 | two unpartitioned nodes of one cluster, each watching all others once, with runs, clocks and timeouts of their own, reach a common node |
| PartitionDetectors.RepeatedPeersHideIff | src/consensus/partition-detector.ts:153-155 | some run leaves a node unpartitioned with more than half of its different peers silent if and only if repetitions in the list change half of the number of peers, rounded down; and the checks that do so are exactly those that find more than half of the different peers silent but not more than half of the listed number |
| ConnectionPools.StepKeeps | src/ws/pool.ts:116-323 | every operation keeps: at most `capacity` slots, none stored as disconnected, exactly one armed timer (due at +500 ms) for each disconnecting slot and none for any other |
| ConnectionPools.FireRemoves | src/ws/pool.ts:305-323 | a timer that fires finds a disconnecting slot of its own node and removes exactly that |
| ConnectionPools.ConnectionPool.Add | src/ws/pool.ts:116-167 | the entries, timers and events after an add, in every branch; the error, or the entry that is now in the map; on a connected node, whatever the generation, the duplicate error and the same slots and timers |
| ConnectionPools.AddToConnected | src/ws/pool.ts:126-132 | an add on a connected node is refused as a duplicate with any generation: only the rejection is emitted |
| ConnectionPools.AddToDisconnecting | src/ws/pool.ts:134-147 | a leaving slot is taken over by a higher generation or 0, its timer gone and `reconnected` emitted; any other is refused as stale and changes nothing |
| ConnectionPools.AddToEmpty | src/ws/pool.ts:117-167 | an empty slot is filled exactly when the pool has room |
| ConnectionPools.LeaveExactly | src/ws/pool.ts:185-215 | a disconnect applies exactly to a connected slot of no higher generation, which keeps socket and generation and holds a new timer due in 500 ms |
| ConnectionPools.RemoveExactly | src/ws/pool.ts:221-233 | removing a node takes exactly its slot and its timer |
| ConnectionPools.ConnectionPool.ReplaceEntry | src/ws/pool.ts:280-299 | the entry object is kept and updated in place, connected under the new socket and generation, its timer cancelled |
| ConnectionPools.ConnectionPool.BeginDisconnect | src/ws/pool.ts:185-215 | applied exactly to a connected entry whose generation is not above the given one; then it is disconnecting and its timer armed |
| ConnectionPools.ConnectionPool.ForceRemove | src/ws/pool.ts:221-233 | the entry and its timer are gone; reports whether there was one |
| ConnectionPools.ConnectionPool.Fire | src/ws/pool.ts:305-323 | the callback of an armed timer, on the entry it captured, removes a disconnecting slot whatever raced with it |
| ConnectionPools.ConnectionPool.ExpireGraceWindow | src/ws/pool.ts:305-323 | removes the entry exactly when it is present, of the given generation and disconnecting |
| ConnectionPools.ConnectionPool.FireDue | src/ws/pool.ts:210-212 | letting every due timer fire, in any order, leaves exactly the slots still within their 500 ms |
| ConnectionPools.ConnectionPool.Clear | src/ws/pool.ts:265-270 | no entry and no armed timer is left, and no event is emitted |
| ConnectionPools.FireDueIs | src/ws/pool.ts:210-323 | firing all due timers removes exactly the disconnecting slots whose 500 ms are over |
| ConnectionPools.ReconnectOutcome | src/ws/connectionManager.ts:155-166 | after the forced disconnect an add is refused exactly when the reconnect is not admitted: as stale when the node has a slot, for lack of room otherwise, never as a duplicate |
| ConnectionPools.ConnectionManager.HandleConnect | src/ws/connectionManager.ts:94-106 | the pool's add: the new state, and the error or the entry |
| ConnectionPools.ConnectionManager.HandleDisconnect | src/ws/connectionManager.ts:124-143 | a bus delivery is enqueued exactly for the disconnects the pool applied |
| ConnectionPools.ConnectionManager.HandleReconnect | src/ws/connectionManager.ts:155-166 | succeeds iff the generation is above the stored one or 0, or the slot is empty and there is room, and returns the entry; fails as stale or for lack of room, never as a duplicate |
| ConnectionPools.ConnectionManager.Evict | src/ws/connectionManager.ts:201-203 | the entry and its timer are gone at once; reports whether there was one |
| ConnectionPools.ConnectionManager.Shutdown | src/ws/connectionManager.ts:206-209 | the pool is emptied |
| ConnectionRuns.RunKeeps | src/ws/pool.ts:116-323 | the invariant of `StepKeeps` in every reachable state |
| ConnectionRuns.GenerationsIncreaseIff | src/ws/pool.ts:134-146 | while a slot stays occupied its accepted generations strictly increase if and only if none after the first is 0 |
| ConnectionRuns.GenerationsIncrease | src/ws/pool.ts:134-146 | with non-zero generations they strictly increase |
| ConnectionRuns.ConnectedSurvivesIff | src/ws/pool.ts:116-233 | whatever follows a connected slot in any number and order: the slot stays exactly as it is throughout if and only if all that reaches its node are adds with any generations, disconnects with lower generations, and legacy reconnects that bring just what is there |
| ConnectionRuns.ReconnectWins | src/ws/connectionManager.ts:124-166 | a reconnect with a higher generation ends connected however disconnects, evictions and timers race with it, before it in any form and after it any adds and disconnects with lower generations |
| ConnectionRuns.ReconnectExactly | src/ws/connectionManager.ts:155-166 | in every state: connected afterwards iff admitted; a refused reconnect leaves a live connection disconnecting; other nodes are untouched |
| ConnectionRuns.GraceIsBounded | src/ws/pool.ts:203-212 | when due timers fire before the next operation, no slot is still disconnecting 500 ms after it began, at the end of any operation of any run |
| ConnectionRuns.EventsTellIffNotClearedAway | src/ws/pool.ts:65-76 | over every run, the emitted events alone tell the state of a node if and only if it was not cleared away: in the pool at some clear and not back since |
| ConnectionRuns.EventsTellTheState | src/ws/pool.ts:65-76 | so over every run without `clear` they determine the state of every node |
| ConnectionRuns.ClearTellsIff | src/ws/pool.ts:265-270 | a clear leaves informed listeners informed if and only if the pool was empty |
| Text.SplitJoin | src/rate-limiter/connection-rate-limiter.ts:238-244 | splitting joined parts gives back the parts |
| Text.JoinSplit | src/rate-limiter/connection-rate-limiter.ts:239 | the parts of a split hold no separator and join to the text |
| RateLimiting.SubnetOfQuad | src/rate-limiter/connection-rate-limiter.ts:238-244 | the subnet of a dotted quad is its first three parts |
| RateLimiting.SameSubnetIff | src/rate-limiter/connection-rate-limiter.ts:238-244 | two dotted quads share a subnet bucket iff their first three parts agree |
| RateLimiting.ConnectionRateLimiter.ConsumeBucket | src/rate-limiter/connection-rate-limiter.ts:182-216 | a missing bucket starts full; refill is capped; one token is taken iff there is one; the bucket is stamped now either way |
| RateLimiting.ConnectionRateLimiter.Check | src/rate-limiter/connection-rate-limiter.ts:105-128 | both buckets are charged whatever the other answers; allowed iff both had a token; the totals count the answers |
| RateLimiting.Potential | src/rate-limiter/connection-rate-limiter.ts:197-208 | what a key was admitted since some check plus what its bucket holds never exceeds a full bucket plus the refill of the time passed |
| RateLimiting.RunIsCharges | src/rate-limiter/connection-rate-limiter.ts:105-110 | the two families of buckets evolve independently |
| RateLimiting.StretchIsBounded | src/rate-limiter/connection-rate-limiter.ts:105-128 | in any stretch of checks from s to t at most capacity + refill (t - s) / 1000 connections are allowed, for each IP and for each /24 at once |
| Retrying.RemainingIsExact | src/rate-limiter/connection-rate-limiter.ts:105-128 | the answered `remaining` is exactly how many more checks of that address are allowed at the same moment |
| Retrying.BurstIsExact | src/rate-limiter/connection-rate-limiter.ts:187-194 | at one moment a new limiter allows an address its first connection and exactly as many as both capacities hold |
| Retrying.RefillIsExact | src/rate-limiter/connection-rate-limiter.ts:187-199 | a bucket left alone refills by its rate, at least 0.001 a second, up to its capacity, at least 1 |
| RateLimiting.RetryAllowedIff | src/rate-limiter/connection-rate-limiter.ts:105-128 | after waiting exactly the announced seconds with no other check on its buckets a refused caller is allowed iff each bucket that had admitted and charged it holds a token again by then |
| RateLimiting.RetryIsAllowed | src/rate-limiter/connection-rate-limiter.ts:204-206 | with both refill rates at least one per second it is always allowed |
| Retrying.WaitsSufficeIff | src/rate-limiter/connection-rate-limiter.ts:182-216 | for all capacities of which the subnet holds at least one whole connection more: in no run of checks is a refused client refused again at its next check when the announced seconds are over, if and only if both buckets refill by at least one token a second |
| Retrying.SlowIp | src/rate-limiter/connection-rate-limiter.ts:182-216 | whatever both capacities and the refill of the subnet, an IP bucket below one token a second makes some announced wait of some run too short |
| RateLimiting.RefusedBucket | src/rate-limiter/connection-rate-limiter.ts:204-206 | a bucket that refused admits after its own announced wait, and after no smaller positive whole number of seconds |
| RateLimiting.ResetMeansFull | src/rate-limiter/connection-rate-limiter.ts:203-214 | with no other check on them, both buckets are full iff the announced reset time has come |
| Migrations.SectionsRoundTrip | backend/src/database/migrationManager.js:61-75 | a file written as comments, an Up and a Down section splits back into the two |
| Migrations.WrittenFileRuns | backend/src/database/migrationManager.js:77-125 | of a file written as comments, an Up and a Down section, applying executes exactly the Up section and rolling back exactly the Down section; a blank Up section runs nothing and a blank Down section is an error |
| Migrations.UnmarkedUpRuns | backend/src/database/migrationManager.js:61-75 | without an Up marker what stands before the Down marker is the Up section |
| Migrations.DownBeforeUpRuns | backend/src/database/migrationManager.js:61-75 | with the Down marker before the Up marker nothing is executed on applying |
| Migrations.WholeFileRuns | backend/src/database/migrationManager.js:61-86 | a file without a Down marker runs as a whole and cannot be rolled back |
| Migrations.ScriptFileRuns | backend/src/database/migrationManager.js:86-118 | a script file runs its `up`, or its `down`, and what it does not export is an error |
| Migrations.SelectedAre | backend/src/database/migrationManager.js:138 | `rollback` takes the last `steps` applied ones, the last first; a negative number spares that many first ones |
| Migrations.LoadMigrations | backend/src/database/migrationManager.js:32-37 | a permutation of the directory |
| Migrations.LoadedAscend | backend/src/database/migrationManager.js:32-37 | distinct versions load in strictly ascending order |
| Migrations.LoadedInOrder | backend/src/database/migrationManager.js:32-37 | any directory loads in the order of its versions, also when some repeat |
| Migrations.ApplyMigration | backend/src/database/migrationManager.js:77-103 | an applied migration has its schema change and its version recorded, together; one that fails, halfway through its script or before, leaves the database as it was; no transaction stays open |
| Migrations.RollbackMigration | backend/src/database/migrationManager.js:105-125 | the same for rolling back, with a down script that may fail halfway; a missing or blank Down section is an error; no transaction stays open |
| Migrations.Migrate | backend/src/database/migrationManager.js:127-133 | applies the migrations not recorded as applied, in order, up to the first failure, and returns them |
| Migrations.Rollback | backend/src/database/migrationManager.js:135-141 | rolls back the selected ones, last first, up to the first failure, and returns them |
| MigrationRuns.LeavesAPrefix | backend/src/database/migrationManager.js:131 | a run leaves exactly a prefix of its migrations applied, fails iff the prefix is proper, and then with the next one's error |
| MigrationRuns.RestIsPendingIff | backend/src/database/migrationManager.js:129-131 | with the first n pending migrations applied, exactly the rest is pending if and only if none of the rest shares a version with them |
| MigrationRuns.InterruptedLosesNothingIff | backend/src/database/migrationManager.js:127-133 | for any directory: after an interrupted run exactly what it did not get to is pending if and only if it did not stop between two files of one version; and what is pending otherwise |
| MigrationRuns.EveryInterruptionHarmlessIff | backend/src/database/migrationManager.js:127-133 | a condition to check before the call: no failure of any script in any circumstances loses a file if and only if no two neighbouring pending files, as far as the run gets, share a version where the second can fail |
| MigrationRuns.SharedVersionIsLost | backend/src/database/migrationManager.js:127-133 | of any two files of one version: when the second fails, nothing is pending any more and it is never applied |
| MigrationRuns.ResumeReachesTheSame | backend/src/database/migrationManager.js:127-133 | after any number of interrupted runs that stop so, a run arrives at the same schema and applied set as an uninterrupted one |
| MigrationRuns.ResumeWithDistinctVersions | backend/src/database/migrationManager.js:127-133 | with distinct versions, after any interrupted runs |
| MigrationRuns.NothingLeftPending | backend/src/database/migrationManager.js:129-131 | after a successful run nothing is pending |
| MigrationRuns.RollbackPicksWhatWasAppliedIff | backend/src/database/migrationManager.js:138 | after a complete migrate, rollback with steps = number applied selects exactly those, last first, iff every version applied before sorts before every one just applied |
| MigrationRuns.MigrateThenRollbackIff | backend/src/database/migrationManager.js:127-141 | with distinct versions and each down undoing its up, a successful migrate followed by rollback of as many steps restores schema and applied set if and only if every version applied before sorts before every one just applied |
| MigrationRuns.OlderVersionAddedLater | backend/src/database/migrationManager.js:127-141 | it can fail: after a version is applied and an older one is added and applied, one step of rollback takes the first away and keeps the last |
| Vesting.CutBounds | src/utils/highPrecisionMath.js:9-13 | rounding down loses less than one unit in the last place and never goes below zero |
| Vesting.CutIsOdd | src/utils/highPrecisionMath.js:9-13 | negative numbers are cut towards zero as well |
| Vesting.VestedBounds | src/utils/highPrecisionMath.js:47-66 | with a non-negative allocation the vested amount lies in [0, allocation] for every duration and elapsed time |
| Vesting.VestedIsLinear | src/utils/highPrecisionMath.js:47-66 | the linear amount cut to its last place between start and end, nothing before, everything from the end on and without a duration |
| Vesting.VestedGrows | src/utils/highPrecisionMath.js:47-66 | and never decreases with elapsed time, across all branches |
| Vesting.ClaimsPayTheVestedAmount | src/utils/highPrecisionMath.js:79-84 | any sequence of claims, in any order of times, pays in all exactly what is vested at the latest time |
| Vesting.ClaimsArePathIndependent | src/utils/highPrecisionMath.js:79-84 | two histories of claims with the same latest time pay the same |
| Vesting.DynamicClaimsPayTheHighestShare | src/utils/highPrecisionMath.js:121-126 | dynamic claims pay in all the highest share ever due, however vesting and balance move |
| Vesting.SharesNeverExceedTheBalance | src/utils/highPrecisionMath.js:98-136 | shares against the sum of all vested amounts add up to at most the balance, short by less than one last-place unit a beneficiary |
| Vesting.DustOfAWholeBalance | src/utils/highPrecisionMath.js:98-136 | for a balance of whole units the shortfall is at most n - 1 units |
| Vesting.DustIsAttained | src/utils/highPrecisionMath.js:98-108 | and that many can be lost for every n: n - 1 units among n equal beneficiaries pay nothing |
| FlowNormalizer.AddressValue | src/metering/flow-normalizer.ts:1-4 | the shifts and ors compute the usual 32-bit value of a dotted address |
| FlowNormalizer.OrBits | src/metering/flow-normalizer.ts:3 | the `|` of two words has exactly the bits that one of the two has |
| FlowNormalizer.AddressesDiffer | src/metering/flow-normalizer.ts:1-4 | different addresses are different integers |
| FlowNormalizer.LowerAddressFirst | src/metering/flow-normalizer.ts:28-39 | the canonical tuple has the lower address first, each with its own port, and is ingress iff the packet comes from that one or from an equal one |
| FlowNormalizer.ReverseIsOppositeIff | src/metering/flow-normalizer.ts:28-39 | a packet and its reverse count in opposite directions iff their addresses are different integers, and then share tuple and hash |
| FlowNormalizer.DifferentAddressesAreOpposite | src/metering/flow-normalizer.ts:28-46 | so for every two different well-formed addresses |
| FlowNormalizer.NotNormalized | src/metering/flow-normalizer.ts:1-46 | between addresses without a decimal part, such as hexadecimal IPv6 ones, nothing is normalized: both directions count as ingress, and as two flows with two hashes when the addresses differ |
| FlowNormalizer.HashIsUniqueIff | src/metering/flow-normalizer.ts:44-46 | a flow shares its hash with no other if and only if neither address and not the protocol begins with a whole endpoint and a dash (some text, a colon, a number, a dash) |
| FlowNormalizer.HashInjective | src/metering/flow-normalizer.ts:44-46 | between flows whose addresses do not, with any protocols: equal hashes mean equal endpoints, ports and protocol |
| FlowNormalizer.NoDashHidesNothing | src/metering/flow-normalizer.ts:44-46 | so for every text without a dash, IPv4 and IPv6 addresses among them |
| FlowNormalizer.FlowsCollide | src/metering/flow-normalizer.ts:44-46 | two different flows with one hash, for any three endpoints: the dash of an address and the dash of a protocol |
| Metering.FlowTracker.RecordTraffic | src/metering/flow-tracker.ts:27-54 | out-of-range NICs and new flows of a full shard are ignored; otherwise exactly the counter of the direction in the NIC's own shard grows |
| Metering.NicAggregator.MergeShard | src/metering/nic-aggregator.ts:14-27 | one pass over a shard adds its counters to the merged records and copies new ones |
| Metering.NicAggregator.Reconcile | src/metering/nic-aggregator.ts:9-32 | the merged table has one record for each flow any shard has seen, with its counters summed over all shards |
| Metering.NicAggregator.GetTotalBytes | src/metering/nic-aggregator.ts:59-63 | both directions of the merged record, 0 for an unknown flow |
| Metering.CountersAreSums | src/metering/flow-tracker.ts:27-54 | for every run of packets the counters summed over the shards are the accepted bytes in each direction |
| Metering.ReconciledIsAcceptedBytes | src/metering/nic-aggregator.ts:9-32 | after any run and a reconcile, the table reports exactly the accepted bytes of every flow in each direction over all NICs |
| Metering.ReconcilingAgainChangesNothing | src/metering/nic-aggregator.ts:9-32 | two tables reconciled from the same shards are equal |
| Metering.AllAcceptedIffFits | src/metering/flow-tracker.ts:27-46 | every packet of a run counts if and only if each names one of the NICs and no NIC sees more different flows than its shard holds |
| Metering.ShardKeepsTheFirst | src/metering/flow-tracker.ts:33-46 | after any run each shard holds exactly the first flows of its NIC up to its capacity, each with the tuple of its first packet |
| Metering.AcceptedIff | src/metering/flow-tracker.ts:27-46 | a packet counts if and only if its NIC exists and its flow is among the first ones that NIC has seen by then, as many as a shard holds |
| Metering.NothingDroppedBelowCapacity | src/metering/flow-tracker.ts:33-46 | then the accepted bytes of every flow are those of all its packets |

## Left out

- Rebalancing.RebalanceCoordinator.Rebalance: assumes one rebalance at a time on its partitions and that nobody else resumes or flushes them meanwhile, because `pausedPartitions` is a plain set without counting; steps of other callers that break this are skipped.
- ShardedBus.ShardedEventBus.FailFlush: a failing append writes nothing; a batch of which a part reached the file before the error is not modelled.
- Rebalancing.RebalanceCoordinator.AwaitFlush: an append that lands and then throws counts as one that wrote nothing.
- Rebalancing.RebalanceCoordinator.AwaitDrain: the coordinator's `drain(partition)` passes no token; that the owner control behind it drains with the token of the migration, so that a drain out of force is refused, is how this model binds it to the partition owner.
- Rebalancing.RebalanceCoordinator.AwaitAssume: what the new owner does in `assumeOwnership`, and the replay of the migration log by it, are outside the repository's files; the effect is the journal entry and what the old side still held.
- ShardedBus.MigrationLog.Replay: records are values; writing them as JSON lines and reading the file back, and removing it, are not modelled.
- LedgerRefinement.ReplayThenRetainedIsTheLog: assumes no archive step fails, because after one an older full segment can become active again; `append`, `spillToArchive` and `setPartitionMode` run one after the other; compression is any pair with decompress(compress(x)) = x; an append the throttle refuses writes nothing and is no step.
- WalWriters.WalWriter.Append: a file append or sync that throws is not modelled.
- WalWriters.WalWriter.Flush: whether acknowledged bytes are synced is not stated; the segment synced is whichever is active after a possible rotation.
- SegmentStore.SegmentManager.GetActiveSegment: a segment is a value in the list rather than a shared object, so a caller that keeps the object returned by `getActiveSegment` is not modelled.
- SegmentStore.SegmentManager.TrimWindow: a deletion that fails is ignored by the source and leaves the file behind; here the file goes with its segment.
- LedgerSync.LedgerSyncProtocol.SpillToArchive: a step that fails while writing leaves no partial archive file; the `archiveError` events are not kept.
- LedgerSync.LedgerSyncProtocol.ReplayFromArchive: failing reads, decompression and record callbacks, after which replay stops with the error, are not modelled.
- WalFrames.Decode: record callbacks are the list of records delivered.
- AckWatermarks.AckWatermark.OnTimer: the interval is an operation that may come at any time; no claim on how soon.
- PartitionDetectors.PartitionDetector.CheckPeers: the awaited callbacks (replay on heal, errors they throw) are recorded as started; what happens after their awaits is not modelled; a peer's state is a value in the map, so what a caller does with the objects `getPeerStates` hands out is not either.
- ConnectionPools.ConnectionPool.BeginDisconnect: the clock is read once for `disconnectingAt` and for the start of the timer; sockets are opaque and event listeners do not call back into the pool.
- ConnectionRuns.GraceIsBounded: assumes that due timers fire before the next operation; without that a slot stays until its timer fires.
- ConnectionPools.ConnectionManager.HandleDisconnect: the asynchronous delivery and its retries are a queue entry; the manager's forwarded events are not modelled.
- RateLimiting.ConnectionRateLimiter.Check: evicting old buckets past `maxBuckets` is not modelled (an evicted bucket comes back full), so the bounds hold for runs without eviction; active-connection counts, metrics and `reset` are left out as they would only add easy members.
- Retrying.WaitsSufficeIff: where the subnet's bucket holds no more whole connections than one IP's, a slow subnet bucket is not decided; a slow IP bucket is (`SlowIp`).
- Migrations.Migrate: scripts are deterministic functions on the schema, DDL is transactional, and failures of BEGIN and COMMIT are not modelled; `localeCompare` is the code-unit order, which agrees on digits; marker lines are recognised already, and the row's name, times and stored rollback text are not kept.
- Migrations.SplitSections: sections are lines, so trimming blank lines at their ends is not modelled beyond the test for blankness.
- Vesting.VestedAmount: numbers are reals and the number of decimal places is a parameter; inputs that are no finite number throw in the source.
- FlowNormalizer.ToNumber: a part that is no plain decimal numeral counts as 0, so signs, exponents, hexadecimal and surrounding blanks, which JavaScript's unary plus reads, are not modelled; neither are numerals beyond the exact range of doubles.
- Metering.NicAggregator.Reconcile: the asymmetric-routing check only logs; records are values in the shard maps, so the object a shard holds is not shared with the merged table, as in the source's copies.
- Hash and key functions work on characters that stand for UTF-16 code units.
- Metrics, logging, the Redis, SQL, Kubernetes, HTTP and Stellar calls, Express routes, GraphQL resolvers and jobs.
- The legacy flow tracker, the deficit round robin queue, DHT lookup and routing, and the peer selector.
