# A verified model of the DataHub C++ SDK

The project models the four parts of the SDK whose correctness spans many calls, and proves what
they promise over every input, every run and every interleaving.

1. **Consumer delivery and commits.** A shard reader caches fetched records and hands them out; an
   offset manager queues each delivered message, pops the acknowledged prefix, and commits the last
   popped offset; a coordinator starts a session behind the committed record; the group reader
   acknowledges automatically and picks the next shard. `ShardReading`, `OffsetManagement`,
   `OffsetSessions`, `OffsetCoordination` and `GroupReading` follow the source files, and `AutoAck`
   joins automatic acknowledgement with the commits of a session. `ConsumerSlots` is what one
   consumer holds for one shard, `ConsumerSteps` what the steps of one consumer do to it, and
   `Consumer` puts any number of consumers and shards together and proves at-least-once delivery;
   `Reopening` says exactly when letting a session take effect keeps it, and `LostRecords` has the
   runs in which it does not.
2. **The indexed heap and the reader selector.** `OffsetHeap` is the heap of shared nodes that
   record their own positions; `ReaderSelector` marks nodes invalid instead of removing them.
3. **The producer.** `RecordPacks` batches records with one promise per batch; `WriterLanes` is the
   step machine of one writer and its worker, `Pipeline` that of any number of writers on hashed
   workers; `ShardWriting` holds the thread pools and the writer class, whose methods are proved to
   be steps of that machine and to keep its invariant; `FlushBarriers` and
   `FlushStranding` say exactly when a flush is a barrier, and `StrandedFlush` is a run in which one
   leaves a batch behind. `WriterSelector` and `GroupWriting` choose the shard of a write and retry it;
   `StrayWriters` says which choices have no writer when other threads interfere.
4. **CRC-32C and the DHUB frame.** `Crc32c` defines the checksum bit by bit (section 12.1 of RFC
   3720, Appendix B of RFC 4960), `CrcLoops` proves the program's loops equal to it, `CrcErrors`
   which errors it detects, `Frame` what that means for framed messages. `Decimal` is the one
   number-formatting routine with index arithmetic worth proving.

Code that updates objects or buffers in place is a class or a method over arrays, proved equal to a
function on values; the theorems are lemmas about those functions. What happens outside (the server's
answers, expired timers, the order in which threads take their locks) is a parameter or an action of
a machine, so the theorems hold for all of it. In `Consumer` and `Pipeline` every region under one
mutex is a step of its own, and so is every server call, with anything the other threads do in
between: a session is asked for and takes effect later, a reader is picked, its cache looked at, its
fetch sent, a record taken and then queued.

What the source's readers may not expect is stated with its exact condition, and where a run shows
it, with the run:

- a flush is a barrier in every run -- it returns only with everything accepted before it resolved --
  exactly when it finds nothing to send, or one pack and room for it, or no other writer uses its
  worker and the pool has room for tasks at all (`FlushStranding.FlushBarrierIff`). A run in which it
  is not is `StrandedFlush.FlushStrands`; `Pipeline.FlushAtOnceIff` is the case of a writer with
  nothing in the pool, and `Pipeline.FlushBarrier` what holds when no submission is refused;
- letting a session take effect can lose records: when a reader was kept and an undone message is
  queued whose record does not come again first (`Reopening.KeptOpenSafeIff`; with records in order
  that is any undone message, unless the reader is dead, `Reopening.InOrderOpenSafeIff`), or when a
  record of the shard is in a reading thread's hand while the shard is released and opened again and
  something before it is undone (`Reopening.HandOpenSafeIff`). `Reopening.OpenSafeIff` is the general condition, and
  `LostRecords.KeptReaderLoses` and `LostRecords.RecordInHandLoses` start from a fresh server;
- a session's commits are sure to increase exactly when the one before left nothing pending, or only
  an offset below the new start (`OffsetSessions.CommitsRiseIff`);
- the same condition decides whether, with automatic acknowledgement, something pending or committed
  can reach the message the user still holds (`AutoAck.NothingPassesHeld`);
- a write that fails on as many shards as there are has tried all of them only under an exact
  condition on where the round robin stands (`WriterSelector.FailingTriesCoverIff`); whatever the
  order of the shards, only if all were active or none (`WriterSelector.FailingTriesCoverAnyOrderIff`);
- a failure reported for a shard that was removed meanwhile makes it a shard that is picked and not
  found (`StrayWriters.RunStraysIff`, `StrayWriters.LookupFailsIff`);
- reactivating a shard whose node is still queued can hide an older shard: at its next record exactly
  when that node is in front (`OffsetHeap.QueuedTwiceHidesIff`), and later on otherwise
  (`ReaderSelector.ReactivatedTwice`; `ReaderSelector.ShardReaderSelectStrategy.GetNextShard` for when
  it happens);
- a reader's cache overshoots its limit by up to two fetches, not one, because looking for room and
  raising the running flag are two moments (`ShardReading.FetchBounded`, reached for every limit by
  `ShardReading.OvershootReached`; `ShardReading.OncePasses` without a fetch completing in between);
- a pool that is shut down and started again takes nothing (`ShardWriting.SubmitAfterRestart`);
- a payload whose checksum is zero travels unprotected (`Frame.AnyBurst`, `Frame.UnprotectedPayload`).

The guard in `CommitOffset` (client/src/offset_manager.cpp:165) reads through an end iterator when
a shard has no metadata, where its own log message says it throws; the model proves that this never
happens (`OffsetManagement.CommitsCarryLatestMeta`).

## Model

| member | source | states |
|---|---|---|
| `Consumer.AtLeastOnce` | client/src/offset_manager.cpp:45-181 | in every run of any number of consumers whose sessions take effect safely (`Reopening.RunSafeIff` says what that is), every record up to a shard's committed one has been acknowledged or has expired, a new session passes over no other record, and a reader's cursor has passed only records that are done, queued, in hand or cached |
| `Consumer.StepKeepsInv` | client/src/shard_group_reader.cpp:96-260 | each step -- asking for a session and its taking effect, removing a reader, picking one, looking, sending, seeking and ending a fetch, taking a record, queueing it, acknowledging, sync, commit taken or refused, release, reset -- keeps the invariant behind that, provided a session that takes effect does so safely |
| `Consumer.RunKeepsInv` | client/src/offset_manager.cpp:93-123 | so does every run |
| `ConsumerSlots.SyncKeeps` | client/src/offset_manager.cpp:125-144 | syncing pops only acknowledged messages and makes a pending offset that abandons no record |
| `ConsumerSlots.EndKeeps` | client/src/shard_reader.cpp:140-188 | however a fetch ends, nothing before the next fetch position is forgotten |
| `ConsumerSlots.EndBesideKeeps` | client/src/shard_group_reader.cpp:119-133 | nor when it is the fetch of a reader that was removed while a thread reads from it |
| `ConsumerSlots.TakeOwnHeld` | client/src/shard_reader.cpp:208-235 | taking the front of the cache moves a record into the thread's hand without changing what is held or its order |
| `ConsumerSlots.EnqueueHeld` | client/src/offset_manager.cpp:62-70 | queueing it does not either, though other threads have run in between |
| `ConsumerSlots.FreshFetches` | client/src/offset_coordinator.cpp:97-113 | a reader started behind a committed offset that abandons nothing forgets nothing |
| `ConsumerSlots.SeeksFrom` | client/src/shard_reader.cpp:64-108 | a session looks behind its committed record, or from the oldest one when that is out of range or nothing was committed; a cursor held is kept |
| `Reopening.OpenSafeIff` | client/src/shard_group_reader.cpp:96-117 | a session takes effect safely -- what may still come of the shard, from the record in hand, the reader being read and the shard's reader, comes in order without what was queued -- if and only if no later run without another session makes a server believe an undone record done, and if and only if no later run does whose sessions take effect safely themselves |
| `Reopening.RunSafeIff` | client/src/shard_group_reader.cpp:96-117 | a run lets all its sessions take effect safely if and only if at no point of it harm is still to come |
| `Reopening.UnsafeOpenGoesWrong` | client/src/shard_group_reader.cpp:103-116 | otherwise some run in which no further session takes effect commits past an undone record |
| `Reopening.SoundForever` | client/src/offset_manager.cpp:45-181 | from an invariant state no run whose sessions take effect safely ever makes a server believe an undone record done |
| `Reopening.FreshOpenSafe` | client/src/shard_group_reader.cpp:103-116 | without a reader for the shard and with nothing of it being read it is always safe, leftovers pending or not |
| `Reopening.HandOpenSafeIff` | client/src/shard_group_reader.cpp:222-232 | without a reader but with a record of the shard in hand it is safe if and only if everything before that record is done |
| `Reopening.DrainedOpenSafe` | client/src/shard_group_reader.cpp:103-116 | with a reader that was kept it is safe once every queued message is done, whatever that reader is about |
| `Reopening.KeptOpenSafeIff` | client/src/shard_group_reader.cpp:103-116 | with a reader that was kept, whatever state it and the reading thread are in, it is safe if and only if every queued record that is not done comes again: in hand or cached before every later record, with no fetch going on past it otherwise |
| `Reopening.InOrderOpenSafeIff` | client/src/shard_group_reader.cpp:103-116 | when the records held of the shard are in strictly increasing order below the kept reader's cursor, and no removed reader of it is being read, that is if and only if every queued message is done or the reader has lost its fetch task with nothing cached or in hand |
| `LostRecords.KeptReaderLoses` | client/src/shard_group_reader.cpp:103-116 | a run from a fresh server that comes to an unsafe session with a kept reader, its records in order, after which a record is lost |
| `LostRecords.RecordInHandLoses` | client/src/offset_manager.cpp:66-69 | another with a record in hand, whose shard is released and opened before it is queued |
| `OffsetManagement.OffsetManager.UpdateMeta` | client/src/offset_manager.cpp:45-60 | version and session replaced, the shard's queue emptied, pending offsets kept |
| `OffsetManagement.OffsetManager.SendRequest` | client/src/offset_manager.cpp:62-70 | the message joins its shard's queue, or is dropped when the shard is being released |
| `OffsetManagement.OffsetManager.SyncOffset` | client/src/offset_manager.cpp:125-144 | over all shards: acknowledged prefixes popped, the last popped offset pending |
| `OffsetManagement.OffsetManager.CommitOffset` | client/src/offset_manager.cpp:153-198 | what each attempt sends, how many attempts are made, and that a failure leaves every offset pending |
| `OffsetManagement.OffsetManager.StampOffsets` | client/src/offset_manager.cpp:162-176 | every pending offset gets its shard's current version and session, none is missing |
| `OffsetManagement.OffsetManager.ReleaseShards` | client/src/offset_manager.cpp:75-81 | exactly the named shards are forgotten |
| `OffsetManagement.OffsetManager.OnOffsetReset` | client/src/offset_manager.cpp:85-91 | everything is forgotten |
| `OffsetManagement.PopAcked` | client/src/offset_manager.cpp:131-137 | the pop loop removes the longest acknowledged prefix and remembers its last message |
| `OffsetManagement.SyncLoop` | client/src/offset_manager.cpp:129-144 | the loop over the shards does that for each, in any order |
| `OffsetManagement.AckedPrefix` | client/src/offset_manager.cpp:133-137 | popped and remaining messages are the queue, all popped ones were acknowledged, the remaining front is not |
| `OffsetManagement.CommitsCarryLatestMeta` | client/src/offset_manager.cpp:45-91 | in every run, whatever is pending has metadata, and commits carry the version and session of the latest open |
| `OffsetManagement.NeverPendingUnnamed` | client/src/offset_manager.cpp:139-143 | no run leaves an offset pending for the empty shard id |
| `OffsetManagement.ApplyKeepsProvisioned` | client/src/offset_manager.cpp:45-168 | every operation keeps pending shards within queued shards within shards with metadata |
| `OffsetManagement.StampAgain` | client/src/offset_manager.cpp:157-196 | a retried commit sends the same offsets |
| `OffsetManagement.MessageKey.SetReady` | src/model/message_key.cpp:18-26 | acknowledging sets the flag |
| `OffsetManagement.AckQueued` | src/model/message_key.cpp:18-26 | the queue sees it through the shared key: its entry, and no other, becomes acknowledged |
| `OffsetSessions.StepExact` | client/src/offset_manager.cpp:62-197 | within a session: popped and queued messages are those enqueued, the pending offset is the last popped one's, a failed commit loses nothing |
| `OffsetSessions.Play` | client/src/offset_manager.cpp:62-197 | through every run of a session: what was popped, queued, pending and committed stays exactly what was enqueued, in order |
| `OffsetSessions.OpensExact` | client/src/offset_manager.cpp:45-60 | a session starts that way, with a leftover still pending |
| `OffsetSessions.OwnCommitsIncrease` | client/src/offset_manager.cpp:125-181 | with increasing messages a session's own commits strictly increase |
| `OffsetSessions.CommitsRiseIff` | client/src/offset_manager.cpp:45-181 | for every session: its commits, the carried-over one included, strictly increase in every run of increasing messages if and only if nothing was pending when it was opened or only an offset below its start |
| `OffsetCoordination.InitAndGetOffsets` | client/src/offset_coordinator.cpp:93-115 | every shard is opened in the manager under its new session and starts at the position the loop works out |
| `OffsetCoordination.StartBehindCommitted` | client/src/offset_coordinator.cpp:104-107 | that position is one behind the committed record, or the oldest record when nothing was committed |
| `ShardReading.ReadDeliversLog` | client/src/shard_reader.cpp:190-239 | every read hands out exactly the next record of the log or none, whatever fetches fail, are empty or succeed while it waits, before, between or after its two looks at the reader, and the cache stays bounded |
| `ShardReading.ReadTells` | client/src/shard_reader.cpp:190-239 | every read yields the first thing the cache and the fetches ending meanwhile have to tell -- a record, a failure, that nothing was there -- and leaves the rest in order; without any it yields nothing, and only when its time is up |
| `ShardReading.ReadAnswers` | client/src/shard_reader.cpp:208-235 | a read that finds nothing cached raises a failed fetch's exception, returns nothing after an empty fetch, and the first record of any other |
| `ShardReading.RaisesOnlyFailures` | client/src/shard_reader.cpp:151-160 | over any reads, no more raise an exception than fetches have failed |
| `ShardReading.ReadTimed` | client/src/shard_reader.cpp:172-176 | records are handed out with the log's system times |
| `ShardReading.FetchTells` | client/src/shard_reader.cpp:140-188 | a fetch adds to what is unread its records, its failure unless one is unread right before it, or that nothing was there |
| `ShardReading.ResetAsksOldest` | client/src/shard_reader.cpp:57-62 | after a reset the next fetch asks for the oldest record; what is cached stays |
| `ShardReading.FetchSeamless` | client/src/shard_reader.cpp:140-188 | after any fetch, delivered and cached records together are the log from the start to the cursor |
| `ShardReading.TakeSeamless` | client/src/shard_reader.cpp:208-235 | taking the front delivers the next log record or a marker |
| `ShardReading.FetchBounded` | client/src/shard_reader.cpp:153-185 | between two passes the cache holds at most its limit and two fetches less two -- or one record, when a fetch brings no more -- and never two failure markers in a row |
| `ShardReading.OvershootReached` | client/src/shard_reader.cpp:203-206 | for every limit and size of a fetch, passes of a new reader that reach that bound |
| `ShardReading.OncePasses` | client/src/shard_reader.cpp:203-206 | while no fetch completes between looking for room and raising the flag, the limit is overshot by one fetch less two records only |
| `ShardReading.ShardReader.FetchOnce` | client/src/shard_reader.cpp:140-188 | the task's effect on cursor, cache and running flag for every way the server calls end |
| `ShardReading.ShardReader.Read` | client/src/shard_reader.cpp:190-239 | the read loop's effect and result, whenever during its passes fetches come to their end, are those of ReadNext, which ReadTells, ReadAnswers and ReadDeliversLog are about |
| `GroupReading.ReadRecord` | client/src/shard_group_reader.cpp:42-81 | the first message or exception among the attempts is the outcome, and nothing exactly when there is neither; with automatic acknowledgement, after a read returns a record exactly the records handed out before it are acknowledged, and in the offset manager the one before is acknowledged in its queue and the new one last in its own; after an empty or failed read all are acknowledged; without it the record is queued and nothing else happens |
| `GroupReading.ShardGroupReader.ReadOnce` | client/src/shard_group_reader.cpp:218-260 | one attempt, from what the reader's read comes to: a record under a fresh unacknowledged key and the shard's new age, no record and a shard that waits, or an exception, thrown on but for the two that are dealt with, the invalid cursor by starting over |
| `GroupReading.ThreadKey.AckLast` | client/src/shard_group_reader.cpp:196-203 | the held message is acknowledged and let go |
| `GroupReading.SyncWhileHeld` | client/src/offset_manager.cpp:125-144 | a sync leaves the held message last in its queue |
| `AutoAck.NothingPassesHeld` | client/src/shard_group_reader.cpp:42-81 | in every auto-acknowledging run of a session, through any reads, syncs, commits and changes of other shards, everything pending or committed for the shard is below the record the user still holds, if and only if nothing was pending when the session was opened or only an offset below its start |
| `AutoAck.BelowHeld` | client/src/offset_manager.cpp:125-181 | while a record is held and what was left pending lies below the session's start, pending and committed offsets are below it and every message before it is acknowledged |
| `AutoAck.OpensAuto` | client/src/offset_manager.cpp:45-60 | a session opens that way in the middle of such a run |
| `GroupReading.HeldStopsSync` | client/src/offset_manager.cpp:133-143 | no sync passes a message the caller still holds |
| `GroupReading.ShardGroupReader.CreateReaders` | client/src/shard_group_reader.cpp:96-117 | a new reader with the given limit, nothing fetched yet, at its position for each shard that had none, to be read before any other shard; the others untouched; the loop ends early at exactly such a shard without a position |
| `GroupReading.ShardGroupReader.CreateShardReader` | client/src/shard_group_reader.cpp:96-160 | every shard of the answer is opened in the manager with an empty queue, also when its reader is kept; new readers start at the given time or behind the committed offset; without an answer nothing changes |
| `GroupReading.StartsAsTold` | client/src/shard_reader.cpp:64-92 | a new reader asks for its start time if it was given one, else for the record behind the committed one, else for the oldest |
| `GroupReading.ShardGroupReader.RemoveReaders` | client/src/shard_group_reader.cpp:119-133 | readers and selector entries of exactly those shards removed, the others as old as before |
| `GroupReading.ShardGroupReader.GetNextReader` | client/src/shard_group_reader.cpp:162-194 | when no reader is removed in between: the named shard's reader or the lookup error, else the oldest ready shard's reader, and any reader only while every shard waits |
| `GroupReading.ShardGroupReader.ChooseShard` | client/src/shard_group_reader.cpp:164-164 | the caller's shard, else the oldest ready one while the heap is in order, which has a reader at that moment, else none because every shard waits; who waits afterwards |
| `OffsetHeap.RunCorrect` | client/src/shard_offset_heap.cpp:8-95 | any run of pushes of unqueued nodes, pops and updates of queued ones keeps heap order, exact back-indices and the multiset of nodes |
| `OffsetHeap.DrainSorts` | client/src/shard_offset_heap.cpp:59-81 | popping until empty yields every node once, timestamps never decreasing |
| `OffsetHeap.TopIsMinimum` | client/src/shard_offset_heap.cpp:73-81 | the first node of an ordered heap is a minimum |
| `OffsetHeap.PushCorrect` | client/src/shard_offset_heap.cpp:52-57 | the node is added and order kept; back-indices stay exact if and only if it was not queued |
| `OffsetHeap.PopCorrect` | client/src/shard_offset_heap.cpp:59-71 | exactly the first node is removed and unqueued, order and back-indices kept |
| `OffsetHeap.UpdateCorrect` | client/src/shard_offset_heap.cpp:83-95 | a queued node changes its timestamp and order, nodes and back-indices are kept |
| `OffsetHeap.UpdateUnqueued` | client/src/shard_offset_heap.cpp:83-95 | updating an unqueued node changes nothing in an ordered heap, wherever its stale index points |
| `OffsetHeap.QueuedTwiceHidesIff` | client/src/shard_offset_heap.cpp:52-95 | in every ordered heap: a node queued once more and then given a newer timestamp hides an older node if and only if it was in front and some other node is older than that timestamp |
| `OffsetHeap.UpRestores` | client/src/shard_offset_heap.cpp:8-23 | sifting up repairs the one misplaced position |
| `OffsetHeap.DownRestores` | client/src/shard_offset_heap.cpp:25-50 | sifting down does |
| `OffsetHeap.QueuedTwiceHidesOldest` | client/src/shard_offset_heap.cpp:52-95 | a node queued three times that is not in front hides the oldest node after two ordinary updates |
| `ReaderSelector.ReactivatedTwice` | client/src/shard_select_strategy.cpp:23-106 | calls that bring this about: two shards added, one of them found empty twice, then a record from each, and the selector answers with the newer shard |
| `OffsetHeap.Heap.SiftUp` | client/src/shard_offset_heap.cpp:8-23 | the recursion over shared nodes is the function the lemmas are about |
| `OffsetHeap.Heap.SiftDown` | client/src/shard_offset_heap.cpp:25-50 | likewise, with the unsigned guard on an empty vector |
| `OffsetHeap.Heap.PushNode` | client/src/shard_offset_heap.cpp:52-57 | likewise |
| `OffsetHeap.Heap.PopNode` | client/src/shard_offset_heap.cpp:59-71 | likewise, including the popped node's index |
| `OffsetHeap.Heap.TopNode` | client/src/shard_offset_heap.cpp:73-81 | the first node, or null |
| `OffsetHeap.Heap.UpdateNode` | client/src/shard_offset_heap.cpp:83-95 | likewise, direction chosen against the old timestamp |
| `ReaderSelector.ShardReaderSelectStrategy.GetNextShard` | client/src/shard_select_strategy.cpp:46-84 | the answer is a ready shard and the oldest one; an empty answer means none was ready and makes every shard ready for the next call; no shard is lost or resurrected; nodes stay distinct if and only if no reactivated node is still queued |
| `ReaderSelector.ShardReaderSelectStrategy.AfterRead` | client/src/shard_select_strategy.cpp:86-106 | a record moves its shard to its system time, no record makes the shard wait, others are unchanged |
| `ReaderSelector.ShardReaderSelectStrategy.AddShard` | client/src/shard_select_strategy.cpp:23-31 | the shard is registered and queued; no old node is resurrected if and only if it was not registered or was waiting |
| `ReaderSelector.ShardReaderSelectStrategy.RemoveShard` | client/src/shard_select_strategy.cpp:33-44 | the shard is gone and its node invalid, the rest is kept |
| `ReaderSelector.ShardReaderSelectStrategy.Reactivate` | client/src/shard_select_strategy.cpp:69-78 | every waiting shard is queued again, none is lost |
| `ReaderSelector.ShardReaderSelectStrategy.DropInvalidNodes` | client/src/shard_select_strategy.cpp:51-64 | dropping invalid nodes loses no shard and leaves a valid node on top |
| `ReaderSelector.ShardReaderSelectStrategy.TopIsOldest` | client/src/shard_select_strategy.cpp:53-57 | in an ordered heap the top is no newer than any ready shard |
| `ReaderSelector.SkimKeepsValid` | client/src/shard_select_strategy.cpp:51-64 | dropping invalid nodes keeps every valid one, order and back-indices |
| `Pipeline.WriteOrder` | client/src/shard_writer.cpp:106-121 | for every interleaving of writers over hashed workers, a writer's executed packs concatenate to a prefix of the batches it accepted, whose promises are numbered without gap or repeat |
| `Pipeline.FlushBarrier` | client/src/shard_writer.cpp:70-77 | in every run, a flush during which no submission of the writer was rejected returns only after every batch accepted before the call is resolved |
| `FlushStranding.FlushBarrierIff` | client/src/shard_writer.cpp:70-77 | a flush called after any run returns, in every run that follows, only with every batch accepted before it resolved, if and only if it finds no pack to send, or one pack and room for it in the worker's queue, or no other writer hashes to its worker and that queue has room for a task at all |
| `FlushBarriers.AssuredReturns` | client/src/shard_writer.cpp:106-121 | one direction, from every invariant state: under that condition a flush that may return has everything resolved, rejected submissions or not |
| `FlushStranding.PressureStrands` | client/src/shard_writer.cpp:166-172 | the other: while packs the flush waits for are ready and another writer shares the worker, that writer can keep the queue full until nothing of the flushed writer is in the pool |
| `Pipeline.FlushAtOnceIff` | client/src/shard_writer.cpp:70-77 | for a writer with nothing in the pool, a flush may return at once if and only if nothing was ready or the worker is full; in the second case with batches unresolved and none on the way |
| `StrandedFlush.FlushStrands` | client/src/shard_writer.cpp:70-77 | a run from started writers, with room for one task in a worker, in which a flush returns with an accepted batch unresolved |
| `Pipeline.StepKeepsInv` | client/src/shard_writer.cpp:57-172 | append, submit, count, start, resolve, task-done and return each keep order, counting and what flushes rely on, for all writers at once |
| `Pipeline.RunKeepsInv` | client/src/thread_pool.cpp:40-60 | so does every run |
| `WriterLanes.ExecutedIsPrefix` | client/src/shard_writer.cpp:106-164 | a writer's executed packs concatenate to a prefix of its accepted batches |
| `WriterLanes.FlushComplete` | client/src/shard_writer.cpp:70-77 | a waiting flush that sees a zero count, no worker about to send and no rejection since it entered has all its batches resolved |
| `WriterLanes.SendKeeps` | client/src/shard_writer.cpp:106-121 | obtaining and submitting a pack keeps one writer's invariant, whoever does it and whether or not the pool accepts |
| `WriterLanes.CountKeeps` | client/src/shard_writer.cpp:115-119 | so does counting and popping it, though the worker may have run it already |
| `WriterLanes.SendWholeKeeps` | client/src/shard_writer.cpp:106-121 | the two together keep it when nobody comes in between |
| `WriterLanes.ResolveKeeps` | client/src/shard_writer.cpp:123-164 | so does executing a pack, which resolves exactly its batches |
| `WriterLanes.DoneKeeps` | client/src/shard_writer.cpp:166-172 | so does counting a task off |
| `WriterLanes.RejectedIsResent` | client/src/shard_writer.cpp:109-119 | a rejected pack stays in front and is what the next successful submission submits |
| `Pipeline.NextRouted` | client/src/thread_pool.cpp:152-162 | all tasks of a writer stay with the one worker its key hashes to |
| `RecordPacks.AppendConserves` | client/src/record_pack_queue.cpp:49-70 | an accepted batch follows everything waiting, and nothing is lost, reordered or over a limit |
| `RecordPacks.ObtainConserves` | client/src/record_pack_queue.cpp:26-37 | moving the current pack keeps the waiting batches |
| `RecordPacks.PopConserves` | client/src/record_pack_queue.cpp:39-47 | popping removes exactly the front pack's batches |
| `RecordPacks.QueueBounded` | client/src/record_pack_queue.cpp:26-70 | with k appenders under way the packs never outnumber the limit plus k, even under forced flushes |
| `RecordPacks.PacksFull` | client/src/record_pack_queue.cpp:49-82 | in every run, a pack that became ready neither overdue nor forced could not have held the first batch of the pack behind it within both limits |
| `RecordPacks.OverdueIsReady` | client/src/record_pack_queue.cpp:60-63 | an overdue current pack is ready after an append, with the batch if it took it; one in time goes on collecting until it refuses |
| `RecordPacks.TryAppendOk` | client/src/record_pack.cpp:21-52 | the counters are the contents, and a pack over a limit has all its size in its last batch |
| `RecordPacks.OversizedIsSingle` | client/src/record_pack.cpp:21-36 | with batches of positive size, a pack over a limit is a single batch |
| `RecordPacks.PromisesPair` | client/src/record_pack.cpp:43-52 | the i-th promise of a pack belongs to its i-th batch of records |
| `RecordPacks.RecordPack.TryAppendRecords` | client/src/record_pack.cpp:21-36 | accepts the whole batch with a fresh promise, or only marks the pack ready; refused only by a pack that is not empty and would go over one of the limits |
| `RecordPacks.RecordPack.AppendRecords` | client/src/record_pack.cpp:43-52 | records, counters and promise are added together |
| `RecordPacks.GetTotalRecordSize` | client/src/record_pack.cpp:54-62 | the sum of the record sizes |
| `RecordPacks.RecordPackQueue.AppendRecord` | client/src/record_pack_queue.cpp:49-82 | null if and only if the queue is full, changing nothing; otherwise the batch is appended |
| `RecordPacks.RecordPackQueue.ObtainReadyRecordPack` | client/src/record_pack_queue.cpp:26-37 | the front pack or null, the current pack moved when due |
| `RecordPacks.RecordPackQueue.PopBackRecordPack` | client/src/record_pack_queue.cpp:39-47 | the front pack is dropped, if any |
| `ShardWriting.WriteOnce` | client/src/shard_writer.cpp:79-104 | which answer ends the retry loop, after how many calls: it gives up after one call or as many refused ones as there are to be retries, and not before |
| `ShardWriting.SettledMeans` | client/src/shard_writer.cpp:79-104 | a write succeeds if and only if an accepted call follows refused ones only; it is refused if and only if every allowed call is |
| `ShardWriting.ThreadPool.Submit` | client/src/thread_pool.cpp:79-97 | taken at the back, refused when full, an error when closed |
| `ShardWriting.ThreadPool.NextTask` | client/src/thread_pool.cpp:46-54 | tasks leave in order, and a worker stops only on a closed and empty pool |
| `ShardWriting.HashThreadPool.Start` | client/src/thread_pool.cpp:120-135 | a closed pool gets fresh running single-thread workers with its queue limit, a running one is left alone |
| `ShardWriting.HashThreadPool.Shutdown` | client/src/thread_pool.cpp:137-150 | an open pool closes every worker and keeps them all; a closed one is left alone |
| `ShardWriting.HashThreadPool.Submit` | client/src/thread_pool.cpp:152-162 | the key's own worker decides, all others are unchanged |
| `ShardWriting.SubmitAfterRestart` | client/src/thread_pool.cpp:120-162 | after a shutdown and another start, every submission of any sequence of them is answered by a closed worker and no task is queued |
| `ShardWriting.ShardWriter.SendNextTask` | client/src/shard_writer.cpp:106-121 | for a write, a flush and a finished task alike: is the machine's send-then-count step -- front pack, task count, queue and the worker's tasks all move as there, all other workers stay as they are -- and keeps the machine's invariant |
| `ShardWriting.ShardWriter.WriteAsync` | client/src/shard_writer.cpp:57-68 | is the machine's append step followed by its send step, and keeps its invariant; no promise if and only if the queue is full or the writer closed |
| `ShardWriting.ShardWriter.Flush` | client/src/shard_writer.cpp:70-72 | up to the wait it is the machine's flush step, and keeps the invariant |
| `ShardWriting.ShardWriter.FlushReturns` | client/src/shard_writer.cpp:74-76 | when it returns, with nothing refused since it was called, every batch accepted before is executed, in order |
| `ShardWriting.ShardWriter.SendTaskOnce` | client/src/shard_writer.cpp:123-164 | is the machine's resolve, task-done and send steps, and keeps its invariant; every promise of the pack gets the write's outcome, and a failure reports the shard |
| `ShardWriting.ShardWriter.ResolveAll` | client/src/shard_writer.cpp:137-140 | each promise is resolved, once |
| `ShardWriting.ShardWriter.SubmitFront` | client/src/shard_writer.cpp:110-119 | the front pack is the one submitted, and it is counted and popped if and only if the worker takes it |
| `ShardWriting.ShardWriter.TaskDone` | client/src/shard_writer.cpp:166-172 | is the machine's task-done step followed by its send step |
| `WriterSelector.RunKeepsKnown` | client/src/shard_select_strategy.cpp:115-179 | in every run where only registered shards are reported, active and inactive shards together are the registered ones, despite duplicates |
| `WriterSelector.ReportKeepsKnownIff` | client/src/shard_select_strategy.cpp:157-165 | a failure report keeps that if and only if it names a registered shard |
| `WriterSelector.NextKeepsKnown` | client/src/shard_select_strategy.cpp:139-155 | the shard picked is registered, and there is one unless none is |
| `WriterSelector.RefillsAll` | client/src/shard_select_strategy.cpp:139-155 | with the timer expired or no active shard left, every shard set aside is active again; otherwise the active ones stay |
| `WriterSelector.RoundRobin` | client/src/shard_select_strategy.cpp:147-154 | undisturbed, as many picks as there are active shards are exactly those shards |
| `WriterSelector.FailingTries` | client/src/shard_group_writer.cpp:53-67 | a write failing as often as there are shards goes to every active shard exactly once, then to pairwise different ones |
| `WriterSelector.FailingTriesCoverAll` | client/src/shard_group_writer.cpp:53-67 | when all shards were active, or none, it goes to every registered shard exactly once |
| `WriterSelector.FailingTriesSkip` | client/src/shard_select_strategy.cpp:142-154 | in this state a shard is tried twice and another never |
| `WriterSelector.FailingTriesCoverIff` | client/src/shard_select_strategy.cpp:139-155 | a write failing as often as there are shards has gone to every registered shard if and only if the walk over the shards put back, from the index left behind, picks none that was active before |
| `WriterSelector.FailingTriesCoverAnyOrderIff` | client/src/shard_group_writer.cpp:53-67 | it is sure to, in whatever order shards are put back, if and only if all shards were active or none |
| `WriterSelector.ShardWriterSelectStrategy.GetNextShard` | client/src/shard_select_strategy.cpp:139-155 | the index and list arithmetic of one round-robin pick |
| `WriterSelector.ShardWriterSelectStrategy.RemoveShardFromActive` | client/src/shard_select_strategy.cpp:167-179 | every occurrence is erased, the others keep their order |
| `WriterSelector.ShardWriterSelectStrategy.AddInvalidShard` | client/src/shard_select_strategy.cpp:157-165 | the shard is set aside |
| `WriterSelector.ShardWriterSelectStrategy.AddShard` | client/src/shard_select_strategy.cpp:115-121 | the shard becomes active |
| `GroupWriting.ShardGroupWriter.Write` | client/src/shard_group_writer.cpp:43-70 | errors before any attempt; otherwise the shards tried are the selector's failing sequence, and the result is the first attempt not refused |
| `GroupWriting.ShardGroupWriter.WriteToNext` | client/src/shard_group_writer.cpp:53-69 | the retry loop: refusals, then a success, an escaping exception, or as many refusals as writers; exactly the shards that refused are set aside |
| `GroupWriting.NoValidShardMeans` | client/src/shard_group_writer.cpp:53-69 | a write that finds no valid shard has tried every active shard, and every shard when all or none were active |
| `GroupWriting.ShardGroupWriter.GetNextWriter` | client/src/shard_group_writer.cpp:174-206 | the selector's choice if it has a writer, else the lookup error; any writer if nothing was chosen, else the error of a topic without shards; while the selector knows exactly the shards with a writer, its choice has one |
| `StrayWriters.RunStraysIff` | client/src/shard_select_strategy.cpp:115-179 | after every run of picks, additions, removals and failure reports the strategy knows every registered shard, and any other if and only if its failure was reported while it was not registered and nothing registered or forgot it since |
| `StrayWriters.LookupFailsIff` | client/src/shard_group_writer.cpp:174-206 | after any run before and between, a shard picked has no writer at its lookup if and only if it was removed in between or reported late before, and not added again |
| `GroupWriting.ShardGroupWriter.CreateShardWriter` | client/src/shard_group_writer.cpp:134-148 | writers for exactly the new shards, which join the active ones once each |
| `GroupWriting.ShardGroupWriter.RemoveShardWriter` | client/src/shard_group_writer.cpp:150-164 | writers and selector entries of exactly those shards removed, the other active ones in their order |
| `Crc32c.TableCorrect` | src/crcutils.cpp:15-80 | each of the 256 tabulated words is eight shifts of the bitwise CRC-32C register |
| `Crc32c.TableStepIsBits` | src/crcutils.cpp:106 | one table step is the byte fed bit by bit |
| `Crc32c.CrcConcat` | src/crcutils.cpp:102-110 | a message may be checksummed piece by piece |
| `CrcLoops.CrcGeneric` | src/crcutils.cpp:102-110 | the table loop computes the bitwise CRC-32C |
| `CrcLoops.InstructionIsCrc` | src/crcutils.cpp:221-224 | a crc32 instruction on a little-endian load of up to eight bytes is the register over those bytes |
| `CrcLoops.CrcAccelX86` | src/crcutils.cpp:124-158 | the wide loop computes it over the bytes it reads, and over all of them below 2^35 |
| `CrcLoops.AccelReadsAll` | src/crcutils.cpp:132-133 | the truncated word count loses nothing if and only if the length is below 2^35 |
| `CrcLoops.CrcAccelArm` | src/crcutils.cpp:231-258 | the 8/4/2/1 form computes it for every length |
| `CrcLoops.CopyGeneric` | src/crcutils.cpp:112-121 | copying and checksumming: destination equals source, the rest is untouched |
| `CrcLoops.CopyAccelX86` | src/crcutils.cpp:160-196 | likewise with eight-byte stores |
| `CrcLoops.CopyAccelArm` | src/crcutils.cpp:260-294 | likewise with 8/4/2/1 stores |
| `CrcErrors.BurstDetected` | src/crcutils.cpp:102-110 | every burst error of at most 32 bits, at any bit of a message of any length, changes the checksum |
| `CrcErrors.OddErrorsDetected` | src/crcutils.cpp:102-110 | so does every change of an odd number of bits |
| `CrcErrors.ParityConserved` | src/crcutils.cpp:106 | the register's parity is the starting parity plus the message's |
| `Frame.DoCrc` | src/protobuf_parser.cpp:66-71 | the checksum, whichever loop the processor selects |
| `Frame.ParsePbToString` | src/protobuf_parser.cpp:47-57 | the buffer built is magic, checksum, length and payload in network order |
| `Frame.ParsePbFromArrayBuff` | src/protobuf_parser.cpp:10-37 | every error branch and the accepted payload, and what parsing leaves in the caller's buffer |
| `Frame.FrameLayout` | src/protobuf_parser.cpp:47-57 | every frame in bytes: 'D', 'H', 'U', 'B', the checksum and then the length most significant byte first, the payload |
| `Frame.ParseLayout` | src/protobuf_parser.cpp:10-37 | a parse reads a buffer the same way, with every error and its condition in bytes |
| `Frame.ChecksumIs` | src/protobuf_parser.cpp:66-71 | the checksum starts from all ones and ends inverted |
| `Frame.RoundTrip` | src/protobuf_parser.cpp:10-57 | every payload survives framing |
| `Frame.BurstRejected` | src/protobuf_parser.cpp:26-34 | a burst of up to 32 bits in the payload is rejected if and only if the payload's checksum is not zero |
| `Frame.AnyBurst` | src/protobuf_parser.cpp:10-57 | wherever a burst of up to 32 bits hits the frame, header and boundary included, a parse that succeeds yields the payload framed, unless only the payload was hit and its checksum is zero |
| `Frame.FourBytesAreABurst` | src/protobuf_parser.cpp:26-34 | any change within four consecutive bytes is such a burst |
| `Frame.OddErrorsRejected` | src/protobuf_parser.cpp:26-34 | the same for any odd number of flipped bits |
| `Frame.ParseUnderHeader` | src/protobuf_parser.cpp:20-36 | another payload of the same length is accepted under a header if and only if the header has no checksum or the checksums agree |
| `Frame.HeaderChanges` | src/protobuf_parser.cpp:73-97 | a changed header is accepted if and only if only its checksum word differs and reads zero |
| `Frame.UnprotectedPayload` | src/protobuf_parser.cpp:26 | a payload with checksum zero is accepted with its first byte changed |
| `Frame.SecondParse` | src/protobuf_parser.cpp:88-89 | parsing swaps the header in place: a buffer parses a second time if and only if its header words are their own byte reversal |
| `Frame.ThirdParse` | src/protobuf_parser.cpp:88-89 | a third parse sees the original header |
| `Decimal.RemoveZero` | src/utils.cpp:224-240 | the in-place loops and memmove stay in range and compute the shortened text |
| `Decimal.RemoveZeroKeepsNumber` | src/utils.cpp:224-240 | for every printed number: same value, same sign and exponent text, no trailing zero, no bare point |
| `Decimal.ShortenedIsCanonical` | src/utils.cpp:224-240 | with the same sign and exponent, two numbers come out as the same text if and only if they are equal |
| `Decimal.NotANumberKept` | src/utils.cpp:191-222 | infinities and nan are left alone |

## Left out

- CommitOffset: ends by saying that it failed; that an escaping exception ends the commit thread, and with it the process, is not modelled.
- ReleaseShards: only the part under the mutex; the forced commits before it are ordinary sync and commit actions, and how long they are waited for is not modelled.
- ReadOnce: which attempt a message key belongs to is decided when it is handed out, where the source makes the key when the record is fetched; the callback for a sealed shard is not part of it.
- SyncOffset: an acknowledgement that arrives while it runs counts as one before or after it, message by message.
- GetNextReader: as one call it is the case in which no reader is removed between choosing and looking up; ChooseShard and GetShardReader are the two regions, and any removal may come between them, after which the lookup fails exactly when the shard has no reader. The reader taken while every shard waits is the first of the map in the source, any reader here.
- ReadRecord: a reader that throws is one kind of attempt; the waits between attempts are not modelled; which record an attempt yields is the subject of ReadDeliversLog and AtLeastOnce.
- AtLeastOnce: a session that takes effect unsafely is excluded, OpenSafeIff being the exact condition; one thread at a time reads from a consumer, as the group reader's mutex makes it; sessions start from the committed offset, and reads that seek by timestamp, and offsets reset on the server by the user, start elsewhere on purpose.
- FlushBarrierIff: every mutex-protected region is one step and condition variables wake up spuriously; that a flush returns eventually is not claimed.
- FlushReturns: the wait itself is its precondition, the task count being zero while no worker holds the task lock.
- WriteOrder: submits racing with the shutdown of the pool, which throw inside the lock, are left out.
- Write: no other thread picks, adds, removes or reports a shard while its retry loop runs, and the timer does not expire within it; what they can do to a pick is RunStraysIff and LookupFailsIff, after which the lookup error escapes the loop.
- WriteAsync: the group writer's loop around it repeats until some queue has room and need not end.
- GetTotalRecordSize: sizes and counts are unbounded where the source has 64-bit integers.
- PushNode: vector positions are unbounded where a node records 32 bits of its own.
- CopyGeneric: source and destination are different arrays, so overlapping copies are left out, here and in the other copying loops.
- ParsePbFromArrayBuff: stops where the protobuf decoder takes over; the payload is opaque bytes, and the machine is little-endian.
- DoCrc: a handler installed in place of the loops, and the cpuid probe that selects one, are not part of the model.
- Start: a pool is its queues; its threads appear as the steps of Pipeline, and Shutdown does not wait for them to run what is queued.
- The handling of HTTP, signing, compression and JSON, the curl handle pool, the metadata cache, logging and configuration: plumbing without state of its own.
- The consumer group's heartbeat, rejoining and SyncGroupMeta: they only produce the shard changes that the readers and sessions here are opened and closed by.
- The server: an append-only log, an oldest record and a committed offset per shard, with calls that succeed or fail.
