# EStore in Dafny

A model of the parts of the EStore key-value store, a log-structured merge tree in
the line of Pebble, that decide whether it keeps what was written: the compaction
iterator and what it may drop, the commit pipeline, the queue of memtables and its
logs, deletion hints, output splitting, the scheduling of compactions, ingestion,
the batch format, and point reads. `dafny verify dfyconfig.toml` checks all of it.

Keys are real numbers, so that between two keys there is always another; values and
batches are bytes; sequence numbers are unbounded but below the maximum that the
store reserves. Where the source changes things in place the model has classes or
loops proved against functions; where it runs threads or steps under a lock, the
model has a state machine and theorems about every run of it.

What is proved, subsystem by subsystem:

- **Compaction** (`Lsm`, `History`, `CompactionIteration`, `Compaction`, `InUseRanges`).
  A compaction changes no read of any key at any open snapshot or later, for every
  sorted input of all point kinds and range tombstones, every list of snapshots and
  every sound set of ranges in use; SINGLEDEL under the usage rule.
- **Commit pipeline** (`CommitPipeline`, `CommitProperties`, `CommitProgress`,
  `CommitTermination`). Every interleaving of commits and sequence number allocations:
  the ring is a queue, reads are atomic and in order, nothing is lost, delivered twice
  or deadlocked, and under every fair schedule every commit returns.
- **Memtables, logs and batches** (`FlushQueue`, `MemTable`, `KeySpanCache`, `BatchCodec`,
  `FlushableBatch`). Replaying the logs gives exactly what is not in tables; a prepared
  batch never finds the arena full; cached fragments are never stale; batches decode to
  what was added; the sorted form of a large batch is what a memtable would show.
- **Hints, outputs and scheduling** (`DeletionHints`, `DeleteOnly`, `Frontiers`, `Outputs`,
  `Compactions`, `Picking`, `Scheduling`). Hints drop only what is dead; outputs neither
  lose nor share a user key; compactions that run together keep out of each other's way.
- **Ingestion** (`Ingestion`, `Tables`, `Excision`, `IngestStore`, `IngestSplit`,
  `IngestSchedule`). The level
  chosen keeps reads newest first, excising is exact, and splits leave room, for points,
  range tombstones and range keys.
- **Point reads** (`PointReads`). A Get, table by table and lazily, returns what the whole
  history says.

Properties that the code does not have, each with an input that shows it and the exact
condition under which it does hold:

- A batch with a SETWITHDEL does not decode to itself, as the reader passes over its key
  only (batch.go:1538-1560): `BatchCodec.BatchRoundTrip`, `BatchCodec.SetWithDeleteIsLost`,
  `BatchCodec.SetWithDeleteOutgrows`.
- Log data in a large batch shifts the sequence numbers of what comes after it, unlike in
  a memtable (batch.go:1779-1840): `FlushableBatch.StreamsAgree`,
  `FlushableBatch.LogDataShiftsNumbers`.
- Removing a frontier may leave the heap out of order from six frontiers on; a compaction
  registers at most three (compaction_iter.go:1523-1551): `Frontiers.Remove`,
  `Frontiers.SixFrontiersMayNotBeSafe`.
- SINGLEDEL brings back an older write when a key is written twice (db.go:121-136):
  `History.CancelPair`, `History.SingleDeleteMisuse`.
- The check before a compaction starts compares internal keys, and so lets two compactions
  into the same level share a user key (compaction_picker.go:2010-2039):
  `Compactions.ApartUnlessTouching`, `Compactions.GateAllowsTouching`.

The comment on `snapshotIndex` (compaction_iter.go:603-604) speaks of snapshots at or above
a number; the code looks for strictly greater ones, and so does the model.

## Model

| member | source | states |
|---|---|---|
| `Lsm.Stripe` | compaction_iter.go:605-613 | The stripe of a sequence number is the index of the first snapshot strictly above it, and every earlier snapshot is at or below it. |
| `Lsm.SameStripeSameVisibility` | compaction_iter.go:605-613 | Sequence numbers of one stripe are seen by exactly the same snapshots. |
| `History.DropHiddenStripe` | compaction_iter.go:617-633 | After an entry that hides what is under it, dropping the rest of its key's stripe changes no read at any open snapshot. |
| `History.CombineMerge` | compaction_iter.go:843-918 | Folding a MERGE with the next entry of its key and stripe changes no read. |
| `History.CancelPair` | compaction_iter.go:930-1025 | Dropping a SINGLEDEL together with the write it meets changes no read if and only if nothing below the write can be read where the SINGLEDEL is seen. |
| `History.SingleDeleteMisuse` | db.go:121-136 | A key written twice and then deleted by SINGLEDEL: cancelling brings the first write back, so the usage rule is needed. |
| `History.UsageRuleIsSafe` | db.go:121-136 | If between two writes of a key that a SINGLEDEL may meet there is always a deletion, every cancellation that a compaction makes is safe. |
| `History.DropLoneTombstone` | compaction.go:1217-1236 | A point tombstone over nothing may go without changing any read. |
| `CompactionIteration.NextInStripe` | compaction_iter.go:673-747 | Moves to the next point of the stripe that no range tombstone of the stripe deletes, or says whether the key or only the stripe changed; what it passes over makes no difference to reads. |
| `CompactionIteration.SkipInStripe` | compaction_iter.go:617-633 | Passes exactly the points left of the key's stripe. |
| `CompactionIteration.SetNext` | compaction_iter.go:749-841 | What is handed out for a SET leaves every read as it was. Its kind is SETWITHDEL if and only if the entry was one or, in a format that has the kind, going down the stripe one comes to a deletion that no range tombstone of the stripe covers, or to an entry that ends the stripe early; its number is zeroed exactly when that is allowed; nothing more of the stripe comes after it. |
| `CompactionIteration.PlainSetIsClear` | compaction_iter.go:749-841 | A SET that goes out as a plain SET, in a format that has SETWITHDEL, has under it no deletion of its stripe that range tombstones leave standing. |
| `CompactionIteration.MergeNext` | compaction_iter.go:843-918 | The merged operand, its kind, its number and what is skipped after it leave every read as it was, and are pinned by the entries of the stripe. |
| `CompactionIteration.SingleDeleteNext` | compaction_iter.go:930-1025 | A SINGLEDEL is handed out, becomes a DEL, or goes together with the one write it meets, and only with one that can be cancelled; reads stay as they were. |
| `CompactionIteration.SkipDueToSingleDeleteElision` | compaction_iter.go:1037-1154 | In the last stripe and over nothing, a SINGLEDEL and what it deletes go, and reads stay as they were. |
| `CompactionIteration.DeleteSizedNext` | compaction_iter.go:1162-1322 | A DELSIZED goes out as it is, or as a DEL exactly where sizes do not match or a second write is met, and leaves every read as it was; the error path is taken only for malformed input. |
| `CompactionIteration.CompactionIter.constructor` | compaction_iter.go:274-330 | The iterator starts with all of its input still to come. |
| `CompactionIteration.CompactionIter.Next` | compaction_iter.go:332-588 | Each call hands out one entry such that the entry followed by what remains reads like what remained before, at every open snapshot and later; at the end what remained reads like nothing. Its kind and number follow the rules for the entry it was made from, nothing is left of its stripe, and no tombstone of the last stripe goes out over nothing. The position invariants rule out the assertion on skip and position. |
| `Compaction.EmitRangeDelChunk` | compaction_iter.go:1400-1430 | Of each stripe at most one tombstone is kept, and every tombstone is represented by a newer one of its stripe, except in the last stripe when that is elided. |
| `Compaction.EmitSpans` | compaction_iter.go:1370-1430 | The same for all fragments: nothing is made up, what is dropped is represented or may be elided, no two tombstones of one stripe are written for a fragment, and of the last stripe none unless elision is off or a key of the fragment is in use below. |
| `Compaction.OutLiveness` | compaction_iter.go:1444-1457 | One tombstone per stripe, elision in the last stripe and zeroed sequence numbers together leave every written point exactly as alive, at every open snapshot, as it was. |
| `Compaction.Compact` | compaction_iter.go:332-588 | Every read of every key, at every open snapshot and at every later number, gives the same result over output and lower levels as over input and lower levels; the output is in strict order and made from the input; of each user key and stripe at most one point is written unless range tombstones keep them apart, with the kind and the number that the rules give it, and tombstones over nothing are not; failure means malformed input. |
| `Compaction.StoreReadsUnchanged` | compaction.go:2702-2760 | With newer data above, installing the output changes no read of the whole store. |
| `Compaction.RangesInUseBound` | compaction.go:1004-1022 | The ranges computed from the levels below bound the data below as the compaction needs. |
| `InUseRanges.SeekGT` | compaction.go:1125-1131 | Splits the tables into those that end at or before the key and those that end after it. |
| `InUseRanges.MergeLevel` | compaction.go:1040-1118 | One level folded into sorted ranges: sorted again, and from the lower bound on covering exactly the keys of either. |
| `InUseRanges.CalculateInUseKeyRanges` | compaction.go:1024-1123 | The ranges are sorted and, from the lower bound on, cover exactly the keys within some table of the levels looked at. |
| `InUseRanges.NoneMeetsExact` | compaction.go:1238-1267 | The two binary searches agree with looking at every range. |
| `InUseRanges.Elision.ElideTombstone` | compaction.go:1217-1236 | On ascending keys the moving cursor answers exactly whether the key is in no range in use. |
| `InUseRanges.Elision.RangeElisionIsSound` | compaction.go:1238-1267 | A range tombstone may be elided only if no key from its start to its end is in use. |
| `InUseRanges.Elision.RangeElisionIsExact` | compaction.go:1238-1267 | It may be elided if and only if that is so, elision is on and the compaction is not a flush. |
| `InUseRanges.Elision.ZeroingForcesElision` | compaction.go:1208-1215 | Whatever allows sequence numbers to be zeroed forces every range tombstone within the compaction's bounds to be elidable. |
| `CommitPipeline.StepInv` | commit.go:59-120 | Every atomic step of every committer keeps the invariant of ring, locks, sequence numbers and the visible number. |
| `CommitProperties.VisibleNeverFalls` | commit.go:473-517 | In every interleaving the visible sequence number never falls. |
| `CommitProperties.ReadersSeeAPrefix` | commit.go:427-517 | What a reader sees is a prefix of the queue's history: each of its batches whole and applied, nothing of a later one. |
| `CommitProperties.BatchesAreAtomic` | commit.go:427-517 | No batch is half visible, and a visible one is applied. |
| `CommitProperties.CommitReturnsVisible` | commit.go:296-358 | When Commit returns, its batch is applied, visible, and signalled exactly once; if it asked for a sync, the schedule has that sync, at a time when the batch was in the log. |
| `CommitProperties.SyncHistory` | commit.go:427-471 | In every run a committer has a sync outstanding if and only if it asked for one that the schedule has not brought since the batch was in the log, and it returns only without one. |
| `CommitProperties.PrepareSeesEarlierWrites` | commit.go:361-425 | From the moment the prepare callback of AllocateSeqNum begins, every batch with an earlier number is visible, and applied if it has records. |
| `CommitProperties.AllocatedIsNotZero` | commit.go:386-397 | No ingestion is given the number 0. |
| `CommitProperties.RingRefinesQueue` | commit.go:59-120 | The lock-free ring, stale reads and failed swaps included, refines a queue. |
| `CommitProperties.DeliveredExactlyOnce` | commit.go:89-120 | No batch is enqueued or dequeued twice; a dequeued one is held by exactly one thread or was signalled exactly once. |
| `CommitProperties.NeverPanics` | commit.go:59-87 | The panics are out of reach; with one semaphore permit fewer than slots the queue is never full. |
| `CommitProperties.PublishIsNotLost` | commit.go:473-517 | When nobody is in the publish loop, the queue is empty or its oldest batch is not yet applied. |
| `CommitProgress.NoDeadlock` | commit.go:296-517 | When no committer can move and no sync is due, every commit has returned. |
| `CommitTermination.RetriesAreBounded` | commit.go:89-120 | Whatever the schedule, n commits take at most 40n^2 + 71n steps that change anything, retries included. |
| `CommitTermination.MaximalRunsReturn` | commit.go:296-517 | A run that nothing can change any more is one in which every commit has returned. |
| `CommitTermination.FairSchedulesReturn` | commit.go:296-517 | Under every infinite schedule in which each committer and each sync asked for comes up again and again, all commits have returned after finitely many steps. |
| `CommitTermination.EveryCommitReturns` | commit.go:296-517 | Every finite run can be completed so that every commit returns. |
| `PointReads.CoversAt` | internal/keyspan/span.go:346-363 | True exactly when some visible sequence number of the span is above the given one. |
| `PointReads.VisibleAt` | internal/keyspan/span.go:262-280 | True exactly when some sequence number of the span is visible. |
| `PointReads.FindFileGE` | level_iter.go:355-487 | The first table that can hold the key or something after it. |
| `PointReads.SeekLevel` | level_iter.go:750-821 | Stands at the first point at or after the key, or at a bound past it, with the tombstones of the table it stopped in, which are all that matter for the key. |
| `PointReads.SkipEmptyFileForward` | level_iter.go:1009-1100 | Passes to the next table, unless the bound of a table that ends with a tombstone is due. |
| `PointReads.NextVersion` | get_iter.go:72-213 | Gives the head of the visible versions left, newest first, up to the first that a visible range tombstone deletes, and keeps the rest. |
| `PointReads.GetIter.constructor` | get_iter.go:15-36 | All visible versions of the key are still to come. |
| `PointReads.GetIter.Next` | get_iter.go:72-213 | The same for the iterator object. |
| `PointReads.StoreNewestFirst` | get_iter.go:72-213 | In a store that obeys the order of levels, sources taken in order list each key newest first. |
| `PointReads.TrimMemtables` | db.go:574-582 | Leaves out exactly the newest memtables created at or after the read's number. |
| `PointReads.TrimKeepsReads` | db.go:574-582 | Leaving them out changes no read. |
| `PointReads.Resolve` | iterator.go:704-770 | Newest version and merge operands resolve to what the history says. |
| `PointReads.Get` | db.go:540-610 | A Get returns what the whole history of the store says at the read's number. |
| `FlushQueue.StepInv` | db.go:2415-2567 | Writes, large batches, flushable ingestions, rotations, log changes and flushes keep the invariant of queue and logs. |
| `FlushQueue.ReplayIsExact` | compaction.go:3791-3808 | At every moment of every run, replaying the logs from the least unflushed one on gives exactly the batches written and not yet in tables. |
| `FlushQueue.FlushIsConsistent` | compaction.go:2017-2071 | A flush takes a prefix whose logs all lie below the next entry's, so its panic is out of reach and the minimum only grows. |
| `FlushQueue.FlushKeepsLogsApart` | compaction.go:2045-2071 | Every entry that a flush takes is ready and has a log number below the new minimum. |
| `FlushQueue.PrefixStops` | compaction.go:2017-2044 | A flush takes as many ready entries as there are, short of the last one, and an ingested one only by itself. |
| `FlushQueue.FlushedIsApplied` | compaction.go:2017-2071 | What is being flushed has no writer left, and all its batches are in the log. |
| `FlushQueue.QueueIsOrderedBySeqNum` | db.go:2534-2567 | Every queued batch has its numbers between its entry's logSeqNum and the next entry's. |
| `FlushQueue.RefsNeverNegative` | mem_table.go:165-191 | References never fall below zero, and the mutable memtable is not ready for a flush. |
| `DeletionHints.HintsDropOnlyTheDead` | compaction.go:2493-2534 | In every run, a table that a hint lets go holds only records that are invisible, or deleted by a visible tombstone, at every open snapshot and for every later reader. |
| `DeletionHints.FreshHintIsHonest` | table_stats.go:134-153 | A hint whose table is still there is right about what looks older than its tombstones, whatever was compacted since. |
| `DeletionHints.StaleHintWouldDropTheLiving` | table_stats.go:134-153 | Without that check a hint could let go a live record. |
| `DeletionHints.UpdateHints` | compaction.go:2536-2583 | After a compaction that zeroes, exactly the hints are kept whose keys are away from it or whose tombstones are newer than all its inputs. |
| `DeletionHints.CheckHints` | compaction.go:2585-2672 | The tables chosen are exactly the free ones below a resolvable hint's level that it lets go, each once; the hints that stay are exactly those that an open snapshot holds up. |
| `DeletionHints.ResolvableIffNoneSeparates` | compaction.go:2585-2640 | A hint is put to use if and only if no open snapshot separates its newest tombstone from the oldest of what it covers. |
| `DeletionHints.CanDeleteIffAllUnseen` | compaction.go:2493-2534 | A hint lets a table go if and only if its keys contain the table, the table's numbers are below the tombstones' and not below those the hint was made for, and no snapshot is between its oldest record and the newest tombstone. |
| `DeleteOnly.CheckHints` | compaction.go:2585-2672 | The loop, for any kind of hint and table: chosen, by level and each once, is exactly what is free and let go by a resolvable hint from above; the other hints stay. |
| `DeleteOnly.NonEmpty` | compaction.go:2660-2672 | The inputs are exactly the levels with something chosen, in order. |
| `KeySpanCache.CachedCountNeverFalls` | mem_table.go:353-421 | In every interleaving the cached count never goes backwards. |
| `KeySpanCache.GetSeesInvalidations` | mem_table.go:415-421 | A get returns fragments of spans in the skiplist, with all spans of every invalidation that had returned when it began. |
| `KeySpanCache.GetBegins` | mem_table.go:415-421 | What a get must return is what was published when it loads the pointer. |
| `MemTable.Arena.AvailBytes` | mem_table.go:290-299 | What is neither used nor promised, so that it fits whatever is in flight; with no batch in flight, exactly what is not used. |
| `MemTable.Arena.Prepare` | mem_table.go:193-202 | A batch is promised its space if and only if it fits in what AvailBytes says, and what is promised grows by its size. |
| `MemTable.Arena.Add` | internal/arenaskl/node.go:64-112 | No record of a prepared batch is ever turned away by the arena, overflow check for the tower included; its node has aligned space of its own for header, tower, key and value. |
| `MemTable.Arena.WriterUnref` | mem_table.go:173-191 | The last reference is reported exactly when the queue's is gone and no batch is in flight. |
| `MemTable.Arena.Rotate` | db.go:2534-2567 | The queue's reference goes once. |
| `MemTable.CutBackCondition` | mem_table.go:290-299 | With one reference left, cutting the reservation back to what is used is right exactly when that reference is the queue's or its batch has nothing left to add. |
| `MemTable.PrepareBatch` | db.go:845-860 | The size settled for a batch reserves space for every record that applying it will read; it is turned away exactly when that size does not fit. |
| `Frontiers.Up` | compaction_iter.go:1629-1638 | Sifting up restores the heap and keeps the items. |
| `Frontiers.Down` | compaction_iter.go:1640-1655 | Sifting down restores the heap below, and tells whether it moved anything. |
| `Frontiers.Remove` | compaction_iter.go:1523-1551 | Removal that only sifts down leaves a heap if and only if the last item is not below the removed one's parent where it comes to rest. |
| `Frontiers.FewFrontiersAreSafe` | compaction_iter.go:1523-1551 | With at most five frontiers removal always leaves a heap. |
| `Frontiers.SixFrontiersMayNotBeSafe` | compaction_iter.go:1523-1551 | With six it may not. |
| `Frontiers.FrontierHeap.Activate` | compaction_iter.go:1503-1515 | The frontier is added, and the heap stays one. |
| `Frontiers.FrontierHeap.Update` | compaction_iter.go:1523-1551 | A frontier gets another key or none, and the heap stays one. |
| `Frontiers.FrontierHeap.Advance` | compaction_iter.go:1578-1592 | Each frontier is called for each of its keys up to k, and no active one is left at or below k. |
| `Frontiers.LimitSplitterAsks` | compaction.go:329-360 | After an advance to k, a limit splitter asks for a split if and only if k is at or past its limit. |
| `Outputs.FindGrandparentLimit` | compaction.go:1142-1168 | The start of the first grandparent past the key that takes the overlap above the maximum, and none only if there is none. |
| `Outputs.FindL0Limit` | compaction.go:1173-1184 | The first flush split past the key. |
| `Outputs.OnNewOutput` | compaction.go:350-395 | The earliest of the limits of the new output, strictly past the first key, and none only if there is none. |
| `Outputs.FillOutput` | compaction.go:3477-3540 | The inner loop consumes input, in order; what it has written begins before the split key, passes no limit and no split that was asked for between user keys, and ends only at one of these or with the input. |
| `Outputs.CutKeepsCoverage` | compaction.go:3452-3581 | Cutting spans at a key loses no coverage and adds none. |
| `Outputs.WriteOutputs` | compaction.go:3452-3581 | The loop ends. The outputs hold the input's points in order and cover the same keys with the same tombstones; each lies wholly before the next, so no user key is in two; none is empty. Each keeps to the limit of its first key: no flush split lies within one, none reaches the grandparent that takes its overlap above the maximum, and every split asked for between user keys is made. |
| `BatchCodec.UvarintRoundTrip` | batch.go:1466-1498 | Every length is read back, with its number of bytes, in whatever follows. |
| `BatchCodec.NextReadsRecord` | batch.go:1538-1560 | The reader gets a record back and stands behind it if and only if it is not a SETWITHDEL. |
| `BatchCodec.BatchRoundTrip` | batch.go:1526-1560 | A sequence of records decodes to itself if and only if it has no SETWITHDEL. |
| `BatchCodec.SetWithDeleteIsLost` | batch.go:1538-1560 | A concrete batch that does not decode. |
| `BatchCodec.SetWithDeleteOutgrows` | batch.go:580-588 | A SETWITHDEL whose recorded size does not bound what is read back. |
| `BatchCodec.CountRoundTrip` | batch.go:1401-1433 | The count in the header is read back. |
| `BatchCodec.Measure` | batch.go:452-485 | It fails exactly on data that do not decode, or have an ingested table where that is refused; otherwise it is the sum over all records but ingested tables, which bounds what they need in a memtable. |
| `BatchCodec.Batch.Add` | batch.go:580-667 | Appends the record; the count leaves log data out, the size counts what a memtable takes. |
| `BatchCodec.Batch.Apply` | batch.go:496-564 | Appends the other batch's records and adds its count, itself included; the size grows by what its records add up to, if the batch keeps account of it. |
| `BatchCodec.Batch.Repr` | batch.go:1089-1098 | Header count and records are what was added, the records if and only if none is a SETWITHDEL. |
| `BatchCodec.Batch.SetRepr` | batch.go:1100-1110 | Takes over records and count of the representation. |
| `BatchCodec.Batch.RefreshMemTableSize` | batch.go:452-485 | It fails exactly on data that do not decode; otherwise the size is what the records add up to, which bounds what they need. |
| `BatchCodec.Batch.SizeForCommit` | db.go:845-849 | Before a commit the size bounds what the records read back need. |
| `FlushableBatch.MemApply` | mem_table.go:204-253 | Each record goes to the skiplist of its class under the next number; log data takes none; an ingested table's record is a panic. |
| `FlushableBatch.Divide` | batch.go:1779-1840 | The decoded records are divided into the three lists, in order. |
| `FlushableBatch.StreamsAgree` | batch.go:1761-1901 | Each sorted stream of a flushable batch is that of a memtable the batch was applied to, in keys, numbers, kinds, values and order, if and only if no log data comes before, or in, the class. |
| `FlushableBatch.Shift` | batch.go:1861-1882 | Every sequence number of every fragment is raised by the batch's number. |
| `FlushableBatch.ShiftIsRenumbering` | batch.go:1861-1882 | Fragmenting at numbers from zero and raising them is fragmenting at numbers from n. |
| `FlushableBatch.Flushable.constructor` | batch.go:1761-1859 | Sorted points and fragmented spans of the batch at its header's number. |
| `FlushableBatch.Flushable.SetSeqNum` | batch.go:1861-1882 | All three streams take the batch's number. |
| `FlushableBatch.Flushable.LooksLikeMemtable` | batch.go:2124-2156 | The points are a memtable's if and only if there is no log data; so are the fragments where no log data is before them. |
| `FlushableBatch.LogDataShiftsNumbers` | batch.go:1779-1840 | With log data in front, a record gets a later number than in a memtable. |
| `Ingestion.SpansOverlap` | ingest.go:757-784 | Exactly whether some span meets the bounds. |
| `Ingestion.OverlapWithLevel` | ingest.go:716-798 | Exactly whether a point or a range tombstone of the level lies within the bounds, though only one table's tombstones are looked at. |
| `Ingestion.InsertKeepsLevel` | ingest.go:804-998 | A level with a table put where it fits is a level. |
| `Ingestion.IngestKeepsStore` | ingest.go:804-998 | A table with the newest number, put below sources without data in its bounds, keeps reads newest first. |
| `Tables.OverlapWithTables` | ingest.go:716-798 | Exactly whether a point, a range tombstone or a range key of some table of the level lies within the bounds. |
| `Tables.BoundaryOverlaps` | internal/manifest/version.go:1278-1351 | Exactly the tables whose bounds meet the given ones, in order. |
| `Tables.TargetLevel` | ingest.go:804-998 | L0, or a level with room, with no running compaction into it whose keys meet the table's, with no data within the bounds at it or above, and no lower level would do; the split file is the one table in the way. |
| `IngestSchedule.TargetEnablesIngest` | ingest.go:960-998 | Where no file meets the table's bounds and no running compaction into the level does, by the clash test on user keys, the scheduler's ingestion event is enabled, which keeps all invariants of scheduling. |
| `IngestSchedule.ChosenLevelIsOpen` | ingest.go:960-998 | A level that has room by the tests of TargetLevel, without a split, is one where that event is enabled. |
| `Excision.LeftExists` | ingest.go:1640-1695 | There is something left of a key exactly if the part begins before it, and it ends by the key. |
| `Excision.RightExists` | ingest.go:1749-1800 | There is something from a key on exactly if the part does not end before it. |
| `Excision.ExciseIsExact` | ingest.go:1598-1863 | At most two virtual tables, one on each side exactly when the gates ask for one, with tight bounds for points and for range keys that avoid the span; together exactly the points, range tombstone coverage and range key coverage outside the span. |
| `Excision.Straddles` | ingest.go:932-950 | A table that bounds meet without data in them begins before and ends after them. |
| `Excision.SplitMakesRoom` | ingest.go:1953-1974 | Such a table is always split into two, on either side, that together hold all it held. |
| `IngestStore.SplitKeepsStore` | ingest.go:1953-1974 | A split changes nothing that reads see, and leaves a level in which nothing is in the ingested table's way. |
| `IngestStore.TargetKeepsStore` | ingest.go:804-998 | The table at the level chosen for it, split included, keeps points, range tombstones and range keys newest first and the level in order. |
| `IngestStore.L0KeepsStore` | ingest.go:804-998 | So does a table that goes to L0. |
| `IngestSplit.FreshEdit` | ingest.go:2106-2128 | An edit that only adds files satisfies the invariant of edits. |
| `IngestSplit.ExciseSpan` | ingest.go:2149-2186 | After the loop over all levels nothing left overlaps the span, and exactly the points, tombstones and range keys outside it are left, level by level. |
| `IngestSplit.FindInTheWay` | ingest.go:1910-1949 | The walk down the tree of replacements ends at the one file in the way, or nothing is; two files in the way, a panic, cannot be. |
| `IngestSplit.InTheWaySplits` | ingest.go:1953-1974 | Excising the file in the way gives two halves out of the way with all its data, so the two panics after it cannot be. |
| `IngestSplit.Flatten` | ingest.go:1977-1989 | The flattened edit deletes files of the version only, adds nothing it deletes, and leaves the same files. |
| `IngestSplit.Split` | ingest.go:1894-1991 | No file left overlaps an ingested one of its level, files of a level lie apart, and together hold the points, tombstones and range keys that they held. |
| `Compactions.AlreadyCompacting` | compaction_picker.go:1984-2039 | True exactly when an input is being compacted or a compaction in progress writes within the bounds to the same level below L0. |
| `Compactions.ApartUnlessTouching` | compaction_picker.go:2010-2039 | Bounds apart as internal keys are apart as user keys if and only if they do not share the user key where they meet. |
| `Compactions.GateAllowsTouching` | compaction_picker.go:2010-2039 | The gate alone lets two compactions into one level share a user key. |
| `Compactions.MarkInputs` | compaction.go:1671-1703 | All inputs and nothing else become marked, without coming across a marked one. |
| `Compactions.UnmarkInputs` | compaction.go:1710-1745 | All inputs and nothing else are unmarked, without coming across an unmarked one. |
| `Picking.OverlapsIsExact` | internal/manifest/version.go:1278-1351 | The slice of a sorted level that bounds take is exactly the files with a user key within them. |
| `Picking.ExpandToAtomicUnit` | compaction_picker.go:619-675 | The least slice around the inputs that cuts no atomic unit; the flag is raised exactly if a file that is looked at on the way is being compacted. |
| `Picking.PickOutput` | compaction_picker.go:426-440 | The output slice is what the bounds take, with all files with a user key within the bounds, which are widened to take it in; it is busy exactly if a file looked at is being compacted. |
| `Picking.Grow` | compaction_picker.go:514-547 | All start files that the bounds take, exactly if they are more, fit, none is busy and they take no more output files; the slices still have all they must, and bounds do not shrink. |
| `Picking.SetupInputs` | compaction_picker.go:403-505 | It fails exactly if a file that it looks at is being compacted. Otherwise it has exactly the slices that the unit's bounds take, grown if that may be: clean cuts, all inputs within bounds that are some input's or were there before, and every file of the output level with a user key within them; when a level is added, the middle one keeps all within the bounds before. |
| `Picking.Collect` | compaction_picker.go:289-299 | Exactly the L0 files whose bits are set, in order. |
| `Picking.IncludedOnce` | compaction_picker.go:289-299 | Each L0 file is taken once. |
| `Picking.KeyRange` | internal/manifest/version.go:905-923 | The least and the greatest bound of the files. |
| `Picking.SetupBase` | compaction_picker.go:403-440 | The same from L0; it fails exactly if a file that it looks at is being compacted. |
| `Picking.FailedSetupIsRefused` | compaction_picker.go:1818-1830 | A failed setup that the base level picker passes on is refused by the gate. |
| `Picking.Neighbours` | compaction_picker.go:460-480 | The keys next to the output slice; when it is empty, those of the last file that starts before the bounds and of the first that does not end before them. |
| `Picking.ExtendBase` | compaction_picker.go:481-500 | More L0 files between those keys take no more files of the base level. |
| `Picking.GrowBase` | compaction_picker.go:514-547 | Growing within L0 happens exactly if nothing in the way is busy and no more files of the output level are taken. |
| `Picking.PickFromLevel` | compaction_picker.go:1660-1692 | A compaction of a level below L0 is set up as the scheduler needs, with exactly the slices of the setup, and fails exactly if the setup does. |
| `Picking.AddLevel` | compaction_picker.go:557-571 | So is one with a level added. |
| `Picking.PickFromL0` | compaction_picker.go:1805-1830 | So is one that L0Sublevels has picked: it is extended between the keys next to the output slice, and only if it fits. |
| `Picking.PickFromL0Range` | compaction_picker.go:1857-1907 | So is a manual or a read compaction of L0, grown exactly if that may be. |
| `Picking.PickIntraL0` | compaction_picker.go:1832-1855 | So is an intra-L0 compaction; there is none exactly if it has fewer than two files or one is being compacted. |
| `Picking.PickInPlace` | compaction_picker.go:1558-1655 | So is one that rewrites the atomic unit of a file in its level; there is none exactly if the unit is busy. |
| `Picking.PickByHints` | compaction.go:2354-2365 | So is a delete-only compaction: exactly the free files that hints let go, each once and in its level, and none if there are no such files. |
| `Picking.NewCompaction` | compaction.go:720-791 | A compaction starts unless the gate refuses it; delete-only ones do not pass the gate; it is a move exactly if that is allowed and it has one start file and nothing to merge it with. |
| `Picking.PickIsSound` | compaction_picker.go:1253-1425 | Whichever way it was picked, a compaction has files of the version, each once and in its level, none of them marked, within bounds that are theirs, with every file of its output level that has a user key within them. |
| `Scheduling.StepInv` | compaction.go:2308-2399 | Starts, ends, failures, cancellations, flushes, ingestions and splits keep marks, bounds and inputs consistent. |
| `Scheduling.MarkedIffInput` | compaction.go:1671-1747 | In every run a file is marked if and only if it is an input of a compaction whose edit is not applied, and then of exactly one. |
| `Scheduling.OutputsLieApart` | compaction_picker.go:1984-2039 | In every run compactions in progress into one level below L0 have bounds that lie apart. |
| `Scheduling.NoFatal` | compaction.go:1671-1745 | In every run a compaction, however picked, starts with no input marked or listed twice and ends with all inputs marked: both fatal errors are out of reach. |
| `Scheduling.NeverMeet` | compaction_picker.go:1984-2039 | Compactions into one level do not share a user key, if neither is from L0 and the one in progress is not over three levels. |
| `Scheduling.LevelsStayApart` | compaction.go:2308-2399 | In every run the files of a level below L0 share no user key, if compactions from L0, and those picked while one runs over three levels, do not meet another at a user key. |

## Left out

- Scheduling.LevelsStayApart: keeps a hypothesis for compactions from L0, and for those picked while one over three levels is in progress, because the check before a start lets them share a user key; all other starts are proved not to.
- Compaction.Compact: takes the usage rule for SINGLEDEL as a premise on its input and what lies below; that its output keeps the rule for the next compaction is not proved, and range tombstones that take the place of point tombstones would have to be counted in it.
- MemTable.PrepareBatch: takes for granted that a batch of the store has no SETWITHDEL, because the recorded size does not bound what is read back of one.
- DeletionHints.HintsDropOnlyTheDead: compactions take effect at once when they are installed, with the snapshots of their start; hints for range keys are not modelled.
- Picking.PickFromL0: L0Sublevels, which picks and extends sets of L0 files, appears as what it promises: files that do not touch the neighbouring keys.
- Picking.PickFromL0Range: the closure of Version.Overlaps on L0 appears as any superset of the files asked for.
- FlushableBatch.StreamsAgree: sorting and span fragmenting are taken by their specification.
- The ring's 32-bit indices: taken not to wrap within one stale read.
- Errors of the log and of memtables during a commit, the queue of log syncs, and stores without a log.
- Range keys in compactions: their coalescing and their fragmenter in the output loop.
- Deletable merge values, user-defined merge failures, and obsolete-point hiding.
- Reads through iterators: merging and level iteration other than for Get, and indexed batches.
- Tables from old formats whose range tombstones are not cut to their bounds.
- Scores, sizes and other heuristics that choose what to compact; they appear as free choices.
- Files, objects, the manifest's bytes, metrics, statistics and event listeners.
