# LevelDB and Snappy, modelled and proved

A model of the storage engine in `leveldb-1.18` and of the compressor in `snappy-1.1.0`, with proofs of what they
promise. `dafny verify dfyconfig.toml` checks all of it.

- **The LSM tree** (`InternalKey`, `Version`, `Picking`, `CompactionWork`, `Edits`, `CompactionReads`, `Boundaries`,
  `CompactionSearch`, `Database`, `Invariant`, `Recovery`, `Runs`, `Exactness`, `Acknowledged`, `LevelOrder`,
  `Hazards`, `StaleRead`, `LostDelete`, `Progress`). The database is a state machine of writes, memtable switches,
  flushes, trivial moves, compactions that other steps interleave with, snapshots, and crashes at any byte of the log
  followed by recovery. A read at a sequence number means the newest write of the key at or below it; `View` says so,
  and everything else is proved against it. The methods that search and pick are proved to do what the state machine
  takes them to do.
- **On-disk formats** (`Bytes`, `ByteBits`, `Coding`, `Crc32c`, `WriteBatches`, `LogFormat`, `LogFragments`, `LogFiles`,
  `VersionEdits`, `Manifests`, `ManifestVersions`, `Comparators`, `Blocks`, `Filters`, `TableFormat`, `Tables`). Each
  format is a function from what is meant to bytes, the writer is proved to write it and the reader to read it back.
- **Concurrency** (`SkipList`, `SkipListInserts`, `GroupCommit`, `GroupProgress`). State machines whose steps are single
  loads and stores, or the stretches between two releases of the mutex; what they keep, and that what is begun ends.
- **Joints** (`Iterators`, `Memtables`, `TableLookups`). What the parts above take each other to be: the iterators over
  the whole database, the memtable as a skip list of byte records, a table file as sorted entries.
- **Cursors** (`Merger`, `DbIter`), the **cache** (`LruMemory`, `HandleTables`, `LruCache`) and **Snappy**
  (`SnappyFormat`, `SnappyElements`, `SnappyWriters`, `SnappyDecompress`, `SnappyMatch`, `SnappyGreedy`,
  `SnappyCompress`). What the compressor chooses is a function of the input; the method is proved to write its code.

User keys in the LSM part are their ranks in the comparator's order, which are real numbers; `RankEmbedsCompare` shows
the embedding for the bytewise comparator. Tables there are their sorted entries, which `TableLookups` finds in the bytes
of table files. Memtables are the records of their logs; `Runs.Get` takes their sorted contents, which `Memtables` finds
in the skip list.

## Hypotheses

- `Guarded`, on the steps of a run. Every case can be told before the step: for a trivial move, no file left in the level
  begins with the user key that the moved file ends with; for the start of a compaction, nothing left in the level it
  reads from is older than what will survive of the inputs; for its end, no reader sees a value again whose tombstone is
  dropped; for a flush, the table does not go between what survives of a running compaction's inputs. Nothing in the code
  ensures them, and nothing weaker will do (`StepKeepsInvIff`). On their own the cases are exact for what reads return
  (`TrivialMoveKeepsReadsIff`, `CompactionKeepsReadsIff`) and for the order of the levels (`CompactionKeepsOrderIff`,
  `FlushLeavesRoomIff`).
- They hold in runs where no snapshot is live when a compaction starts (`SnapshotFreeRun`), in runs where no picked input
  has a neighbour that begins with the user key it ends with (`CarefulRun`), and, for flushes, whenever compactions are
  picked by PickCompaction, whose inputs leave no gap (`AutomaticRun`).
- `Fresh`: a file number comes to a level at most once between two MANIFEST snapshots. Numbers come from a counter and
  trivial moves only lead down, so the code keeps to it. `AddedTwiceShowsTwice` and `OneBuilderIff` show what
  depends on it.
- Sequence numbers stay below 2^56 - 1, keys and values are shorter than 2^32 bytes, blocks shorter than 4 GB and table
  files shorter than 2^64 bytes. The code does not check the first two.
- A crash leaves all acknowledged bytes of the log: a crash of the process, or of the machine when writes are synced.

## Findings

- **A read can miss the newest write.** Two versions of one user key can end up in two files of one level, because a
  compaction under a live snapshot may cut its output between them (`db/db_impl.cc:951-973`) and picking does not take
  the neighbour along (`db/version_set.cc:1243-1362`). When the file with the newer version moves down, the search
  finds the older one first. `StaleRead.StaleReadRun` is such a run from the empty database, through the public interface:
  a key is written, and recovered into level 0 after a crash; a snapshot is taken; the key is written again with 10 MB
  that do not compress; the memtable is flushed, and stays in level 0; CompactRange merges the two tables and cuts its
  output between the versions; level 1 is then over its limit, and its first file is moved to level 2. Exactly when a
  trivial move does this is `TrivialMoveKeepsReadsIff`.
- **A deleted key can come back.** A compaction drops a tombstone when no level below its output level may hold the key
  (`db/db_impl.cc:921-934`), but does not ask about the files it leaves behind in its own two levels. If one of them
  begins with an older value of the key, that value is visible again (`Hazards.DroppedTombstoneInput`).
  `LostDelete.LostDeleteRun` is such a run from the empty database: a key of 2 MB is written, and deleted after a snapshot
  was taken; CompactRange cuts its output between tombstone and value; the snapshot is released; and a compaction of a
  later write drops the tombstone. Exactly when this happens is `CompactionKeepsViewsIff`; `CompactionKeepsReadsIff` adds
  the entries that end up below older ones.
- **A level can overlap.** A manual compaction of level 0 may leave a gap between its inputs, and a memtable flushed
  meanwhile (`db/db_impl.cc:885-895`) may go into the gap in level 1, if something in level 2 keeps it from sinking
  further; the compaction's output then overlaps it there (`Hazards.FlushIntoGapInput`). Exactly when that can happen is
  `FlushLeavesRoomIff`.
- **Snappy's two length parsers differ** exactly when the fifth byte of the length is 16 to 127 (`LongFifthByte`):
  GetUncompressedLength refuses such a length, and decompression reads it with the high bits cut off. The compressor
  never writes one.
- **CompressFragment's documented room is not what it gets.** Its comment asks for MaxCompressedLength of the fragment;
  after the length header and earlier blocks less may be left. n + n/60 + 3 bytes are enough, and always there.
- The comment at `db/db_iter.cc:43-44` says that going backwards the internal iterator stands just before all entries
  of the current key. The code stops at the first entry of an earlier key that is visible; the model follows the code.
- A failed log append still uses up sequence numbers (the step `FailWrite` of the database, `StepIsWrite`). A failed sync
  makes every later write fail, while its record stays in the log: a reopen may bring back what was reported as failed.

## Model

| member | source | states |
|---|---|---|
| `CompactionReads.CompactionKeepsViewsIff` | src/main/jni/leveldb-1.18/db/db_impl.cc:855-976 | every read at or above the compaction's snapshot means the same after installing the outputs if and only if no dropped tombstone was the newest entry for the snapshot with an older value in what stays of the two levels; asks for nothing that picking does not give, and lets other steps change the version meanwhile |
| `CompactionReads.CompactionKeepsViewsAtIff` | src/main/jni/leveldb-1.18/db/db_impl.cc:855-976 | the same for the reads at one sequence number, so that it also says which snapshots are spared |
| `CompactionSearch.CompactionKeepsReadsIff` | src/main/jni/leveldb-1.18/db/db_impl.cc:855-976 | what the level-by-level search finds, for every key and every sequence number at or above the snapshot, stays the same if and only if no input entry that was the newest will be found no more or too late: the exact condition for compactions that split user keys, levels in order afterwards or not |
| `CompactionSearch.OrderedCompactionKeepsReadsIff` | src/main/jni/leveldb-1.18/db/version_set.cc:323-420 | when the levels are in order afterwards, the search finds the same if and only if no dropped tombstone uncovers a value |
| `CompactionReads.CompactionKeepsViews` | src/main/jni/leveldb-1.18/db/db_impl.cc:855-976 | when nothing left behind in its two levels is older than its inputs (`JobFits`), a compaction preserves every read at or above its snapshot, although hidden entries and obsolete tombstones are gone; a corollary of the exact condition |
| `CompactionWork.DoCompactionWork` | src/main/jni/leveldb-1.18/db/db_impl.cc:868-976 | the output tables hold exactly the survivors of the drop rule in order, each with the number and the size it was given, are good and lie in order without overlap; each ends because it is full or because the next key would make it lie over too much of the grandparents, and none should have ended earlier |
| `CompactionWork.Compaction.ShouldStopBefore` | src/main/jni/leveldb-1.18/db/version_set.cc:1455-1475 | the counters that move along the grandparents answer for each key whether more than 20 MB of them was passed since the first key or the last stop |
| `CompactionWork.CountedIsWithin` | src/main/jni/leveldb-1.18/db/version_set.cc:1455-1475 | from the first to the last key of an output no more of the grandparents is passed than an output may lie over |
| `CompactionWork.Compaction.IsBaseLevelForKey` | src/main/jni/leveldb-1.18/db/version_set.cc:1434-1453 | for keys asked about in non-decreasing order, the advancing level pointers answer exactly whether no deeper file's range contains the key |
| `InternalKeys.DroppingRedundantKeepsView` | src/main/jni/leveldb-1.18/db/db_impl.cc:917-940 | dropping entries that are hidden at a sequence number, or tombstones with nothing older left, changes no read at it |
| `Boundaries.TrivialMoveKeepsReadsIff` | src/main/jni/leveldb-1.18/db/db_impl.cc:683-695 | a trivial move from a level above 0 keeps every read at every sequence number if and only if no file left in the level begins with the user key that the moved file ends with |
| `LevelOrder.FlushLeavesRoomIff` | src/main/jni/leveldb-1.18/db/db_impl.cc:885-895 | after a flush during a compaction, every way the compaction can be cut and installed leaves its output level in order if and only if the flushed table did not go to that level or lies to one side of all that survives of the inputs |
| `LevelOrder.CompactionKeepsOrderIff` | src/main/jni/leveldb-1.18/db/version_set.cc:1297-1362 | every way a compaction can finish keeps newer versions of a key in levels above older ones if and only if nothing that stays in the level it reads from is older than a survivor of its key; what reads return is `CompactionKeepsReadsIff` |
| `LevelOrder.RunKeepsLevelsSorted` | src/main/jni/leveldb-1.18/db/version_set.cc:493-563 | over every run, whatever user keys the picked inputs split, levels above 0 stay sorted and disjoint by internal key; hypothesis: no flush goes between the survivors of a running compaction |
| `Runs.RunReadsHistory` | src/main/jni/leveldb-1.18/db/db_impl.cc:655-738 | over every run of writes, memtable switches, flushes, trivial moves, compactions, snapshots and crashes, levels are disjoint and ordered and every read at a live snapshot or at the present returns the newest acknowledged write it may see; hypothesis `Guarded` at every step, which `StepKeepsInvIff` shows to be the weakest |
| `Exactness.StepKeepsInvIff` | src/main/jni/leveldb-1.18/db/db_impl.cc:655-738 | where the invariant of the runs holds, which includes that all reads are right, a step keeps it if and only if the step is guarded |
| `Runs.CarefulRun` | src/main/jni/leveldb-1.18/db/version_set.cc:1243-1362 | reads are right over every run whose picked inputs leave no neighbour that begins with the user key they end with, a condition read off the neighbouring files |
| `Runs.SnapshotFreeRun` | src/main/jni/leveldb-1.18/db/version_set.cc:1243-1362 | when no snapshot is live as a compaction starts, levels above 0 stay disjoint by user key, so nothing picked is ever split and reads are right; hypothesis: no flush goes between the survivors of a running compaction |
| `Runs.AutomaticRun` | src/main/jni/leveldb-1.18/db/version_set.cc:1243-1295 | when compactions are picked without gaps, as PickCompaction picks them, every flush leaves room, and reads are right if no boundary is split |
| `Runs.AutomaticSnapshotFreeRun` | src/main/jni/leveldb-1.18/db/version_set.cc:1243-1362 | with automatic compactions only, none starting under a live snapshot, reads are right over every run with no hypothesis on the tables |
| `AcknowledgedReads.WriteIsSeen` | src/main/jni/leveldb-1.18/db/db_impl.cc:1162-1233 | the end of a write makes all its records visible at once, in their order, and changes no other key |
| `AcknowledgedReads.TakenSeesAcknowledged` | src/main/jni/leveldb-1.18/db/db_impl.cc:1143-1146 | a new snapshot reads of every key its newest acknowledged write |
| `AcknowledgedReads.SnapshotSeesItsMoment` | src/main/jni/leveldb-1.18/db/db_impl.cc:1143-1152 | over every guarded run, for as long as a snapshot is held, it reads of every key the write that was the newest acknowledged one when it was taken |
| `AcknowledgedReads.ReleaseTakesOne` | src/main/jni/leveldb-1.18/db/db_impl.cc:1148-1151 | releasing a snapshot takes out that one; all others are there and read what they read |
| `Progress.ReopenIsPossible` | src/main/jni/leveldb-1.18/db/db_impl.cc:274-455 | in every state of a guarded run, wherever a crash cuts the log, there is a way to open the database again |
| `Progress.FlushIsPossible` | src/main/jni/leveldb-1.18/db/db_impl.cc:503-550 | in every such state a memtable that waits can be flushed |
| `Progress.FinishIsPossible` | src/main/jni/leveldb-1.18/db/db_impl.cc:834-976 | in every such state a compaction under way can be finished |
| `Runs.SnapshotIsStable` | src/main/jni/leveldb-1.18/db/db_impl.cc:1143-1152 | no guarded step changes what a read at a live sequence number returns |
| `Runs.Get` | src/main/jni/leveldb-1.18/db/db_impl.cc:1077-1122 | memtable, immutable memtable, then the version: the result is the newest visible write among everything stored, and among everything acknowledged when the sequence number is readable |
| `Versions.Get` | src/main/jni/leveldb-1.18/db/version_set.cc:323-420 | the level-by-level search stops at the first hit, and with ordered levels that is the newest visible entry of the whole version; a seek is charged if and only if more than one file was looked in, to the first, which held nothing visible and is not in the last level |
| `Versions.FindFile` | src/main/jni/leveldb-1.18/db/version_set.cc:77-96 | binary search finds the first file whose largest key is at or after the target |
| `Versions.GetOverlappingInputs` | src/main/jni/leveldb-1.18/db/version_set.cc:522-563 | the files touching the range, which in level 0 grows, with restarts that terminate, to the least range that no file it touches sticks out of |
| `Versions.SomeFileOverlapsRange` | src/main/jni/leveldb-1.18/db/version_set.cc:112-146 | true exactly when some file may share a user key with the range |
| `Picking.VersionSet.PickCompaction` | src/main/jni/leveldb-1.18/db/version_set.cc:1243-1295 | it begins with the file whose turn it is in the fullest level, if its score is at least 1, else with the file charged with too many seeks; the inputs are completed as `CompletedFrom` says, leave no gap, and the level's pointer moves to their end |
| `Picking.IsFullIff` | src/main/jni/leveldb-1.18/db/version_set.cc:1017-1052 | a level's score reaches 1 exactly from four files on in level 0, and from 10 MB on in level 1, ten times as much in every level below |
| `Picking.Finalize` | src/main/jni/leveldb-1.18/db/version_set.cc:1017-1052 | finds the uppermost of the levels with the highest score, the last level not counting |
| `Picking.SetupOtherInputs` | src/main/jni/leveldb-1.18/db/version_set.cc:1297-1362 | the next level's inputs are all that touch the hull; the inputs are expanded to all that overlap everything picked exactly if those are more, touch no more of the next level and stay small; closure and gaplessness are kept |
| `Picking.VersionSet.CompactRange` | src/main/jni/leveldb-1.18/db/version_set.cc:1364-1397 | none if and only if nothing touches the range; else, in level 0, all that overlaps the range, and below it the first of the files that touch it, in order, up to the size limit; completed as `CompletedFrom` says |
| `Database.PickLevelForMemTableOutput` | src/main/jni/leveldb-1.18/db/version_set.cc:493-518 | a flushed table sinks exactly as far as nothing above or beside it overlaps and the limits allow |
| `Recovery.CrashedLogIsReplayed` | src/main/jni/leveldb-1.18/db/db_impl.cc:362-455 | whatever bytes a crash leaves of the current log behind the last acknowledged record, no corruption is reported and replay gives exactly the acknowledged groups, and the group in flight just if its record is there to the last byte |
| `Recovery.ReopenIsDurable` | src/main/jni/leveldb-1.18/db/db_impl.cc:274-455 | after a crash at any byte and a reopen, sequence numbers go on above all that was recovered, the history is the acknowledged groups, plus the one in flight if and only if all of its record is left, and every read returns the newest write of that history |
| `Hazards.SplitBoundaryInput` | src/main/jni/leveldb-1.18/db/version_set.cc:1243-1362 | a level in which picking moves the newer version of a key below the older one |
| `Hazards.FlushIntoGapInput` | src/main/jni/leveldb-1.18/db/version_set.cc:1364-1397 | a manual compaction and a flush into its gap that leave level 1 overlapping, and the condition of `FlushLeavesRoomIff` failing |
| `Hazards.DroppedTombstoneInput` | src/main/jni/leveldb-1.18/db/db_impl.cc:921-934 | a compaction that drops a tombstone while an older value of its key stays next to it in the output level: the deleted value is back |
| `LostDelete.LostDeleteRun` | src/main/jni/leveldb-1.18/db/db_impl.cc:917-940 | a run of eighteen steps from the empty database, of three writes, a snapshot and two manual compactions, after which a deleted key is found again although no snapshot is live; all steps but the last are guarded |
| `StaleRead.StaleReadRun` | src/main/jni/leveldb-1.18/db/version_set.cc:1243-1362 | a run of eleven steps from the empty database, of writes, a crash, a snapshot and a manual compaction, after which the search finds the older of two acknowledged writes; its last step is the trivial move that PickCompaction picks, and all others are guarded |
| `Comparators.RankEmbedsCompare` | src/main/jni/leveldb-1.18/util/comparator.cc:25-27 | the bytewise order of user keys is the order of their ranks, and ranks are equal only for equal keys |
| `Comparators.FindShortestSeparator` | src/main/jni/leveldb-1.18/util/comparator.cc:29-51 | the result is the start cut behind its first byte that differs from the limit, which is one more, if that is still before the limit's, or else the start; it is at or after the start, before the limit and no longer |
| `Comparators.FindShortSuccessor` | src/main/jni/leveldb-1.18/util/comparator.cc:53-65 | the result is the key itself or a later one, and nothing shorter is at or after the key |
| `Comparators.FindShortestInternalSeparator` | src/main/jni/leveldb-1.18/db/dbformat.cc:68-85 | an index key at or after the start and before the limit, with the user key shortened exactly if that makes it shorter; a shortened one precedes all entries of its own user key |
| `SnappyCompress.Compress` | src/main/jni/snappy-1.1.0/snappy.cc:875-954 | for every source of fewer than 2^32 bytes, however it is split into regions, the output is the length and the code of the elements chosen block by block, decodes to the input, is within MaxCompressedLength, and every store is inside an array of that size |
| `SnappyCompress.CompressFragment` | src/main/jni/snappy-1.1.0/snappy.cc:328-452 | the hash table kept in place and the bytes emitted are those of the elements that `Greedy` chooses for the block, within the proved bound |
| `SnappyGreedy.ChosenMeans` | src/main/jni/snappy-1.1.0/snappy.cc:328-452 | after any output, the elements chosen for an input append the input, whatever matches the hash table finds or misses |
| `SnappyGreedy.RepeatIsFound` | src/main/jni/snappy-1.1.0/snappy.cc:347-392 | a search misses no repeat of four bytes between two positions it asks at, unless a position between them took the place in the hash table |
| `SnappyGreedy.WithoutRepeats` | src/main/jni/snappy-1.1.0/snappy.cc:347-392 | a block in which no four bytes, but for its end, occur twice becomes one literal |
| `SnappyGreedy.OneByteRun` | src/main/jni/snappy-1.1.0/snappy.cc:394-444 | a block of at least 17 times one byte becomes that byte and one copy of the length of the rest, in its pieces |
| `SnappyGreedy.PiecesCopy` | src/main/jni/snappy-1.1.0/snappy.cc:215-231 | the copies of at most 64 bytes that EmitCopy writes mean one overlapping copy of the whole length |
| `SnappyMatch.FindMatchLength` | src/main/jni/snappy-1.1.0/snappy-internal.h:85-144 | with 64-bit or 32-bit words, the result is how far the two stretches agree: they are equal up to it and differ there or the limit is reached |
| `SnappyElements.UncompressedIsOutput` | src/main/jni/snappy-1.1.0/snappy.cc:510-542 | for every string that any encoder may write, with literals of one to four length bytes and copies of eleven, sixteen or thirty-two bits of offset, decoding applies its elements one after the other |
| `SnappyElements.HeadOfToken` | src/main/jni/snappy-1.1.0/snappy.cc:575-618 | every element, written from its offset, length or data, is read back whatever follows |
| `SnappyElements.HeadIsToken` | src/main/jni/snappy-1.1.0/snappy.cc:575-618 | nothing else is read as an element, but for a literal length of 2^32, which wraps around to 0 |
| `SnappyDecompress.SnappyDecompressor.RefillTag` | src/main/jni/snappy-1.1.0/snappy.cc:782-839 | whatever regions the source has, the next tag with its operands is made contiguous exactly when enough bytes are left, and what remains to be read is unchanged |
| `SnappyDecompress.InternalUncompress` | src/main/jni/snappy-1.1.0/snappy.cc:842-867 | for any bytes, valid or not, and any regions, the outcome and the bytes written are those of decoding the flat string |
| `SnappyDecompress.RawUncompress` | src/main/jni/snappy-1.1.0/snappy.cc:1035-1043 | succeeds if and only if the string decodes to the announced length, and then the array holds the decoded bytes; in any case nothing past the announced length is touched |
| `SnappyDecompress.IsValidCompressedBuffer` | src/main/jni/snappy-1.1.0/snappy.cc:1088-1092 | the validator, which stores nothing, accepts exactly what the array decompressor accepts |
| `SnappyWriters.IncrementalCopyFastPath` | src/main/jni/snappy-1.1.0/snappy.cc:141-153 | overlapping copies in eight-byte steps give the same bytes as copying byte by byte and store at most ten bytes past the end |
| `SnappyWriters.SnappyArrayWriter.AppendFromSelf` | src/main/jni/snappy-1.1.0/snappy.cc:1008-1032 | every fast path appends what the byte-by-byte overlapping copy appends, and refuses exactly when that has no meaning or no room |
| `Merging.MergingIterator.Next` | src/main/jni/leveldb-1.18/table/merger.cc:59-83 | moves to the next entry of the sorted union of all children, also after a change of direction |
| `Merging.MergingIterator.Prev` | src/main/jni/leveldb-1.18/table/merger.cc:85-112 | moves to the entry before in the sorted union, also after a change of direction |
| `Merging.MergingIterator.Seek` | src/main/jni/leveldb-1.18/table/merger.cc:51-57 | finds the first entry of the union at or after the target |
| `Merging.UnionExists` | src/main/jni/leveldb-1.18/table/merger.cc:35-112 | sorted children with distinct keys have one sorted union, so that there is something to be a cursor over |
| `UserIterator.DBIter.Next` | src/main/jni/leveldb-1.18/db/db_iter.cc:146-203 | moves to the next user key that has a value at the iterator's sequence number, skipping none, with the value the specification gives it |
| `UserIterator.DBIter.Prev` | src/main/jni/leveldb-1.18/db/db_iter.cc:205-272 | moves to the user key before that has a value at the sequence number, skipping none, also after a change of direction |
| `UserIterator.DBIter.Seek` | src/main/jni/leveldb-1.18/db/db_iter.cc:274-286 | finds the first user key at or after the target that has a value |
| `UserIterator.DBIter.SeekToLast` | src/main/jni/leveldb-1.18/db/db_iter.cc:299-304 | finds the last user key that has a value |
| `Iterators.NewIterator` | src/main/jni/leveldb-1.18/db/db_impl.cc:1035-1064 | the memtables, the tables of level 0 and one run for every other level, merged, hold each stored entry once, and the iterator over them reads at a live snapshot or the present what the acknowledged history says |
| `Iterators.RunIsIterable` | src/main/jni/leveldb-1.18/db/db_impl.cc:1035-1064 | every state of every guarded run is one that such an iterator can be made in |
| `UserIterator.LiveIsView` | src/main/jni/leveldb-1.18/db/db_iter.cc:173-203 | the entries that the scans stop at carry the value the specification of a read gives |
| `SkipLists.RunKeepsInv` | src/main/jni/leveldb-1.18/db/skiplist.h:336-370 | with one writer and any number of readers interleaved at single loads and stores, every state of every run has right links, and every reader is somewhere right |
| `SkipLists.WalkIsExact` | src/main/jni/leveldb-1.18/db/skiplist.h:261-322 | a search that ends in a state ends at what it is for in that state: the first key not less, the last less, or the last |
| `SkipListInserts.WalkEnds` | src/main/jni/leveldb-1.18/db/skiplist.h:261-322 | from any state of any run, a search that is left alone comes to its end, at what it is for |
| `SkipListInserts.InsertEnds` | src/main/jni/leveldb-1.18/db/skiplist.h:336-370 | from any state of any run, an insertion comes to its end if the writer goes on |
| `SkipListInserts.InsertAddsOne` | src/main/jni/leveldb-1.18/db/skiplist.h:336-370 | over any interleaving, a whole insertion adds one node of its key to every level below its height and to no other, raises the list to that height if it was lower, and leaves the keys and heights of all other nodes |
| `SkipLists.ScanMissesNothing` | src/main/jni/leveldb-1.18/db/skiplist.h:191-241 | over every run, a scan visits strictly rising keys, and at its end has visited every key that was linked when it began |
| `SkipLists.NeverUninitialised` | src/main/jni/leveldb-1.18/db/skiplist.h:154-175 | no reader's next load is of a link that was not stored yet |
| `SkipLists.OnlyPublishingAdds` | src/main/jni/leveldb-1.18/db/skiplist.h:336-370 | the keys present change at one store only, the one to level 0 |
| `SkipLists.LevelsAreSublists` | src/main/jni/leveldb-1.18/db/skiplist.h:336-370 | at every intermediate step of an insertion each level is a sublist, in order, of the one below |
| `Memtables.InternalRankEmbedsOrder` | src/main/jni/leveldb-1.18/db/memtable.cc:33-39 | the order of the memtable's byte keys is the order of the numbers that the skip list's nodes hold, equal only for equal keys |
| `Memtables.IteratorIsMemtable` | src/main/jni/leveldb-1.18/db/memtable.cc:51-106 | over every interleaving, once the records of a log have been added to the skip list, the nodes along its lowest level are exactly the log's entries in order |
| `Memtables.ApplyKeepsJoined` | src/main/jni/leveldb-1.18/db/write_batch.cc:128-134 | adding the records of a batch to a memtable adds the group of writes that its log record stands for, with the same sequence numbers |
| `Memtables.AddIsFresh` | src/main/jni/leveldb-1.18/db/skiplist.h:336-343 | a record whose sequence number is new compares equal to nothing in the skip list, as an insertion requires |
| `Memtables.GetIsSearch` | src/main/jni/leveldb-1.18/db/memtable.cc:108-143 | a finished seek in the skip list, and the comparison of the user key, give what a search of those sorted entries gives |
| `TableLookups.GetFromTable` | src/main/jni/leveldb-1.18/db/table_cache.cc:105-119 | reading a user key at a sequence number from the bytes of a table gives what a search of its entries by rank gives, which are sorted |
| `LruCaches.LRUCache.Insert` | src/main/jni/leveldb-1.18/util/cache.cc:225-256 | the ring afterwards, what was replaced, evicted and freed and no more than needed; usage within capacity or nothing left to evict; entries in use are not freed |
| `LruCaches.LRUCache.Lookup` | src/main/jni/leveldb-1.18/util/cache.cc:209-218 | finds the entry of the key if there is one, moves it to the newest end and counts the handle |
| `LruCaches.LRUCache.Release` | src/main/jni/leveldb-1.18/util/cache.cc:220-223 | the entry is freed exactly when the last handle of an entry no longer in the cache is given back |
| `LruCaches.LRUCache.Erase` | src/main/jni/leveldb-1.18/util/cache.cc:258-271 | the entry leaves the ring and the table, and is freed exactly when nobody holds it |
| `HandleTables.HandleTable.Insert` | src/main/jni/leveldb-1.18/util/cache.cc:62-76 | the entry is in the table and an equal one is not any more; the table grows exactly when it has more entries than buckets, and loses none |
| `HandleTables.HandleTable.Resize` | src/main/jni/leveldb-1.18/util/cache.cc:107-130 | rehashing every chain in place keeps exactly the same entries, in the least power of two of buckets from four on that is no less than their number |
| `GroupCommit.BuildBatchGroup` | src/main/jni/leveldb-1.18/db/db_impl.cc:1237-1282 | the group is the longest prefix of the queue that may join its leader, and the batch holds all their records in order |
| `GroupCommit.GroupIsBounded` | src/main/jni/leveldb-1.18/db/db_impl.cc:1237-1282 | a small write is held up by at most 128 KB of others, no group is larger than 1 MB unless its leader's write is, and whoever is left out needs a sync that the leader does not do or would have made the group larger than that |
| `GroupCommit.ReleasedInTurn` | src/main/jni/leveldb-1.18/db/db_impl.cc:1162-1233 | over every run writers are let go in the order they came, each once, and an answer never changes |
| `GroupCommit.SnapshotSeesWholeGroups` | src/main/jni/leveldb-1.18/db/db_impl.cc:1196-1215 | over every run, what the memtable holds up to an earlier last sequence number is exactly the groups finished by then: no reader sees part of one |
| `GroupCommit.EachEntryOnce` | src/main/jni/leveldb-1.18/db/write_batch.cc:128-134 | entries reach the memtable with strictly rising sequence numbers, none twice |
| `GroupCommit.SuccessMeansWritten` | src/main/jni/leveldb-1.18/db/db_impl.cc:1162-1233 | a writer that was told of success has its records, contiguous and in order, in the memtable and in one log record, which is on disk if it asked for that |
| `GroupProgress.StepMovesOn` | src/main/jni/leveldb-1.18/db/db_impl.cc:1162-1233 | every step but an arrival brings the queue nearer to its end, so there are only finitely many between two arrivals |
| `GroupProgress.QueueEnds` | src/main/jni/leveldb-1.18/db/db_impl.cc:1162-1233 | from any state of any run some step is possible while anybody waits, and once nobody arrives every writer gets an answer, of success if nothing has failed |
| `GroupCommit.StepIsWrite` | src/main/jni/leveldb-1.18/db/db_impl.cc:1162-1233 | each step of the queue is to the state machine of the database the begin of a write, its end, a write that failed and only used up sequence numbers, or nothing |
| `WriteBatches.WriteBatch.Iterate` | src/main/jni/leveldb-1.18/db/write_batch.cc:42-80 | the handler gets the records of the bytes up to the first malformed one, and of a batch built by the API all of them |
| `WriteBatches.InsertInto` | src/main/jni/leveldb-1.18/db/write_batch.cc:128-134 | each record is added with the next sequence number, counted up from the batch's own |
| `WriteBatches.WriteBatch.Append` | src/main/jni/leveldb-1.18/db/write_batch.cc:141-146 | the bytes of the result are those of a batch with the records of both, in order |
| `LogFormat.ReadOfPrefix` | src/main/jni/leveldb-1.18/db/log_reader.cc:59-164 | reading any byte prefix of a log returns exactly the records it holds in full, and reports no corruption |
| `LogFormat.ReadOfFile` | src/main/jni/leveldb-1.18/db/log_reader.cc:59-164 | reading back a log returns the records written |
| `LogFiles.LogWriter.AddRecord` | src/main/jni/leveldb-1.18/db/log_writer.cc:27-73 | the file is that of the records so far and one more, with empty first fragments and zero trailers where blocks end |
| `LogFiles.LogReader.ReadRecord` | src/main/jni/leveldb-1.18/db/log_reader.cc:59-164 | the buffered reader agrees, on any bytes, with reading the file as one string, in records and in what it reports |
| `LogFragments.ReadAllIs` | src/main/jni/leveldb-1.18/db/log_reader.cc:59-164 | on any bytes, the records returned are those of full fragments and of a first, middle ones and a last in a row, in order; and something is reported if and only if a fragment is bad, of no known kind, out of place, or breaks off a record |
| `LogFiles.CrashAndRead` | src/main/jni/leveldb-1.18/db/log_reader.cc:59-164 | writing records, cutting the file anywhere and reading gives the records before the cut |
| `Crc32c.ExtendConcat` | src/main/jni/leveldb-1.18/util/crc32c.h:14-17 | extending the checksum of one string by another gives the checksum of both |
| `Crc32c.ChangeIsDetected` | src/main/jni/leveldb-1.18/util/crc32c.h:14-20 | a change confined to four bytes in a row, wherever they are, changes the checksum |
| `Crc32c.ZerosResult` | src/main/jni/leveldb-1.18/util/crc32c_test.cc:12-17 | the checksum of 32 bytes of zeros is the published one |
| `Crc32c.MaskRotates` | src/main/jni/leveldb-1.18/util/crc32c.h:28-37 | but for the constant, every bit of a masked checksum is the one 15 places up |
| `Manifests.Reopen` | src/main/jni/leveldb-1.18/db/version_set.cc:896-1009 | recovering from the bytes of the MANIFEST gives the same files in every level, the same compaction pointers and the same log numbers as the successive LogAndApply calls left in memory |
| `Manifests.OneMoreEdit` | src/main/jni/leveldb-1.18/db/version_set.cc:594-764 | one builder for one more edit saves the same files as saving first and applying the edit to the result, if the edit adds no number twice |
| `Manifests.OneBuilderIff` | src/main/jni/leveldb-1.18/db/version_set.cc:594-764 | at any level, over any base and any edits before, one builder with one more edit saves what two builders save if and only if the edit adds no number to the level that was deleted there before while the base holds it |
| `Manifests.VersionSet.LogAndApply` | src/main/jni/leveldb-1.18/db/version_set.cc:811-894 | every level becomes what a builder saves, and memory and the logged edits agree again |
| `ManifestVersions.SavedIsReplaced` | src/main/jni/leveldb-1.18/db/version_set.cc:702-764 | what LogAndApply makes of a level is what the state machine of the database calls replacing deleted tables by added ones |
| `VersionEdits.EditRoundTrip` | src/main/jni/leveldb-1.18/db/version_edit.cc:41-210 | decoding the encoding of an edit gives the edit, in whatever order the set of deleted files is written |
| `Blocks.BlockBuilder.Finish` | src/main/jni/leveldb-1.18/table/block_builder.cc:63-107 | for any restart interval the bytes are the block of the entries added, each without the longest prefix it shares with the one before, but for the restart points |
| `Blocks.OpenedParts` | src/main/jni/leveldb-1.18/table/block.cc:18-40 | the number of restart points is the last word; a block is refused exactly if it has no room for a last word or for as many |
| `Blocks.BlockIter.Seek` | src/main/jni/leveldb-1.18/table/block.cc:165-203 | binary search over restart points and a scan find the first entry not less than the target |
| `Blocks.BlockIter.Prev` | src/main/jni/leveldb-1.18/table/block.cc:144-163 | moves to the entry before, undoing Next |
| `Tables.TableBuilder.Finish` | src/main/jni/leveldb-1.18/table/table_builder.cc:199-254 | the file is a table of exactly the entries added, in blocks that end as soon as they are long enough: every index key is at or after its block's last key and before the next block's first, and as short as the comparator makes it, and the filter serves every entry |
| `Tables.Table.InternalGet` | src/main/jni/leveldb-1.18/table/table.cc:226-255 | what is saved is the first entry at or after the key; an entry of the same user key is never missed, whatever the filter says |
| `Tables.TwoLevelIterator.Seek` | src/main/jni/leveldb-1.18/table/two_level_iterator.cc:91-96 | stands on the first entry of the whole table at or after the target |
| `Tables.TwoLevelIterator.Next` | src/main/jni/leveldb-1.18/table/two_level_iterator.cc:112-116 | moves to the next entry of the table across block ends |
| `Tables.TwoLevelIterator.Prev` | src/main/jni/leveldb-1.18/table/two_level_iterator.cc:118-123 | moves to the entry before across block ends |
| `TableFormat.ReadBlock` | src/main/jni/leveldb-1.18/table/format.cc:66-142 | what is read is what the bytes mean by their type and, when verifying, if and only if the checksum is theirs; what WriteBlock stored, compressed or not, is read back |
| `TableFormat.FooterIsMagic` | src/main/jni/leveldb-1.18/table/format.cc:44-64 | only what ends in the magic number is taken for a footer |
| `TableFormat.WriteBlock` | src/main/jni/leveldb-1.18/table/table_builder.cc:139-196 | what is written is the compressor's output, exactly if compression is asked for and saves an eighth, or else the block as it is, with type and checksum |
| `TableFormat.DamageIsRefused` | src/main/jni/leveldb-1.18/table/format.cc:90-101 | a block of which up to four bytes in a row were changed is not read when checksums are verified |
| `Filters.CreateFilter` | src/main/jni/leveldb-1.18/util/bloom.cc:35-61 | a bit of the filter is set if and only if some probe of some key goes there, and the last byte is the number of probes |
| `Filters.FilterMatchesIff` | src/main/jni/leveldb-1.18/util/bloom.cc:63-84 | a filter matches exactly the keys all of whose probes go where some key of the filter's goes, so every key it was made for |
| `Filters.DeltaRotates` | src/main/jni/leveldb-1.18/util/bloom.cc:54-54 | the step between probes is the hash turned right by 17 bits, bit by bit |
| `Filters.KeyMayMatch` | src/main/jni/leveldb-1.18/util/bloom.cc:63-84 | for a filter of at least two bytes, true exactly when every probed bit is set or its encoding is a reserved one; otherwise false |
| `Filters.FilterBlockBuilder.Finish` | src/main/jni/leveldb-1.18/table/filter_block.cc:36-50 | for every block and key the filter block says what the filter of the block's stretch of the file says, and yes where there is none; so a key added for a stretch matches for every block that begins in it |
| `Coding.VarintRoundTrip` | src/main/jni/leveldb-1.18/util/coding.cc:47-170 | decoding an encoded number, whatever follows it, gives the number and its length |

## Left out

- Corrupt tables, blocks and MANIFEST files beyond refusal, I/O errors, and checksum-failure resynchronisation.
- Reading a log from a non-zero initial offset; the table-driven checksum, which is modelled bit by bit.
- Write throttling. The sizes of tables, while they are built and when they are finished, are functions given to
  `DoCompactionWork`. Scores are compared as exact numbers; seeks that iterators' samples charge are not modelled.
- A log append that fails after part of its record was written.
- The concatenating iterator over the files of a level is taken as a cursor over their entries.
- The mutex and the sharding of the cache, its destructor, and the block and table caches of readers.
- Memory orders weaker than sequential consistency, and the random heights of the skip list, which are any of 1 to 12.
- The Env, files, threads and clocks; repair; the C, JNI and Java bindings; the dump tool.
- UserIterator.LiveIsView: says nothing of the scans; the contracts of `DBIter` do.
- Runs.RunReadsHistory: does not say what reads return after a step that is not guarded; for single moves and compactions `TrivialMoveKeepsReadsIff` and `CompactionKeepsReadsIff` do.
- Recovery.ReopenIsDurable: does not say that sequence numbers never go back. After a failed write they may: recovery counts from what it finds, above everything recovered.
- Runs.SnapshotIsStable: is about guarded steps; after others `TrivialMoveKeepsReadsIff` and `CompactionKeepsReadsIff` say what a snapshot reads.
- AcknowledgedReads.SnapshotSeesItsMoment: the same.
- Manifests.VersionSet.LogAndApply: the compaction pointers that SetupOtherInputs sets ahead of the log are not part of it.
- SnappyWriters.UnalignedCopy64: is one load and one store of eight bytes; 32-bit machines copy two halves.
- The length prefixes of the records in a memtable's arena: the records are a pair of byte strings.
