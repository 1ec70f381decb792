# LevelDB and nanopb, verified

A model of the storage engine under `ios/Pods/leveldb-library`, with proofs that its fast paths agree
with simple specifications, and of the message encoder and decoder under `ios/Pods/nanopb`.  It has four
parts.

**The engine.**  `History` is the specification: a database is the list of its writes, and a read of a
key at a sequence number sees the newest of the writes up to there; `Updates` says what a batch of
operations means to the reads after it.  `Engine` is the database as a state
machine whose steps are group writes, memtable switches, flushes, compactions, trivial moves, snapshots
and crashes followed by recovery, in any order.  `EngineSafety` proves an invariant of all runs and
that every read of every run is right.  `Durability` proves which writes a crash cannot take, when each
log file may lose any of its records that were not synced, and when it takes a synced one.  `DbImpl`, `DbRecover`, `Manifest`,
`VersionBuilder`, `CompactionInputs`, `CompactionRun`, `CompactionWork`, `FlushLevel`, `Version` and
`Batch` are the code: classes and methods with the source's fields, branches and loops, proved to refine
the steps, over any number of crashes and openings.  `Lsm`, `Jobs` and `DropRule` hold the lemmas on
versions and compactions.  Three times the source does not check what it relies on: `Premises` and
`Durability` have for each a run from a fresh database that goes wrong, and `Boundary`,
`EngineSafety.NestedFlushIff` and `LogReuse` say exactly when it does.  `LiveFiles` is the reference
counts that keep table files on disk.

**Cursors and structures in memory.**  `Merger`, `DbIter` and `TwoLevel` are cursors with their direction
switches, each proved to move over a plain sorted list; `Iteration` puts them together for a whole
database.  `SkipList` has linked nodes and one lemma for each link store, so that searches and an
insertion can interleave.  `HandleTable` and `Cache` are the LRU cache.

**Byte formats.**  `Log`, `LogReader` and `LogRoundTrip` (any byte prefix of a log reads back),
`LogReuse` (exactly which prefixes can be written on), `LogIntegrity` (what is read of a damaged log lies
there), `LogFiles` (from cut log files to an open database),
`Crc32c` (strided against bit by bit, section 12.1 of RFC 3720), `Coding`, `EditCoding`, `BatchCoding`,
`Block` and `BlockIter` (prefix compression and restarts), `Comparator`, `Bloom`, `FilterBlock` and
`Table` (lookups find what they must despite shortened index keys and filters); `Formats` has the formats'
numbers as literal bytes.

**nanopb.**  `Pb` holds field descriptors, the structures they describe and the bytes of such a structure,
`PbParse` what the decoder makes of any bytes.  `PbEncode` and `PbDecode` are the code over streams.  The
laws are about these functions: `PbNumbers` and `PbWire` tie them to the encoding specification, `PbMerge`
proves that a reader merges what a writer with another descriptor has written, `PbRoundTrip` exactly when
decoding undoes encoding, and `PbTyped` that whatever is decoded is a message of the descriptor.

Methods are proved against specification functions and predicates; main results are the rows below.

## Model

| member | source | states |
|---|---|---|
| History.RetainedReadsAreRight | ios/Pods/leveldb-library/db/db_impl.cc:1100-1136 | a lookup in a stored set that retains what the history needs answers what the history of writes says: the newest write at or before the snapshot, unless it is a deletion |
| History.NewestWriteInPrefix | ios/Pods/leveldb-library/db/db_impl.cc:1100-1111 | later writes never change what a reader at a snapshot sees |
| Updates.ReadAfterOps | ios/Pods/leveldb-library/db/write_batch.cc:121-128 | after operations are written, numbered on from any history, a read of a key gives the value if the last of them about the key is a Put, nothing if it is a Delete, and what it gave before if there is none |
| Updates.UpdatedIsEffect | ios/Pods/leveldb-library/db/write_batch.cc:121-128 | that is what applying the operations one by one to a map gives |
| UserKeys.RankIsOrderEmbedding | ios/Pods/leveldb-library/util/comparator.cc:25-27 | representing user keys by real ranks loses nothing: ranks are ordered and equal exactly as the byte strings are |
| EngineSafety.StepKeepsInv | ios/Pods/leveldb-library/db/db_impl.cc:688-767 | every step (group write, memtable switch, flush at any time, compaction start, output allocation, install, trivial move, snapshot, release, crash with recovery) keeps the invariant: valid version, newer entries never deeper, tables plus needed logs hold the history, everything still readable retained |
| EngineSafety.RunKeepsInv | ios/Pods/leveldb-library/db/db_impl.cc:688-767 | the invariant holds in every state of every run from a fresh database |
| EngineSafety.GaplessRunIsRun | ios/Pods/leveldb-library/db/db_impl.cc:697-711 | a run in which every compaction has inputs without gaps, as those have that the source picks by itself, and in which memtables are flushed to any level that is clear, at any time, is such a run: no premise on flushes is needed |
| EngineSafety.EveryReadIsRight | ios/Pods/leveldb-library/db/db_impl.cc:1100-1136 | in every state of every run, crashes included, a lookup at or after the oldest snapshot gives exactly what the multi-version map gives |
| Durability.SyncedWritesAreDurable | ios/Pods/leveldb-library/db/db_impl.cc:1215-1235 | once a sync write is done, its own writes are in the history unchanged in every later state of the run, although any crash may cut every log file down to its synced records; the writes before it need not be. Recovery steps of a run do not write on a torn log; `Durability.SyncIsLostIffTorn` is what happens otherwise |
| Durability.StepKeepsDurable | ios/Pods/leveldb-library/db/db_impl.cc:1346-1366 | a write in a synced table, or in a synced record of a log that is still needed, stays so in every step: memtable switches, flushes that let logs go, crashes and recovery that does not write on a torn log included |
| Durability.NothingLostIffSynced | ios/Pods/leveldb-library/db/db_impl.cc:1346-1366 | no crash can lose any write if and only if no log still needed has unsynced records with writes in them |
| Durability.SyncCoversAllIff | ios/Pods/leveldb-library/db/db_impl.cc:1215-1235 | right after a sync write all writes so far are safe if and only if no older log that is still needed has an unsynced end |
| Durability.EarlierWriteIsLost | ios/Pods/leveldb-library/db/db_impl.cc:1346-1366 | a run in which a write without sync, a memtable switch, a sync write and a crash leave the second write and not the first: the switch closes the old log without syncing it |
| Durability.SyncIsLostIffTorn | ios/Pods/leveldb-library/db/db_impl.cc:457-480 | in any state that is right but for its log: a crash can take a write that was just synced if and only if the log was torn when it was reopened to be written on |
| Durability.SyncWriteIsLost | ios/Pods/leveldb-library/db/db_impl.cc:457-480 | a crash at the end of a run tears the record of the first write, the log is reopened and written on, a sync write is read, and the next crash loses it |
| EngineSafety.WriteKeepsInv | ios/Pods/leveldb-library/db/db_impl.cc:1185-1258 | a group write keeps the invariant |
| EngineSafety.FlushKeepsInv | ios/Pods/leveldb-library/db/db_impl.cc:535-566 | a flush, also one nested in a compaction, keeps the invariant if its table lies outside the compaction's key span or in another level (`FlushApart`) |
| EngineSafety.GaplessFlushIsStep | ios/Pods/leveldb-library/db/version_set.cc:491-516 | a flush placed as the source places it lies outside the key span of the compaction under way if the inputs of that have no gaps |
| EngineSafety.NestedFlushIff | ios/Pods/leveldb-library/db/db_impl.cc:908-918 | for any flush into the output level of the compaction under way, placed as the source places it: what is installed then is a valid version, its level disjoint, if and only if no output meets the flushed table |
| EngineSafety.InstallKeepsInv | ios/Pods/leveldb-library/db/db_impl.cc:860-876 | installing compaction results on a version that flushes changed meanwhile keeps the invariant: no read at or after the smallest snapshot changes |
| EngineSafety.MoveKeepsInv | ios/Pods/leveldb-library/db/db_impl.cc:719-739 | a trivial move keeps the invariant |
| EngineSafety.RecoverKeepsInv | ios/Pods/leveldb-library/db/db_impl.cc:280-369 | recovery keeps the invariant unless it goes on with a torn log; afterwards the history is what was flushed and what can be replayed of the logs, each write at its old place, with holes where an older log lost its end |
| EngineSafety.ReadsAreRight | ios/Pods/leveldb-library/db/db_impl.cc:1113-1128 | in a state with the invariant, what memtables and tables store determines the right answer |
| Version.FindFile | ios/Pods/leveldb-library/db/version_set.cc:88-106 | binary search splits the files of a level exactly: those that end before the key, and the rest |
| Version.LevelGet | ios/Pods/leveldb-library/db/version_set.cc:365-381 | one file of a sorted level is enough: the answer is the newest visible entry of the whole level |
| Version.Level0Get | ios/Pods/leveldb-library/db/version_set.cc:346-364 | looking through the overlapping level-0 files newest first, all that have the key in their range up to the first that knows it, gives the newest visible entry of level 0 |
| Version.Get | ios/Pods/leveldb-library/db/version_set.cc:326-421 | stopping at the first level that knows the key gives the newest visible entry of all levels; if more than one file was read, the first of them is charged with the seek, and it is never one of the last level, so that it can be compacted |
| Lsm.FlushKeepsValid | ios/Pods/leveldb-library/db/version_set.cc:695-739 | adding a flushed table, in level 0 or below where nothing overlaps, keeps levels sorted, disjoint and newest-first |
| Lsm.ReplaceKeepsValid | ios/Pods/leveldb-library/db/version_set.cc:695-739 | replacing the inputs of a compaction by tables made of their entries keeps levels sorted, disjoint and newest-first |
| Lsm.ReplacedIsValidIff | ios/Pods/leveldb-library/db/version_set.cc:695-739 | for any inputs taken from a valid version and outputs made of them, the new version is valid, and its output level disjoint, if and only if no file the level keeps meets an output |
| Lsm.ReplacedEntries | ios/Pods/leveldb-library/db/db_impl.cc:860-876 | afterwards exactly the entries that did not go into an output are gone |
| FlushLevel.SomeFileOverlapsRange | ios/Pods/leveldb-library/db/version_set.cc:122-151 | true exactly if some file meets the range, by binary search in a sorted level |
| FlushLevel.PickLevelForMemTableOutput | ios/Pods/leveldb-library/db/version_set.cc:491-516 | the chosen level and all above it are clear of the range, and the search stopped for one of the three reasons the source gives |
| CompactionInputs.GetOverlappingInputs | ios/Pods/leveldb-library/db/version_set.cc:519-559 | terminates; in level 0 the result is exactly the files overlapping the least range that contains the request and is closed under its own files |
| CompactionInputs.FindSmallestBoundaryFile | ios/Pods/leveldb-library/db/version_set.cc:1344-1363 | finds the least file after the key with the same user key, or there is none |
| CompactionInputs.AddBoundaryInputs | ios/Pods/leveldb-library/db/version_set.cc:1378-1401 | extends the inputs file by file until no later file of the level starts with the user key at which an input ends |
| CompactionInputs.SetupOtherInputs | ios/Pods/leveldb-library/db/version_set.cc:1403-1462 | the inputs have all that was chosen, and nothing but its boundary files and what these reach in the next level; or, exactly if that stays within the limit and reaches no more files there, all the level has in the range of both, completed in the same way. Whatever the branch, they are closed: everything left behind in the level is newer than what is taken, and every next-level file overlapping them is taken; and if the choice has no gaps, neither do all inputs together |
| CompactionInputs.ClosureHasNoGaps | ios/Pods/leveldb-library/db/version_set.cc:519-559 | the level-0 files of the least closed range around files without gaps leave no gaps either: every key between two of them is in the range of one |
| CompactionInputs.ExpandedHaveNoGaps | ios/Pods/leveldb-library/db/version_set.cc:1419-1447 | growing the inputs of the level to all that the inputs of both levels span, and taking the next level again, leaves no gaps |
| CompactionRun.PickCompaction | ios/Pods/leveldb-library/db/version_set.cc:1270-1322 | of a level with too much data the file next to the compact pointer, going around at the end, else the file charged with seeks, else nothing: above level 0 that file alone, in level 0 all files of the least closed range around it; the choice can be completed by SetupOtherInputs and leaves no gaps |
| CompactionRun.CompactRange | ios/Pods/leveldb-library/db/version_set.cc:1464-1507 | the files of a manual range: in level 0 those of the least closed range around it, above it the files that overlap it, as few of the first as reach the size limit or all; they can be completed by SetupOtherInputs, and nothing chosen means nothing overlaps |
| CompactionRun.InputsMerge | ios/Pods/leveldb-library/db/version_set.cc:1237-1268 | the iterators a compaction reads have pairwise distinct keys and merge to exactly the inputs' entries |
| CompactionWork.Compaction.IsBaseLevelForKey | ios/Pods/leveldb-library/db/version_set.cc:1533-1552 | the cursors that only move forward give the exact answer, as long as keys ascend: no deeper file contains the key |
| CompactionWork.DoCompactionWork | ios/Pods/leveldb-library/db/db_impl.cc:878-1013 | the loop keeps exactly the entries that are neither hidden by a newer one at or before the smallest snapshot nor base-level deletions, in order, however outputs are cut |
| CompactionRun.RunCompaction | ios/Pods/leveldb-library/db/db_impl.cc:878-1013 | a compaction from its inputs on: the outputs are non-empty and hold the inputs less the dropped entries |
| CompactionRun.OutputsAreMade | ios/Pods/leveldb-library/db/db_impl.cc:860-876 | the output files are sorted, disjoint and within the inputs' range |
| DropRule.DroppingRetains | ios/Pods/leveldb-library/db/db_impl.cc:929-962 | dropping loses nothing a reader at or after the smallest snapshot needs, given that the compaction takes everything older of its keys |
| DropRule.DroppedIffUseless | ios/Pods/leveldb-library/db/db_impl.cc:929-962 | an input is dropped if and only if no read at or after the smallest snapshot can come to it among the inputs, or it is a deletion all of them see and no file of a deeper level spans its key |
| DropRule.AnswersKeptIffNothingUncovered | ios/Pods/leveldb-library/db/db_impl.cc:929-962 | all reads at or after the smallest snapshot stay the same if and only if no dropped deletion uncovers an older entry outside the inputs |
| Boundary.AnswersKeptIffBoundaryIsSafe | ios/Pods/leveldb-library/db/version_set.cc:1407-1412 | for any compaction the source sets up: right after it all reads at or after the smallest snapshot are as before if and only if it drops no deletion whose older value lies in a boundary file of the next level, one that starts with the user key at which the inputs from there end |
| Jobs.JobTakesOlder | ios/Pods/leveldb-library/db/version_set.cc:1403-1462 | with closed inputs and the next-level premise, a compaction takes everything older of its keys, also after later flushes |
| Premises.DeletedKeyComesBack | ios/Pods/leveldb-library/db/version_set.cc:1407-1412 | a run from a fresh database with two compactions from level 1 into overlapping files of level 2, the first of which cuts its output between a deletion and the older value of its key: the second takes only the file with the deletion along and drops it, and what is stored then answers the old value, while the history has the key deleted |
| Premises.FlushIntoPendingOutput | ios/Pods/leveldb-library/db/db_impl.cc:908-918 | a run from a fresh database in which a manual compaction of two level-1 files, each with an older file below, is under way when a memtable is flushed between them: after the install level 2 overlaps itself, and the search of every level misses a key that the history has |
| DbImpl.DBImpl.constructor | ios/Pods/leveldb-library/db/db_impl.cc:182-212 | a new database is in the initial state of the state machine |
| DbImpl.DBImpl.Reopen | ios/Pods/leveldb-library/db/db_impl.cc:1474-1512 | opening after a crash, from the manifest and what is left of the logs: the database is reached by a recovery step and is valid if and only if it does not go on with a torn log; LastSequence and the next file number exceed everything in use because the manifest says so |
| DbImpl.CrashAndReopen | ios/Pods/leveldb-library/db/db_impl.cc:280-369 | a valid database that dies at any moment, each log cut down to any records that include the synced ones, opens again with every durable write where it was, and is valid again if and only if it does not write on a torn log, as it never does without reuse_logs |
| LogFiles.CrashAndReopenFiles | ios/Pods/leveldb-library/db/db_impl.cc:371-440 | the same from the bytes of the log files, each cut at any byte behind its synced records: read back record by record and batch by batch they are what a crash leaves, and the database opens again with every durable write where it was, valid if and only if it does not go on with a log that is torn by the exact condition on its bytes |
| LogFiles.CutFilesAreRead | ios/Pods/leveldb-library/db/db_impl.cc:371-440 | log files that hold the engine's records as write batches, cut at any byte behind the synced ones, read back as whole records that include those, and nothing is reported |
| LogFiles.WholeLogGoesOn | ios/Pods/leveldb-library/db/db_impl.cc:457-480 | a cut log that is not torn reads back with every write batch appended to it |
| LogFiles.ReadLogFile | ios/Pods/leveldb-library/db/db_impl.cc:415-440 | the loop over a log's records gives the entries of each batch, as the file's bytes define them |
| LogFiles.CutLogSays | ios/Pods/leveldb-library/db/db_impl.cc:415-440 | a log of write batches cut at any byte and replayed onto the writes before it: every key reads as the last Put or Delete of it in the whole records says, by the bytes of the batches |
| DbImpl.DBImpl.ManifestSuffices | ios/Pods/leveldb-library/db/version_set.cc:801-884 | at every moment, also between logging a group and its becoming visible, the manifest describes the version, the log number and counters that bound every file number placed and every flushed sequence number |
| DbImpl.DBImpl.Get | ios/Pods/leveldb-library/db/db_impl.cc:1100-1145 | returns what the history reads at the snapshot, also while a leader is inserting its group; without a snapshot that is what the last operation about the key says, of all that completed writers have written (captured and searched at once; `DbImpl.SearchCaptured` is the search later on) |
| DbImpl.DBImpl.IsMapOfWrites | ios/Pods/leveldb-library/db/db_impl.cc:1100-1145 | a database that was opened empty is the map that the operations of its completed writers make, in the order in which they arrived |
| DbImpl.SearchCaptured | ios/Pods/leveldb-library/db/db_impl.cc:1115-1128 | the unlocked search of what Get captured gives the answer of the state it was captured in, however far the memtable has grown since and whatever has become of memtables and version |
| DbImpl.DBImpl.NewInternalIterator | ios/Pods/leveldb-library/db/db_impl.cc:1062-1089 | the merge of all memtables and tables shows, at every sequence number still answered, exactly what the history reads |
| DbImpl.DBImpl.NewIterator | ios/Pods/leveldb-library/db/db_impl.cc:1147-1157 | the rows the iterator can ever show are exactly the keys and values of the history at its sequence number |
| DbImpl.LaterIterationIsRight | ios/Pods/leveldb-library/db/db_impl.cc:1062-1089 | an iteration over captured memtables that go on growing shows at its sequence number exactly the rows of the state they were captured in |
| DbImpl.DBImpl.GetSnapshot | ios/Pods/leveldb-library/db/db_impl.cc:1166-1169 | a snapshot is a point between whole batches: a read there gives of every key what the last operation of the completed writers about it says, and nothing of the others |
| DbImpl.DBImpl.ReleaseSnapshot | ios/Pods/leveldb-library/db/db_impl.cc:1171-1174 | refines the release step |
| DbImpl.DBImpl.Join | ios/Pods/leveldb-library/db/db_impl.cc:1185-1197 | a writer goes to the end of the queue |
| DbImpl.DBImpl.DismissFront | ios/Pods/leveldb-library/db/db_impl.cc:1238-1252 | a writer without a batch leaves the queue having written nothing |
| DbImpl.DBImpl.BeginGroup | ios/Pods/leveldb-library/db/db_impl.cc:1201-1209 | the leader's group is the longest prefix of the queue that the size and sync rules allow, its operations numbered from LastSequence on |
| DbImpl.DBImpl.LogGroup | ios/Pods/leveldb-library/db/db_impl.cc:1217-1225 | the group becomes one log record before any of it is in the memtable |
| DbImpl.DBImpl.InsertNext | ios/Pods/leveldb-library/db/db_impl.cc:1226-1228 | one unlocked insertion; what it adds is newer than every read that can be going on, so that captured memtables only grow by entries they do not see |
| DbImpl.DBImpl.FinishGroup | ios/Pods/leveldb-library/db/db_impl.cc:1233-1252 | refines the write step: each batch applied once, in queue order, numbered without gaps; afterwards every read gives what the last operation about its key in the batches says, or what it gave before; no sync writer is done by a leader that did not sync |
| DbImpl.DBImpl.SwitchMemTable | ios/Pods/leveldb-library/db/db_impl.cc:1346-1366 | refines the switch step |
| DbImpl.DBImpl.CompactMemTable | ios/Pods/leveldb-library/db/db_impl.cc:535-566 | makes the flush step for any immutable memtable: table, manifest record and log number change together; the table goes to the level that PickLevelForMemTableOutput stands for; the database is valid again unless the table went between the inputs of the compaction under way, which it cannot if those have no gaps |
| DbImpl.DBImpl.PickInputs | ios/Pods/leveldb-library/db/db_impl.cc:697-711 | the inputs of an automatic compaction have the file next to the compact pointer, or the one charged with seeks, came about as SetupOtherInputs says, are closed in the current version and have no gaps; there are none exactly if nothing calls for a compaction |
| DbImpl.DBImpl.TrivialMove | ios/Pods/leveldb-library/db/db_impl.cc:719-739 | refines the move step |
| DbImpl.DBImpl.StartCompaction | ios/Pods/leveldb-library/db/db_impl.cc:878-899 | makes the start step for any closed inputs, with the smallest snapshot of that moment; the database is valid again unless the next level goes on with the user key at which its inputs end |
| DbImpl.DBImpl.OpenCompactionOutputFile | ios/Pods/leveldb-library/db/db_impl.cc:786-809 | refines the allocation step: a number no file has, kept pending |
| DbImpl.DBImpl.InstallCompactionResults | ios/Pods/leveldb-library/db/db_impl.cc:860-876 | refines the install step on whatever the current version has become |
| Batch.BuildBatchGroup | ios/Pods/leveldb-library/db/db_impl.cc:1260-1306 | takes the longest prefix of the queue the rules allow, within the size bound, with no sync writer behind a non-sync leader |
| DbRecover.RecoverLogFile | ios/Pods/leveldb-library/db/db_impl.cc:371-489 | replaying one log turns its records into level-0 tables, and perhaps a last memtable, that cover a further stretch of the history |
| DbRecover.ReplayLogs | ios/Pods/leveldb-library/db/db_impl.cc:330-364 | replaying the needed logs in ascending order covers everything from the flushed point on |
| DbRecover.Open | ios/Pods/leveldb-library/db/db_impl.cc:1474-1512 | after any crash, recovering the manifest and replaying what is left of the logs make the recovery step; the invariant is restored unless the log reopened is torn, and then restored but for that log; the counters it needs are ensured by `Manifest.VersionSet.Recover` |
| Merger.MergingIterator.FindSmallest | ios/Pods/leveldb-library/table/merger.cc:148-161 | the current child has the least key |
| Merger.MergingIterator.Seek | ios/Pods/leveldb-library/table/merger.cc:47-53 | lands on the first entry of the merge at or after the target |
| Merger.MergingIterator.Next | ios/Pods/leveldb-library/table/merger.cc:55-79 | moves one place forward in the merge, also right after moving backward |
| Merger.MergingIterator.Prev | ios/Pods/leveldb-library/table/merger.cc:81-108 | moves one place backward in the merge, also right after moving forward |
| Merger.MergingIterator.SeekToLast | ios/Pods/leveldb-library/table/merger.cc:39-45 | lands on the last entry of the merge |
| DbIter.ShowsIffRead | ios/Pods/leveldb-library/db/db_iter.cc:168-198 | what an iterator may show at a sequence number is exactly what the history reads there |
| DbIter.DBIter.Seek | ios/Pods/leveldb-library/db/db_iter.cc:269-281 | lands on the least visible key at or after the target |
| DbIter.DBIter.SeekToFirst | ios/Pods/leveldb-library/db/db_iter.cc:283-292 | lands on the least visible key, or there is none |
| DbIter.DBIter.SeekToLast | ios/Pods/leveldb-library/db/db_iter.cc:294-299 | lands on the greatest visible key, or there is none |
| DbIter.DBIter.Next | ios/Pods/leveldb-library/db/db_iter.cc:141-166 | moves to the next visible key, from either direction |
| DbIter.DBIter.Prev | ios/Pods/leveldb-library/db/db_iter.cc:200-225 | moves to the previous visible key, from either direction |
| TwoLevel.SeekLands | ios/Pods/leveldb-library/table/two_level_iterator.cc:82-87 | the index leads to the block where the first entry at or after the target is, or at whose end |
| TwoLevel.TwoLevelIterator.Seek | ios/Pods/leveldb-library/table/two_level_iterator.cc:82-87 | behaves as a cursor over all blocks' entries in one list |
| TwoLevel.TwoLevelIterator.SkipEmptyDataBlocksForward | ios/Pods/leveldb-library/table/two_level_iterator.cc:115-126 | from the end of a block on to the next entry, over any number of empty blocks |
| TwoLevel.TwoLevelIterator.SkipEmptyDataBlocksBackward | ios/Pods/leveldb-library/table/two_level_iterator.cc:128-139 | from the start of a block back to the entry before it, over any number of empty blocks |
| TwoLevel.TwoLevelIterator.Next | ios/Pods/leveldb-library/table/two_level_iterator.cc:103-107 | one place forward in the whole list |
| TwoLevel.TwoLevelIterator.Prev | ios/Pods/leveldb-library/table/two_level_iterator.cc:109-113 | one place backward in the whole list |
| Iteration.LevelIsIndexed | ios/Pods/leveldb-library/db/version_set.cc:223-228 | the largest keys of a level's files are an index for them, so that the concatenating iterator goes through all their entries |
| Iteration.AddIterators | ios/Pods/leveldb-library/db/version_set.cc:230-246 | one list for each level-0 file and one for each other level that has files |
| Iteration.StoredSplits | ios/Pods/leveldb-library/db/db_impl.cc:1062-1078 | memtables, level-0 files and levels share no entry and together hold everything stored |
| Iteration.IterationIsRight | ios/Pods/leveldb-library/db/db_impl.cc:1147-1157 | a sorted list of everything stored shows to a reader what the history reads |
| VersionBuilder.Builder.Apply | ios/Pods/leveldb-library/db/version_set.cc:650-692 | deletions and additions accumulate; adding a file undoes its deletion |
| VersionBuilder.Builder.SaveTo | ios/Pods/leveldb-library/db/version_set.cc:695-739 | the new version has, in file order, exactly the files that are live after all edits |
| VersionBuilder.FileOrderIsUnique | ios/Pods/leveldb-library/db/version_set.cc:599-612 | file order determines a level: two ways of building it that agree on the files agree |
| Manifest.ReplayIsStepwise | ios/Pods/leveldb-library/db/version_set.cc:886-1011 | one builder fed all edits gives the version that applying them one at a time gives |
| Manifest.VersionSet.LogAndApply | ios/Pods/leveldb-library/db/version_set.cc:801-884 | the new version is the old one with the edit applied, and the manifest replays to it; the record carries the next file number and the last sequence, and every number placed is below the recorded one |
| Manifest.VersionSet.WriteSnapshot | ios/Pods/leveldb-library/db/version_set.cc:1088-1116 | one record that lists exactly the current files |
| Manifest.VersionSet.Recover | ios/Pods/leveldb-library/db/version_set.cc:886-1011 | rebuilds version, log number, file number and sequence number from the records, or reports what is missing; all file numbers ever placed are below the next one |
| Manifest.VersionSet.MarkFileNumberUsed | ios/Pods/leveldb-library/db/version_set.cc:1044-1048 | no number at or below one found on disk is handed out again |
| EditCoding.VersionEdit.EncodeTo | ios/Pods/leveldb-library/db/version_edit.cc:41-85 | decoding the bytes gives the edit back, after the compaction pointers the decoding edit had before |
| EditCoding.VersionEdit.DecodeFrom | ios/Pods/leveldb-library/db/version_edit.cc:107-205 | succeeds exactly on lists of well-formed fields that use up the input, and collects them in order |
| EditCoding.DecodedOfEncoded | ios/Pods/leveldb-library/db/version_edit.cc:107-205 | any list of fields, repeated and in any order, reads back as what it adds up to |
| Formats.FieldsOfEdits | ios/Pods/leveldb-library/db/version_edit.cc:14-25 | the number each field starts with, and the order of what follows it |
| LiveFiles.VersionList.Ref | ios/Pods/leveldb-library/db/version_set.cc:474-474 | another holder of the current version |
| LiveFiles.VersionList.Unref | ios/Pods/leveldb-library/db/version_set.cc:476-483 | the last holder's going takes the version out of the list and gives back its file references; all counts stay exact |
| LiveFiles.VersionList.Build | ios/Pods/leveldb-library/db/version_set.cc:619-692 | the builder holds its base version and the files it adds until it is done; all of it is given back, and the references of the new version stay |
| LiveFiles.VersionList.LogAndApply | ios/Pods/leveldb-library/db/version_set.cc:801-884 | with readers coming and going in between: the new version's files, and exact counts for files and versions |
| LiveFiles.Directory.AddLiveFiles | ios/Pods/leveldb-library/db/version_set.cc:1167-1177 | the numbers of the files of all versions still held, not only the current one |
| LiveFiles.Directory.DeleteObsoleteFiles | ios/Pods/leveldb-library/db/db_impl.cc:223-278 | deletes exactly the tables that no held version and no pending output needs |
| LiveFiles.Directory.CompactMemTable | ios/Pods/leveldb-library/db/db_impl.cc:491-566 | a flush deletes no table of a held version and no pending output, although its own number stops being pending before it is in a version |
| LiveFiles.Directory.TrivialMove | ios/Pods/leveldb-library/db/db_impl.cc:719-739 | a second file object of the same number takes the place one level down, with readers in between, and counts stay exact; as nothing is deleted, the table stays on disk |
| LiveFiles.Directory.BackgroundCompaction | ios/Pods/leveldb-library/db/db_impl.cc:741-752 | a compaction with nested flushes: its outputs survive them and end in the current version, and nothing unneeded stays |
| Log.Writer.AddRecord | ios/Pods/leveldb-library/db/log_writer.cc:34-80 | appends exactly the fragments, trailers and headers of the format, for records of any length, also on a reopened log |
| LogReader.Reader.ReadPhysicalRecord | ios/Pods/leveldb-library/db/log_reader.cc:189-271 | the buffered reader reads fragment by fragment as the format says, and reports what it drops |
| LogReader.Reader.ReadRecord | ios/Pods/leveldb-library/db/log_reader.cc:56-174 | assembles fragments to records as the format says |
| LogIntegrity.PartIsFragment | ios/Pods/leveldb-library/db/log_reader.cc:189-271 | in any file, however damaged: a fragment that is read lies there with its right checksum, length, type and data, within one block |
| LogIntegrity.ReadRecordsLieThere | ios/Pods/leveldb-library/db/log_reader.cc:56-174 | in any file, however damaged: every record that is read lies there as one full fragment, or as a first, middle ones and a last with nothing in between, each record behind the one before |
| LogRoundTrip.CutLogReadsBack | ios/Pods/leveldb-library/db/log_reader.cc:56-174 | from any byte prefix of a log exactly the records that lie wholly in it are read, in order, without a corruption report |
| LogRoundTrip.WholeRecordsExist | ios/Pods/leveldb-library/db/log_reader.cc:56-174 | every prefix contains a definite number of whole records |
| LogRoundTrip.LogReadsBack | ios/Pods/leveldb-library/db/log_writer.cc:34-80 | a log reads back as what was written |
| LogRoundTrip.ReopenedLogReadsBack | ios/Pods/leveldb-library/db/log_writer.cc:27-30 | so does one that was closed and reopened at its length |
| LogRoundTrip.TornLogReadsBack | ios/Pods/leveldb-library/db/log_reader.cc:56-174 | a log cut inside a record, with anything at all appended that ends before the torn fragment would have: exactly the whole records before the cut are read, and nothing is reported |
| LogRoundTrip.TornLogHidesAppended | ios/Pods/leveldb-library/db/log_writer.cc:27-30 | so for any log cut behind the header of a fragment, a record appended on reopening that ends before the torn fragment would have is silently not read |
| LogRoundTrip.CutInTrailerIsHarmless | ios/Pods/leveldb-library/db/log_writer.cc:27-30 | a cut inside the zero trailer before a record is harmless: the appended record reads back after the whole ones |
| LogReuse.ReusedLogReadsBackIff | ios/Pods/leveldb-library/db/log_writer.cc:27-30 | for any log cut at any byte: every record appended on reopening is read back, behind those that are whole and with nothing reported, if and only if the cut is at the end of a record, in its zero trailer, or in a header so close to the end of its block that it passes for padding |
| LogReuse.AppendedRecordIsLost | ios/Pods/leveldb-library/db/log_writer.cc:27-30 | a record of twenty bytes cut at byte 8: an empty record appended there is lost, and nothing is reported |
| LogReuse.HeaderAtBlockEndIsHarmless | ios/Pods/leveldb-library/db/log_reader.cc:189-271 | a header that takes the last seven bytes of a block, cut anywhere inside: every record appended reads back, since the reader takes the torn header for padding or for an empty first fragment |
| Crc32c.Crc.Extend | ios/Pods/leveldb-library/util/crc32c.cc:276-377 | the strided computation equals the bit-by-bit one for all data, lengths and alignments, given tables with their meaning |
| Crc32c.ExtendComposes | ios/Pods/leveldb-library/util/crc32c.h:16-16 | extending by a and then by b is extending by their concatenation |
| Crc32c.StridesTakeSwath | ios/Pods/leveldb-library/util/crc32c.cc:293-330 | sixteen bytes taken by four registers at once are the sixteen bytes taken in order |
| Crc32c.UnmaskUndoesMask | ios/Pods/leveldb-library/util/crc32c.h:29-38 | unmasking gives the checksum back |
| Formats.CheckValue | ios/Pods/leveldb-library/util/crc32c.cc:276-377 | the digits 1 to 9 have the check value of CRC-32C |
| BatchCoding.WriteBatch.Put | ios/Pods/leveldb-library/db/write_batch.cc:98-103 | the bytes of a batch with one more operation and the count one higher |
| BatchCoding.WriteBatch.Append | ios/Pods/leveldb-library/db/write_batch.cc:144-148 | the bytes of the two lists of operations together |
| BatchCoding.WriteBatch.Iterate | ios/Pods/leveldb-library/db/write_batch.cc:42-80 | a batch hands out exactly its operations in order; other bytes hand out those before the first malformed one and are reported |
| BatchCoding.OpsReadBack | ios/Pods/leveldb-library/db/write_batch.cc:42-80 | the operations' bytes read back as the operations |
| BatchCoding.CutOpsReadBack | ios/Pods/leveldb-library/db/write_batch.cc:42-80 | of operations cut off at any byte those that are whole are handed out, and all is well exactly if the cut is between two of them |
| Formats.BatchOfTwo | ios/Pods/leveldb-library/db/write_batch.cc:5-14 | the bytes of a batch of a Put and a Delete of short strings |
| Coding.GetUndoesPut | ios/Pods/leveldb-library/util/coding.cc:112-128 | a varint anywhere in a buffer reads back, and ends where it ends |
| Coding.GetVarintEnds | ios/Pods/leveldb-library/util/coding.cc:112-128 | a varint is there exactly if a byte below 128 comes within the bytes allowed, and ends with the first of them |
| Coding.GetVarint32Ptr | ios/Pods/leveldb-library/util/coding.cc:112-128 | five bytes at most; what does not fit 32 bits is cut off |
| Coding.GetVarint64Ptr | ios/Pods/leveldb-library/util/coding.cc:142-158 | ten bytes at most; what does not fit 64 bits is cut off |
| Formats.VarintBytes | ios/Pods/leveldb-library/util/coding.cc:47-73 | seven bits a byte, the low ones first, the high bit on all but the last byte |
| Formats.FixedBytes | ios/Pods/leveldb-library/util/coding.cc:9-18 | four bytes, the low one first |
| Block.BlockBuilder.Add | ios/Pods/leveldb-library/table/block_builder.cc:72-106 | the bytes are again a block of all pairs added; every restart interval a key is stored whole and its place recorded, every other key without the longest prefix it shares with the one before |
| Block.SharedLength | ios/Pods/leveldb-library/table/block_builder.cc:77-84 | the longest common prefix |
| Block.DecodeEntry | ios/Pods/leveldb-library/table/block.cc:54-74 | the fast and the slow path read the three lengths of a stored pair |
| BlockIter.Iter.ParseNextKey | ios/Pods/leveldb-library/table/block.cc:224-251 | from one pair's end to the next pair: key rebuilt, restart index right |
| BlockIter.Iter.Next | ios/Pods/leveldb-library/table/block.cc:137-140 | one pair forward |
| BlockIter.Iter.Prev | ios/Pods/leveldb-library/table/block.cc:142-161 | one pair backward, over restart points too |
| BlockIter.Iter.SeekToLast | ios/Pods/leveldb-library/table/block.cc:208-213 | the last pair |
| BlockIter.Iter.LastRestartBefore | ios/Pods/leveldb-library/table/block.cc:164-190 | the last restart point whose key is before the target, or the first one |
| BlockIter.Iter.Seek | ios/Pods/leveldb-library/table/block.cc:163-201 | the first pair whose key is at or after the target |
| Comparator.FindShortestSeparator | ios/Pods/leveldb-library/util/comparator.cc:29-50 | at or after start and before limit, no longer than start, and shorter exactly when the source's condition allows |
| Comparator.FindShortSuccessor | ios/Pods/leveldb-library/util/comparator.cc:52-63 | at or after the key and no longer; unchanged exactly for keys of 0xff bytes only |
| Comparator.FindShortestInternalSeparator | ios/Pods/leveldb-library/db/dbformat.cc:69-86 | separates internal keys: after start, its user key before limit's |
| Comparator.FindShortInternalSuccessor | ios/Pods/leveldb-library/db/dbformat.cc:88-101 | at or after the internal key |
| Comparator.OrderIsInternalKeyOrder | ios/Pods/leveldb-library/db/dbformat.cc:51-67 | the byte-level order of internal keys is that of the rank model |
| Bloom.BloomFilterPolicy.CreateFilter | ios/Pods/leveldb-library/util/bloom.cc:28-54 | every key of the filter matches, and no bit is set that no key asks for |
| Formats.ProbesOfHash | ios/Pods/leveldb-library/util/bloom.cc:41-53 | an example of the probes of a hash value, which no program that shares the files may compute differently |
| Bloom.BloomFilterPolicy.KeyMayMatch | ios/Pods/leveldb-library/util/bloom.cc:56-80 | true exactly if all probed bits are set, or the filter is of an unknown kind |
| FilterBlock.FilterBlockBuilder.StartBlock | ios/Pods/leveldb-library/table/filter_block.cc:21-27 | filters for all blocks up to this one: pending keys go to the first, the others are empty |
| FilterBlock.FilterBlockBuilder.Finish | ios/Pods/leveldb-library/table/filter_block.cc:35-49 | the filters cover exactly the keys added for each stretch of offsets |
| FilterBlock.CoveredKeysMatch | ios/Pods/leveldb-library/table/filter_block.cc:90-104 | a key added for a block is never denied for its offset |
| Table.TableBuilder.Add | ios/Pods/leveldb-library/table/table_builder.cc:94-123 | the items written so far, with the pending index entry made once the next key is known |
| Table.TableBuilder.AddIndexEntry | ios/Pods/leveldb-library/table/table_builder.cc:102-109 | the index key is at or after the whole block and before what follows |
| Table.TableBuilder.Finish | ios/Pods/leveldb-library/table/table_builder.cc:198-253 | a table of exactly the items added, with separating index keys and covering filters |
| Table.InternalGet | ios/Pods/leveldb-library/table/table.cc:216-244 | returns nothing but the first item at or after the key, and returns it whenever it is of the same user key, despite index shortening and filters |
| SkipList.SkipList.SearchStep | ios/Pods/leveldb-library/db/skiplist.h:265-281 | one step of a search keeps it sound whatever is inserted between steps |
| SkipList.SkipList.SearchGoesOn | ios/Pods/leveldb-library/db/skiplist.h:265-281 | a search suspended at a node can go on after any insertions |
| SkipList.SkipList.NeverPast | ios/Pods/leveldb-library/db/skiplist.h:261-282 | a finished search never stands past a key at or after the target that is in the list |
| SkipList.SkipList.FindGreaterOrEqual | ios/Pods/leveldb-library/db/skiplist.h:261-282 | the first node at or after the key, and on every level the last one before it |
| SkipList.SkipList.FindLessThan | ios/Pods/leveldb-library/db/skiplist.h:285-302 | the last node before the key |
| SkipList.SkipList.FindLast | ios/Pods/leveldb-library/db/skiplist.h:305-322 | the last node |
| SkipList.SkipList.Publish | ios/Pods/leveldb-library/db/skiplist.h:361-367 | after each single link store every level is a sorted part of the level below |
| SkipList.SkipList.Insert | ios/Pods/leveldb-library/db/skiplist.h:337-368 | adds the key and nothing else; nodes never leave their lists |
| SkipList.SkipList.Contains | ios/Pods/leveldb-library/db/skiplist.h:371-378 | true exactly if the key is in the set |
| HandleTable.HandleTable.Insert | ios/Pods/leveldb-library/util/cache.cc:78-92 | the map with the handle added or replaced, growing when it must |
| HandleTable.HandleTable.Remove | ios/Pods/leveldb-library/util/cache.cc:94-102 | the map without the name, and what it had |
| HandleTable.HandleTable.Lookup | ios/Pods/leveldb-library/util/cache.cc:74-76 | what the map has |
| HandleTable.HandleTable.Resize | ios/Pods/leveldb-library/util/cache.cc:122-146 | rehashing keeps the map, whatever the order in the chains |
| Cache.LRUCache.constructor | ios/Pods/leveldb-library/util/cache.cc:197-203 | an empty cache |
| Cache.LRUCache.Insert | ios/Pods/leveldb-library/util/cache.cc:266-303 | the new entry, with the value and charge given, replaces one of its name; then just as many of the least recently used go as it takes, or all that are not in use: each was last released before every one that stays |
| Cache.EvictsTheOldest | ios/Pods/leveldb-library/util/cache.cc:293-300 | a prefix of the list in order of use goes, the shortest that brings the usage within the capacity |
| Cache.LRUCache.Lookup | ios/Pods/leveldb-library/util/cache.cc:252-259 | the entry of the name, with the value and charge last inserted under it, which cannot be evicted until it is released |
| Cache.LRUCache.Release | ios/Pods/leveldb-library/util/cache.cc:261-264 | the deleter runs when and only when the last reference goes; an entry that only the cache refers to any more goes to the recently used end, and the others keep their order; no entry's name, value or charge changes |
| Cache.LRUCache.FinishErase | ios/Pods/leveldb-library/util/cache.cc:307-316 | out of its list and the usage; gone if nobody else refers to it |
| Cache.LRUCache.Erase | ios/Pods/leveldb-library/util/cache.cc:318-321 | the name is no longer in the cache; clients keep their handles |
| Cache.LRUCache.Prune | ios/Pods/leveldb-library/util/cache.cc:323-335 | exactly the entries not in use go |
| Cache.RefKeepsCore | ios/Pods/leveldb-library/util/cache.cc:217-223 | lists, counts, usage and deleter calls stay consistent when a reference is taken |
| Cache.UnrefKeepsCore | ios/Pods/leveldb-library/util/cache.cc:225-238 | and when one is given back |
| Cache.UncacheKeepsCore | ios/Pods/leveldb-library/util/cache.cc:307-316 | and when the cache gives an entry up |
| PbEncode.OStream.Write | ios/Pods/nanopb/pb_encode.c:103-124 | writes what it is given if there is room and counts it, on a sizing stream only counts it; nothing before the stream's place or past its end changes |
| PbEncode.OStream.EncodeVarint | ios/Pods/nanopb/pb_encode.c:608-628 | the base-128 bytes of the number, for every number |
| PbEncode.OStream.EncodeContent | ios/Pods/nanopb/pb_encode.c:769-911 | every field encoder writes the content's bytes by the standard; a byte array too large for its field is the only error besides a full stream |
| PbEncode.OStream.EncodeSubmessage | ios/Pods/nanopb/pb_encode.c:717-765 | counting and then writing in a substream of that size succeeds exactly if the submessage can be encoded and fits the parent stream: the second pass emits as many bytes as the first has counted |
| PbEncode.OStream.EncodeArray | ios/Pods/nanopb/pb_encode.c:147-236 | packed with the length found by counting, or item by item with tags; too many items are an error |
| PbEncode.OStream.EncodeBasicField | ios/Pods/nanopb/pb_encode.c:341-426 | a field is written exactly if it is required, flagged, the union's member, or not zero |
| PbEncode.CheckDefault | ios/Pods/nanopb/pb_encode.c:240-337 | true exactly for what decoding starts from, through submessages of any depth |
| PbEncode.OStream.Encode | ios/Pods/nanopb/pb_encode.c:528-550 | on every stream: succeeds if and only if no array or byte array is over its size and there is room, and then has counted, or counted and written, exactly the message's bytes |
| PbWire.EncodedIsRecords | ios/Pods/nanopb/pb_encode.c:528-550 | the bytes of every message are records by the encoding specification, field by field: the right wire type in each key for the value that follows, arrays of numbers packed into one record, fields of proto3 there exactly if not zero, messages there exactly if they have records themselves |
| PbEncode.GetEncodedSize | ios/Pods/nanopb/pb_encode.c:567-576 | the exact number of bytes that encoding emits, or an error exactly if it would fail for every buffer |
| PbEncode.EncodeToBuffer | ios/Pods/nanopb/pb_encode.c:86-101 | a buffer holds exactly the message's bytes afterwards if they fit, else encoding fails |
| PbDecode.FieldIter.Next | ios/Pods/nanopb/pb_common.c:29-85 | one field on with the count of required fields kept, wrapping around at the end |
| PbDecode.FieldIter.Find | ios/Pods/nanopb/pb_common.c:87-104 | from wherever it stands, once around: the field of the tag if there is one |
| PbDecode.IStream.DecodeVarint32 | ios/Pods/nanopb/pb_decode.c:187-247 | bytes up to the first without a continuation bit, at an eight-bit position that goes around: those beyond the fifth may only extend the sign, as the source checks it; anything else is an overflow |
| PbNumbers.AnyVarint32IsRead | ios/Pods/nanopb/pb_decode.c:187-247 | every varint of a number below 2^32 reads as that number, the shortest as well as any padded with empty bytes, however long |
| PbNumbers.Varint32IsRead | ios/Pods/nanopb/pb_decode.c:187-247 | every number below 2^32 reads back |
| PbNumbers.LargeVarint32Fails | ios/Pods/nanopb/pb_decode.c:187-247 | the shortest varint of a number from 2^32 up to 2^63 is an overflow |
| PbNumbers.PaddedVarint32IsMisread | ios/Pods/nanopb/pb_decode.c:187-247 | a longer one need not be: of 37 empty bytes and one more the last is read at bit 3, because the position has gone around |
| PbNumbers.AnyNumberIsRead | ios/Pods/nanopb/pb_decode.c:1334-1428 | any 64-bit number in a field of any integer type: unsigned and folded ones out of range are errors, signed ones of less than 64 bits show what 32 bits hold of them and are errors if that is out of range, a bool is whether it is zero |
| PbNumbers.AnyBytesAreRead | ios/Pods/nanopb/pb_decode.c:1447-1523 | any bytes in a field of any kind of bytes: a string ends at its first NUL and needs room for one, bytes must fit, and those of a fixed length must have it or be none, which stands for zeros |
| PbDecode.IStream.SkipField | ios/Pods/nanopb/pb_decode.c:321-331 | skips an unknown field by its wire type, as `PbWire.ValueIsSkipped` says |
| PbWire.ValueIsSkipped | ios/Pods/nanopb/pb_decode.c:321-331 | a varint, eight bytes, a length with so many bytes, or four bytes, for the wire types 0, 1, 2 and 5: skipping passes over exactly the value, and fails only for a length of more than 32 bits |
| PbWire.UnknownIsPassedOver | ios/Pods/nanopb/pb_decode.c:963-995 | a record of a field that the descriptor does not have makes no difference to decoding, wherever it stands |
| PbDecode.IStream.CloseStringSubstream | ios/Pods/nanopb/pb_decode.c:387-401 | the stream goes on right behind the substream, wherever decoding stopped in it |
| PbDecode.IStream.DecodeContent | ios/Pods/nanopb/pb_decode.c:1334-1570 | every field decoder reads the content and ends where it ends, with the source's range and size checks |
| PbDecode.IStream.DecodeStaticField | ios/Pods/nanopb/pb_decode.c:406-483 | packed arrays whole, other arrays item by item within their size, singular fields over what is there, a union's new member from its defaults |
| PbDecode.IStream.DecodeNoinit | ios/Pods/nanopb/pb_decode.c:934-1082 | fields in any order and any number of times, unknown ones skipped, up to the end or a zero tag; fails if one of the first 64 required fields is missing |
| PbRoundTrip.PayloadReadsBack | ios/Pods/nanopb/pb_decode.c:1525-1547 | the bytes of a content of any type and depth, anywhere in a buffer, read back as that content, or fail if it is not readable |
| PbMerge.TaggedAreAdded | ios/Pods/nanopb/pb_decode.c:455-467 | items with a tag each, of any type, numbers that could be packed too, are added to those that are there, and fail if there is no room |
| PbMerge.FieldsAreMerged | ios/Pods/nanopb/pb_decode.c:934-1082 | for any reader's and any writer's descriptor that agree on the fields they share: the writer's bytes, followed by anything, are decoded into a structure as the two merged: the last one wins, items are added, submessages are merged, the members of a union displace each other, fields unknown to the reader are passed over; decoding goes on right behind them, or fails exactly if a string, bytes, an array or a submessage cannot be accepted |
| PbMerge.RequiredIffSeen | ios/Pods/nanopb/pb_decode.c:1040-1078 | the check at the end passes exactly if all required fields of the reader, up to the 64th, are among the writer's |
| PbRoundTrip.DecodeUndoesEncode | ios/Pods/nanopb/pb_decode.c:934-1096 | for every static descriptor and every message that can be encoded: decoding its bytes gives the message back, up to the contents of absent fields, if all strings written end with a NUL within their field and all lengths written are below 2^32, and fails otherwise |
| PbRoundTrip.DecodingMerges | ios/Pods/nanopb/pb_decode.c:934-1082 | decoding into any structure with any descriptor gives the message merged into it, or fails exactly if something cannot be accepted or a required field of the reader is none of the writer's |
| PbRoundTrip.SharedFieldsAreKept | ios/Pods/nanopb/pb_decode.c:963-995 | what a reader with other fields gets: the fields both describe alike are as the writer has them, those that only the reader has are initial |
| PbRoundTrip.ConcatenationMerges | ios/Pods/nanopb/pb_decode.c:934-1082 | two messages one after the other are decoded as the second merged into the first |
| PbRoundTrip.ZeroKeyEnds | ios/Pods/nanopb/pb_decode.c:310-314 | a zero in place of a key ends the message, whatever follows |
| PbTyped.DecodedIsMessage | ios/Pods/nanopb/pb_decode.c:934-1096 | whatever the bytes: if they are decoded, the result is a message of the descriptor, numbers in range, strings and arrays within their sizes, at most one member of each union present, which can be encoded |
| PbRoundTrip.NormalEncodesTheSame | ios/Pods/nanopb/pb_encode.c:528-550 | a message with initial values for the contents of absent fields is a message of the same descriptor and has the same bytes |

## Left out

Premises, each stated in a contract:

- DbImpl.DBImpl.StartCompaction: keeps the engine's invariant only if no next-level file outside the inputs starts with the user key at which an input ends (`NextLevelClosed`); the source closes only the first set of inputs under boundary files. `Boundary.AnswersKeptIffBoundaryIsSafe` is the exact condition, `Premises.DeletedKeyComesBack` a run where it fails.
- DbImpl.DBImpl.CompactMemTable: keeps the engine's invariant only if a table that goes into the output level of the compaction under way lies outside the key span of its inputs (`FlushApart`); the source does not check this. It always holds for the compactions the source picks by itself (`EngineSafety.GaplessFlushIsStep`). `EngineSafety.NestedFlushIff` is the exact condition on the outputs, `Premises.FlushIntoPendingOutput` a run with a manual compaction where it fails.
- DbRecover.Open: restores the engine's invariant only if the log it reopens is not torn (`ReusesWhole`, part of `RecoverStep`); the source does not check this. `LogReuse.ReusedLogReadsBackIff` is the exact condition on the bytes, `Durability.SyncIsLostIffTorn` that on the engine, `Durability.SyncWriteIsLost` a run where it fails.
- DbImpl.DBImpl.Reopen: valid exactly under the premise of `DbRecover.Open`.
- EngineSafety.RunKeepsInv: is about runs in which these premises hold whenever a flush, a compaction start or a recovery happens.
- Durability.SyncedWritesAreDurable: is about such runs, too.
- DbImpl.CrashAndReopen: like `DbImpl.DBImpl.FinishGroup`, needs sequence numbers to stay within 2^56.
- DbImpl.DBImpl.FinishGroup: sequence numbers stay below 2^56, as the source assumes without checking.
- Crc32c.Crc.Extend: takes the meaning of the five constant tables as a precondition; the tables' 1280 numbers are not part of this model.
- LogFiles.CrashAndReopenFiles: takes it that the log files hold the engine's records as batches when the database dies (`OnDisk`); a log reopened in a padded header keeps the bytes of that header, for which this is not stated.
- BatchCoding.WriteBatch.Put: fewer than 2^32 operations and lengths below 2^32, where the source's counters would wrap.

Modelled differently from the source:

- User keys in the engine are real ranks instead of byte strings; `UserKeys.RankIsOrderEmbedding` justifies this, and the byte-level modules use byte strings.
- Linked lists of versions, cache entries, snapshots and hash chains are sequences; the skip list has real nodes.
- The unlocked stretches of reads, group inserts and compactions are separate methods or lists of steps that others take in between; the weak memory model is not.
- File numbers, sizes and offsets are unbounded integers, except for varints, fixed-width fields and checksums.
- Log and manifest records are lists of entries and edits in the engine; `LogFiles` joins the bytes of the log files to them, and that the bytes of edits read back is proved in `EditCoding`.
- Block handles, the footer, the restart array and the filter offset array are values instead of their fixed-width bytes.
- Decisions the source takes from file sizes, ShouldStopBefore, MakeRoomForWrite's thresholds and compaction scores among them, are arbitrary functions or left to the caller.
- Sorting by std::sort is an insertion sort with the same result.
- Block.DecodeEntry: states what is read from a well-formed entry and that other results stay in bounds; 32-bit overflow of lengths in corrupt blocks is not modelled.
- EditCoding.VersionEdit.DecodeFrom: says nothing of the edit's fields after a corruption report.
- LiveFiles.VersionList.Build: the order of files within a level is left to VersionBuilder.
- PbEncode.OStream.Encode: a structure is a list of the parts its fields describe, given up to the NUL, the size or the count it has in memory; offsets and padding are left out, and sizes are unbounded.
- PbDecode.IStream.DecodeNoinit: works on such a list instead of memory, remembers required fields in a set instead of two words of bits, and for the end mark of an empty descriptor, which a field numbered 0 finds, does not show the bool it stores.
- PbRoundTrip.DecodeUndoesEncode: is about messages of less than 2^63 bytes.
- PbMerge.FieldsAreMerged: a tag that reader and writer share has the same type and cardinality for both, except that a submessage may have other fields; the writer's fields come in the order of its descriptor.
- Manifest.VersionSet.WriteSnapshot: leaves out the comparator name and the compaction pointers of the snapshot record; `EditCoding` has both fields.
- Manifest.VersionSet.LogAndApply: a new manifest is always written at open; reusing the old one, to which `LogReuse.ReusedLogReadsBackIff` would apply, is not modelled.
- DbImpl.DBImpl.NewInternalIterator: merges the memtables as they are when it is called; that they may grow meanwhile without being seen is `DbImpl.LaterIterationIsRight`.
- DbImpl.DBImpl.NewIterator: the same.
- DbRecover.RecoverLogFile: a record of an empty batch has no entries and so says nothing of sequence numbers, where the source takes it that those before its own are used.
- CompactionRun.PickCompaction: which level is too large, and when a file has been charged with too many seeks, is left to the caller.

Not modelled:

- nanopb's callbacks, extensions, pointer fields and fixed-count arrays; BoringSSL, the Flutter runners and the C bindings.
- I/O errors, checksum mismatch and paranoid checks, repair, reading a log from an initial offset, Snappy.
- The block and table caches' use of the cache, sharding by hash bits, and the cache's destructor.
- Deleting log and manifest files, how many seeks a file may be charged with, read sampling, write delays, GetProperty and ApproximateOffsetOf.
- The skip list's random heights (any height will do), the arena, and the encoding of memtable entries.
