# LevelDB and nanopb: a model and its proofs

Two of the libraries an iOS client is built on keep its data: LevelDB stores it and nanopb puts it on
the wire. This project models both and proves what they promise.

**LevelDB** is a multi-version store. A write batch gets consecutive sequence numbers, goes to a log,
then into a memtable. A full memtable is flushed to a sorted table; tables are arranged in seven levels
and merged by compactions, which drop what no reader can see any more. A manifest of version edits says
which tables there are. A reader at a sequence number must find, for each key, the newest write up to
that number.

- `History` says what a set of entries means to a reader (`Read`). Everything else is measured by it.
- `Version`, `Picking`, `Compaction`, `CompactionSafety`, `LostTombstones`, `Layers`: reading a version,
  choosing the inputs of a compaction, merging them, and exactly when a compaction changes what is read.
- `Manifest`, `Recovery`, `Store`: version edits, replay of logs, and the store as a class whose
  invariant ties memory, tables, logs and manifest to the history of all writes.
- `Log`, `WriteBatch`, `EditCoding`, `Slices`, `Coding`, `DiskBytes`: the bytes of logs, batches and edits,
  and what a crash in the middle of them leaves.
- `LoggedStore`, `StoreRuns`: the store over the bytes of its log, and the end-to-end guarantee for whole
  runs: any operations, a crash, and opening again.
- `Collection`: which table files may be deleted while flushes, compactions and readers are at work.
- `WriteQueue`: the writers' queue as a state machine with group commit.
- `Iterators`, `TwoLevel`, `InternalIterators`, `DBIter`: cursors over tables, levels and the whole store.
- `SkipList`, `MemTable`, `Block`, `Bloom`, `FilterBlock`, `Table`, `TableFiles`, `TableBytes`, `Bytewise`: the
  memtable and the table file, down to bytes, and that they answer as the sequences that the store works with.
- `HandleTable`, `LruCache`, `CacheRuns`: the block cache.

**nanopb** encodes and decodes protocol buffer messages by field descriptors, into structures of fixed size.
`Protobuf` has descriptors and values, `PbMemory` the memory of a message struct and what setting it to
defaults does, `PbEncode` the encoder, `PbDecode` what the decoder makes of that memory, `PbDecoder` the
decoder's own loops and streams. `PbRoundTrip` and `PbBounds` have the two main results: a message comes back
as it was, into any memory, and what is accepted is within its bounds, with the one exception stated below.
They rest on `PbPlatform` (a little-endian machine is a platform), `PbShapes` (what decoding writes is within
bounds), `PbClearing` (clearing the first bytes of memory twice is clearing them once) and `PbTwins` (two
decodings of the same bytes go on in step).

A user key is represented by its rank in the comparator's order, a real number, in the modules about
versions; `Bytewise.Rank` gives that rank for byte strings and `Bytewise.RankIsOrderEmbedding` shows that
nothing is lost. `MergingIterator`, `VersionSet`, `DB`, `SkipList`, `LruCache`, streams and builders are
classes, as in the source; loops are loops. Predicates such as `Valid`, `Ok` and `Inv` are the invariants.

## Findings

Three properties that one would expect do not hold of the code. Each has its input and its exact condition.

- **A compaction can bring deleted data back.** `SetupOtherInputs` (`db/version_set.cc:1403-1462`) adds
  boundary files at the upper level only. When the lower inputs end in the middle of a user key, a deletion
  can be dropped as obsolete while an older value stays behind in the next file.
  `CompactionSafety.TombstoneLossExample` is an input. `LostTombstones.CompactionKeepsReadsIff` has the
  condition, for all inputs: reads are kept exactly when no droppable deletion among the inputs belongs to the
  user key with which the file right after the lower inputs begins, with a value there as its newest visible
  entry.
- **A fixed-count array that is not on the wire keeps old memory.** A fixed-count array has no count, so the
  zero that `pb_field_set_to_default` stores as its count (`pb_decode.c:870`) goes into the first bytes of its
  items; the rest stays as it was, and the check at the end of `pb_decode_noinit` only looks at the last such
  field read. The decoder then accepts a message whose strings need not be ended: `PbBounds.LeftAloneExample`
  is an input, in which the first string is ended and the second is not. `PbBounds.DecodedInBounds` has the
  condition, for all descriptors: what is on the wire decides which items were never decoded, and the message
  is within bounds if and only if those items were, as setting to defaults left them. For flat messages
  `PbBounds.FlatInBounds` says it of the memory before the call: of each fixed-count array that is not on the
  wire, the items beyond the cleared bytes were within bounds. `PbBounds.ClearedInBounds` has the remedy:
  into memory that was cleared every accepted message is within bounds.
- **A crash can lose writes from the middle.** At the switch to a new memtable the old log is closed without
  a sync (`db/db_impl.cc:1346-1366`). If the end of the old log is lost and part of the new one is not, what
  comes back is no earlier state of the store. `StoreRuns.OlderLogCutExample` is a run in which a synced write
  comes back without the one before it. `LoggedStore.CutAndReopen` and `DiskBytes.BothLogsCut` have the
  condition: nothing is lost of the older log or nothing is left of the current one.

Where code and comment disagree, the model follows the code: `pb_decode.c:942-943` says that the search
handles empty messages, but on a descriptor without fields `pb_field_iter_find` finds the terminator for
tag 0, whose value is then read as a varint whatever its wire type is (`PbDecoder.FieldIter.Find`, first
`ensures`; `PbDecode.PastUnknown`).

## Model
| member | source | states |
|---|---|---|
| Version.Get | ios/Pods/leveldb-library/db/version_set.cc:326-421 | The level-by-level search of a version gives what the flat set of its entries owes the reader, for every user key and sequence number |
| Version.FindFile | ios/Pods/leveldb-library/db/version_set.cc:88-106 | Binary search finds the first file whose largest key is at or after the key |
| Version.SearchTable | ios/Pods/leveldb-library/db/version_set.cc:263-276 | Searching one file finds nothing exactly when nothing is visible there, and otherwise the newest visible entry |
| Picking.SomeFileOverlapsRange | ios/Pods/leveldb-library/db/version_set.cc:122-160 | True exactly when some file of the level overlaps the range, open ends included |
| Picking.GetOverlappingInputs | ios/Pods/leveldb-library/db/version_set.cc:519-559 | The files of the least range that contains the query and, at level 0, cuts through no file |
| Picking.PickLevelForMemTableOutput | ios/Pods/leveldb-library/db/version_set.cc:491-516 | The level goes down past every level where nothing overlaps and not too much lies below, and stops at the first other one |
| Picking.AddBoundaryInputs | ios/Pods/leveldb-library/db/version_set.cc:1378-1401 | Adds exactly the chain of nearest files that continue the last user key, until there is none |
| Picking.SetupOtherInputs | ios/Pods/leveldb-library/db/version_set.cc:1403-1462 | The inputs include those chosen, are closed at the upper level under overlap or boundary, and the lower ones are all that overlap their range |
| Picking.PickCompaction | ios/Pods/leveldb-library/db/version_set.cc:1270-1320 | The inputs for a chosen file include it and are a proper selection |
| Picking.CompactRange | ios/Pods/leveldb-library/db/version_set.cc:1464-1495 | No inputs exactly when nothing is in the range; otherwise all of it at level 0, and deeper its leading files up to the size limit |
| Compaction.Compaction.IsBaseLevelForKey | ios/Pods/leveldb-library/db/version_set.cc:1533-1552 | The forward-only cursors find exactly whether a deeper level has a file around the key |
| Compaction.Compaction.ShouldStopBefore | ios/Pods/leveldb-library/db/version_set.cc:1554-1576 | Ends an output exactly when the grandparent files passed since the last end add up to more than the limit |
| Compaction.DoCompactionWork | ios/Pods/leveldb-library/db/db_impl.cc:878-1048 | The merge loop writes, over all its output tables, exactly the entries that neither drop rule takes, in order |
| CompactionSafety.ReadChangesIffTombstoneLost | ios/Pods/leveldb-library/db/db_impl.cc:906-999 | A reader at or after the smallest snapshot finds something else after a compaction if and only if a deletion is lost that hid older data |
| CompactionSafety.CompactionKeepsReads | ios/Pods/leveldb-library/db/db_impl.cc:906-999 | When the lower inputs are closed under boundary files as well, no reader notices a compaction |
| LostTombstones.CompactionKeepsReadsIff | ios/Pods/leveldb-library/db/version_set.cc:1403-1462 | For all selections: every reader at or after the snapshot finds what it found, if and only if the file after the lower inputs does not split a user key from a deletion |
| LostTombstones.LossIffSplit | ios/Pods/leveldb-library/db/version_set.cc:1403-1462 | A given deletion is lost for a given reader exactly when the file after the lower inputs begins with its user key and a value the reader sees first |
| CompactionSafety.TombstoneLossExample | ios/Pods/leveldb-library/db/version_set.cc:1403-1462 | A valid version and a selected compaction after which a deleted key reads as its old value |
| CompactionSafety.CompactionKeepsInvariants | ios/Pods/leveldb-library/db/db_impl.cc:860-876 | Replacing the inputs by the outputs keeps every version invariant: order, disjointness, age of levels |
| Manifest.Builder.Apply | ios/Pods/leveldb-library/db/version_set.cc:650-692 | Each level has the files it had or got, less those deleted |
| Manifest.Builder.SaveTo | ios/Pods/leveldb-library/db/version_set.cc:695-738 | The saved version lists exactly the live files of every level, sorted by smallest key |
| Manifest.VersionSet.LogAndApply | ios/Pods/leveldb-library/db/version_set.cc:801-884 | On success the version has the edit applied, and the manifest describes it and its counters; on failure nothing changes |
| Manifest.Recover | ios/Pods/leveldb-library/db/version_set.cc:886-1011 | Succeeds exactly when the three counters are recorded, and gives the files of replaying every edit |
| Manifest.Reopen | ios/Pods/leveldb-library/db/version_set.cc:886-1011 | Recovering from the manifest of a running version set gives its current version and log numbers |
| Recovery.RecoverLogFile | ios/Pods/leveldb-library/db/db_impl.cc:371-489 | One log becomes tables that hold exactly its entries, in sequence order, with the highest number found |
| Recovery.RecoverLogs | ios/Pods/leveldb-library/db/db_impl.cc:320-369 | All logs from the recorded number on become tables that hold exactly their entries, under new numbers |
| Recovery.ReplayKeepsInvariants | ios/Pods/leveldb-library/db/db_impl.cc:320-369 | Adding the replayed tables at level 0 keeps the version valid and adds exactly their entries |
| Layers.ReadLayered | ios/Pods/leveldb-library/db/db_impl.cc:1100-1145 | A reader needs an older layer only where the newer one has nothing visible |
| Layers.MemGet | ios/Pods/leveldb-library/db/memtable.cc:100-134 | The first entry at or after the seek key decides: nothing visible, or the value or deletion the reader is owed |
| Layers.FlushKeepsInvariants | ios/Pods/leveldb-library/db/db_impl.cc:491-533 | A newer table put at a level that fits it keeps every version invariant |
| Store.DB.Open | ios/Pods/leveldb-library/db/db_impl.cc:1474-1515 | Opening what a crash left gives a valid store with everything that was on disk, under a new empty log |
| Store.DB.Get | ios/Pods/leveldb-library/db/db_impl.cc:1100-1145 | Memtable, immutable memtable and version together answer as the store's entries, and as the history of all writes while no deletion was lost |
| Store.DB.NewIterator | ios/Pods/leveldb-library/db/db_impl.cc:1147-1157 | The cursor ranges over exactly what readers at its sequence number find |
| Store.DB.Write | ios/Pods/leveldb-library/db/db_impl.cc:1202-1234 | A group is numbered from the last sequence number on, logged, applied and added to the history; all invariants stay |
| Store.DB.SwitchMemtable | ios/Pods/leveldb-library/db/db_impl.cc:1346-1366 | The memtable becomes immutable under a new log and no reader notices |
| Store.DB.CompactMemTable | ios/Pods/leveldb-library/db/db_impl.cc:535-566 | The flush moves the immutable memtable into the version at the picked level, keeps all data and reads, and moves the log number; if the manifest cannot be written nothing changes |
| Store.DB.Compact | ios/Pods/leveldb-library/db/db_impl.cc:688-767 | The version has the outputs in place of the inputs, and the store still reads as its history unless the compaction splits a user key |
| Store.DB.BackgroundCompaction | ios/Pods/leveldb-library/db/db_impl.cc:688-767 | Any picked compaction keeps the invariants; a loss comes with the version and the inputs that caused it |
| Store.DB.DeleteObsoleteLogs | ios/Pods/leveldb-library/db/db_impl.cc:223-277 | Only logs below the recorded log number go, and nothing that recovery needs |
| Store.DB.CrashLosesNothing | ios/Pods/leveldb-library/db/db_impl.cc:280-369 | Between any two operations the disk is recoverable, to exactly the entries of the store |
| Store.DB.CrashAfterLogging | ios/Pods/leveldb-library/db/db_impl.cc:1213-1230 | A crash after the log record and before the memtable brings the whole batch back |
| Store.CrashAndReopen | ios/Pods/leveldb-library/db/db_impl.cc:1474-1515 | Crashing and opening gives a store with the same entries |
| Store.CompactedReads | ios/Pods/leveldb-library/db/db_impl.cc:906-999 | Installing the outputs keeps all reads from the oldest snapshot on if and only if the compaction was a move or loses no deletion |
| Store.NewStoreIsRecoverable | ios/Pods/leveldb-library/db/db_impl.cc:182-212 | The manifest of a new database recovers to the empty store |
| DiskBytes.InternalKeyRoundTrip | ios/Pods/leveldb-library/db/dbformat.cc:20-23 | The bytes of an internal key give back user key, sequence number and type |
| DiskBytes.CutLogReadsBack | ios/Pods/leveldb-library/db/db_impl.cc:412-446 | A log of batches cut after any number of bytes replays as its complete batches: none in part, none left out |
| DiskBytes.CrashAtAnyByte | ios/Pods/leveldb-library/db/db_impl.cc:280-369 | With any number of bytes left of the current log the disk is recoverable, to the store as it was at some write, and every reader finds what it found then |
| DiskBytes.CrashLosesOnlyTheEnd | ios/Pods/leveldb-library/db/db_impl.cc:280-369 | The same of a running store; with all bytes there nothing is lost |
| DiskBytes.WriteIsAtomic | ios/Pods/leveldb-library/db/db_impl.cc:1213-1230 | A crash anywhere in the bytes of a batch brings it back whole or not at all |
| DiskBytes.CrashInLogAndApply | ios/Pods/leveldb-library/db/version_set.cc:849-866 | Until all bytes of the edit are there the manifest reads as before, and the store before the edit comes back |
| DiskBytes.BothLogsCut | ios/Pods/leveldb-library/db/db_impl.cc:1346-1366 | With the ends of two logs lost, what comes back is the store at some write if and only if nothing is lost of the older or nothing left of the newer |
| DiskBytes.CrashLosesBothEnds | ios/Pods/leveldb-library/db/db_impl.cc:1346-1366 | A running store with an immutable memtable, cut at any byte of both its logs: recoverable, with exactly the batches that are complete, and as at some write if and only if there is no gap |
| LoggedStore.LoggedStore.Write | ios/Pods/leveldb-library/db/db_impl.cc:1202-1234 | A batch is numbered in its bytes, appended to the log file, synced if asked, and applied as those bytes read; file, log, history and invariants agree afterwards |
| LoggedStore.LoggedStore.SyncedWritesSurvive | ios/Pods/leveldb-library/db/db_impl.cc:1213-1230 | A crash that leaves of both logs the bytes that were synced keeps everything in tables and in those bytes; and every write up to the last synced one if the older log is whole |
| LoggedStore.LoggedStore.SwitchMemtable | ios/Pods/leveldb-library/db/db_impl.cc:1346-1366 | The older log is closed with what was synced of it, and all invariants and data stay |
| LoggedStore.CutAndReopen | ios/Pods/leveldb-library/db/db_impl.cc:1474-1515 | The reopened store has the tables and the complete batches left in both logs; it is the store as of some write if and only if nothing of the older log is lost or nothing of the current one is left, and then reads as the history up to that write unless a compaction has lost a deletion |
| StoreRuns.Run | ios/Pods/leveldb-library/db/db_impl.cc:1185-1256 | Any run of writes, switches, flushes, compactions, collections and snapshots keeps the invariants, and its history is its writes in order |
| StoreRuns.RunAndGet | ios/Pods/leveldb-library/db/db_impl.cc:1100-1145 | After any run from an empty store, a lookup gives what the run's writes say, unless one of its compactions split a user key of those writes from a deletion |
| StoreRuns.RunAndCrash | ios/Pods/leveldb-library/db/db_impl.cc:1474-1515 | After any run, a crash that cuts both logs, and opening: everything synced is there; without a gap between the logs every key reads as after the first p writes of the run, and with a whole older log p covers all synced writes; unless a compaction of the run split a key |
| StoreRuns.OlderLogCutExample | ios/Pods/leveldb-library/db/db_impl.cc:1346-1366 | From an empty store: a write, a switch of memtables, a synced write, a crash. The second write comes back without the first, which the store never was |
| Collection.RunKeeps | ios/Pods/leveldb-library/db/db_impl.cc:223-277 | In every interleaving of flush, compaction, readers and collections, every file in use has its table and `pending_outputs_` is exactly what is unfinished |
| Collection.HeldTablesAreThere | ios/Pods/leveldb-library/db/version_set.cc:1167-1177 | A reader never misses a table of a version it holds |
| Collection.RecoveryFindsTables | ios/Pods/leveldb-library/db/db_impl.cc:323-347 | Whatever version the manifest may describe at a crash, none of its tables is missing |
| Collection.CollectionIsComplete | ios/Pods/leveldb-library/db/db_impl.cc:223-277 | With nothing going on, a collection leaves the tables of the current version and no others |
| WriteQueue.BuildBatchGroup | ios/Pods/leveldb-library/db/db_impl.cc:1260-1306 | The group is the longest run of requests that the size and sync rules allow, and its updates are theirs in order |
| WriteQueue.RunKeeps | ios/Pods/leveldb-library/db/db_impl.cc:1185-1256 | Every interleaving of writers keeps the queue invariant |
| WriteQueue.OneWriterAtATime | ios/Pods/leveldb-library/db/db_impl.cc:1185-1256 | Only the writer at the front of the queue ever works on log and memtable |
| WriteQueue.ReaderSeesAcknowledged | ios/Pods/leveldb-library/db/db_impl.cc:1185-1256 | At every moment a reader sees exactly the writes applied up to the published sequence number, whole groups only |
| WriteQueue.SuccessMeansWritten | ios/Pods/leveldb-library/db/db_impl.cc:1185-1256 | A request that returned success is in the log, synced if it asked, and in the memtable, numbered after every request before it |
| Log.Writer.AddRecord | ios/Pods/leveldb-library/db/log_writer.cc:34-108 | The file grows by exactly the fragments of the record from its place in the block on |
| Log.AppendRecords | ios/Pods/leveldb-library/db/log_writer.cc:23-32 | A writer opened on an existing file goes on as if it had written all of it |
| Log.Reader.ReadRecord | ios/Pods/leveldb-library/db/log_reader.cc:56-174 | The reading loop gives the record, position and corruption reports of the reading function, for any bytes; types 5 and 6 on disk are taken for the end of the file and a bad record |
| Log.ReadTruncated | ios/Pods/leveldb-library/db/log_reader.cc:56-271 | Any prefix of a log file reads as the records that are complete in it, with nothing reported corrupt |
| Log.ReadWhole | ios/Pods/leveldb-library/db/log_reader.cc:56-271 | A log reads as the records that were written |
| WriteBatch.RoundTrip | ios/Pods/leveldb-library/db/write_batch.cc:42-80 | A batch's bytes give back its updates and its sequence number |
| WriteBatch.NumbersGoOn | ios/Pods/leveldb-library/db/write_batch.cc:144-148 | Replaying a group of batches as one numbers each where the one before ends |
| WriteBatch.InsertInto | ios/Pods/leveldb-library/db/write_batch.cc:42-137 | For any bytes the loop hands over the updates up to the first malformed one and reports exactly whether all was well formed |
| EditCoding.RoundTrip | ios/Pods/leveldb-library/db/version_edit.cc:41-205 | An edit decodes from its encoding as itself |
| EditCoding.ManifestReadsBack | ios/Pods/leveldb-library/db/version_set.cc:1088-1116 | A manifest cut anywhere gives back its first edits, those that are complete |
| EditCoding.DecodeFrom | ios/Pods/leveldb-library/db/version_edit.cc:107-205 | The decoding loop accepts exactly the well-formed items and gives their edit |
| Iterators.MergingIterator.Seek | ios/Pods/leveldb-library/table/merger.cc:47-53 | Stands at the first entry of the merged list at or after the target |
| Iterators.MergingIterator.Next | ios/Pods/leveldb-library/table/merger.cc:55-79 | One forward in the merged list, also after a change of direction |
| Iterators.MergingIterator.Prev | ios/Pods/leveldb-library/table/merger.cc:81-108 | One back in the merged list, also after a change of direction |
| TwoLevel.TwoLevelIterator.Seek | ios/Pods/leveldb-library/table/two_level_iterator.cc:82-87 | Over index and blocks, empty ones included, stands at the first entry at or after the target |
| TwoLevel.TwoLevelIterator.Prev | ios/Pods/leveldb-library/table/two_level_iterator.cc:109-113 | One back across blocks |
| InternalIterators.MergeInputs | ios/Pods/leveldb-library/db/version_set.cc:1237-1268 | The input of a compaction is the sorted merge of its files |
| InternalIterators.NewInternalIterator | ios/Pods/leveldb-library/db/db_impl.cc:1062-1087 | The merged list holds exactly the entries of both memtables and the version |
| DBIter.DBIter.Seek | ios/Pods/leveldb-library/db/db_iter.cc:269-281 | Stands at the least key at or after the target that the reader finds, with its value |
| DBIter.DBIter.Next | ios/Pods/leveldb-library/db/db_iter.cc:141-198 | Goes to the least key found after the current one, over hidden and deleted entries |
| DBIter.DBIter.Prev | ios/Pods/leveldb-library/db/db_iter.cc:200-267 | Goes to the greatest key found before the current one, after a change of direction too |
| DBIter.DBIter.SeekToLast | ios/Pods/leveldb-library/db/db_iter.cc:294-301 | Stands at the greatest key the reader finds |
| DBIter.LiveIsView | ios/Pods/leveldb-library/db/db_iter.cc:168-198 | What the cursor counts as an entry is what a reader finds there |
| DBIter.ViewIsLive | ios/Pods/leveldb-library/db/db_iter.cc:168-198 | And whatever a reader finds, the cursor counts |
| SkipList.SkipList.Insert | ios/Pods/leveldb-library/db/skiplist.h:337-368 | The list gets exactly the entry; every single store on the way leaves a valid list that only grows |
| SkipList.SkipList.FindGreaterOrEqual | ios/Pods/leveldb-library/db/skiplist.h:262-282 | The earliest node at or after the key, and on every level the latest node before it |
| SkipList.SkipList.FindLast | ios/Pods/leveldb-library/db/skiplist.h:305-323 | The last node, or the head of an empty list |
| SkipList.SearchGoesOn | ios/Pods/leveldb-library/db/skiplist.h:262-323 | A search among the stores of a writer never meets a link that is not set |
| SkipList.SearchEndsRight | ios/Pods/leveldb-library/db/skiplist.h:262-323 | However a writer interferes, a search ends at the right nodes for the list at its last load, which has all that was there at the start |
| MemTable.MemTable.Get | ios/Pods/leveldb-library/db/memtable.cc:100-134 | The seek in the skip list finds what the reader is owed by the memtable's entries |
| MemTable.AgreesWithStore | ios/Pods/leveldb-library/db/memtable.cc:73-134 | Skip list and sorted sequence answer every lookup alike, and list the same entries |
| Bytewise.RankIsOrderEmbedding | ios/Pods/leveldb-library/util/comparator.cc:25-27 | The bytewise order of strings is the order of their ranks, and ranks identify strings |
| Bytewise.FindShortestSeparator | ios/Pods/leveldb-library/util/comparator.cc:29-50 | Shortens exactly when a byte fits between the first that differ, to a key between the two |
| Bytewise.FindShortSuccessor | ios/Pods/leveldb-library/util/comparator.cc:52-64 | Raises the first byte below 255 and cuts the rest; leaves a run of 255s alone |
| Table.FindShortestSeparator | ios/Pods/leveldb-library/db/dbformat.cc:69-86 | The separator of internal keys is not before the start and before the limit, and shortened whenever its user key gets shorter |
| Block.BlockBuilder.Add | ios/Pods/leveldb-library/table/block_builder.cc:72-106 | The block holds one more entry |
| Block.BlockHasLayout | ios/Pods/leveldb-library/table/block_builder.cc:62-70 | The finished bytes have the entries, prefix-compressed, and the restart points where the reader looks |
| Block.Iter.Seek | ios/Pods/leveldb-library/table/block.cc:163-201 | Binary search over restarts and the scan end at the first entry at or after the target |
| Block.Iter.Next | ios/Pods/leveldb-library/table/block.cc:137-140 | One forward, rebuilding the key from its shared prefix |
| Block.Iter.Prev | ios/Pods/leveldb-library/table/block.cc:142-161 | One back, by scanning from the restart before |
| Bloom.NoFalseNegative | ios/Pods/leveldb-library/util/bloom.cc:28-80 | A key that was put into a filter is never denied |
| FilterBlock.NoKeyMissed | ios/Pods/leveldb-library/table/filter_block.cc:77-104 | A key added for a block at some offset is never ruled out there by the bytes of the filter block |
| Table.BuildTable | ios/Pods/leveldb-library/db/builder.cc:17-77 | The index and blocks hold exactly the entries in order, with separating keys and filters that cover every block |
| Table.InternalGet | ios/Pods/leveldb-library/table/table.cc:216-244 | Index, filter and block together find the first entry at or after the key whenever it has the sought user key |
| Table.AnswerIsNewest | ios/Pods/leveldb-library/db/table_cache.cc:100-112 | Looking up the seek key finds the newest visible entry of the user key whenever there is one |
| TableFiles.TableGet | ios/Pods/leveldb-library/db/table_cache.cc:100-112 | A lookup through index, filter and block is an answer for the table's entries |
| TableFiles.BuildAndSearch | ios/Pods/leveldb-library/db/builder.cc:17-77 | A table built from a file's entries, with Bloom filters or without, and its filter block opened, answers as the version's search of that file |
| FilterBlock.BloomIsSound | ios/Pods/leveldb-library/util/bloom.cc:28-80 | The Bloom policy never rules out a key that a filter was made of |
| TableBytes.InternalIsOrder | ios/Pods/leveldb-library/db/dbformat.cc:49-67 | Encoded internal keys are totally ordered, by user key and then by decreasing tag |
| TableBytes.RawBlockIsRead | ios/Pods/leveldb-library/table/format.cc:64-139 | A block written with its type and checksum is read back by its handle, verified or not |
| TableBytes.FooterIsRead | ios/Pods/leveldb-library/table/format.cc:31-62 | The footer gives back the handles of metaindex and index |
| TableBytes.BuildFile | ios/Pods/leveldb-library/table/table_builder.cc:94-253 | The file has data blocks, filter, metaindex, index and footer, each where its handle says, and exists exactly if all offsets fit |
| TableBytes.Open | ios/Pods/leveldb-library/table/table.cc:38-134 | Opening the file gives its index block and, with a policy, the reader of its filters |
| TableBytes.InternalGet | ios/Pods/leveldb-library/table/table.cc:216-244 | A lookup through index block, handle, filter and one data block, all in bytes, is an answer for the table's entries |
| TableBytes.WriteOpenAndGet | ios/Pods/leveldb-library/db/table_cache.cc:41-112 | A table written to a file and opened, with filters or without, answers every lookup as the version's search of the file |
| Coding.VarintRoundTrip | ios/Pods/leveldb-library/util/coding.cc:47-169 | A varint reads back as its value, with the position after it |
| Coding.CrcRoundTrip | ios/Pods/leveldb-library/util/crc32c.h:29-38 | A masked checksum read back is the checksum |
| HandleTable.HandleTable.Insert | ios/Pods/leveldb-library/util/cache.cc:78-92 | The entry is in, in place of one with the same key and hash, which is returned; all chains stay right through a resize |
| HandleTable.HandleTable.Remove | ios/Pods/leveldb-library/util/cache.cc:94-102 | Takes out exactly the entry with the key and hash |
| LruCache.LruCache.Insert | ios/Pods/leveldb-library/util/cache.cc:266-303 | Lists, table, counts and charges after an insert are those of the cache's specification |
| LruCache.LruCache.Release | ios/Pods/leveldb-library/util/cache.cc:225-237 | Dropping a reference moves the entry to the end of the idle list or deletes it, and nothing else |
| LruCache.EvictionIsMinimal | ios/Pods/leveldb-library/util/cache.cc:293-301 | Eviction takes the oldest idle entries, and no more than it must |
| LruCache.InsertedKeeps | ios/Pods/leveldb-library/util/cache.cc:266-303 | After an insert the cache is within capacity or has nothing left to evict |
| CacheRuns.DeletersRunOnce | ios/Pods/leveldb-library/util/cache.cc:21-39 | Over any run every entry is deleted at most once, never while it is held, and stays in the cache or is deleted when it is not |
| CacheRuns.LookupFindsLatest | ios/Pods/leveldb-library/util/cache.cc:252-259 | A lookup finds nothing or the entry last inserted under the key and not erased since |
| CacheRuns.HeldIsFound | ios/Pods/leveldb-library/util/cache.cc:252-259 | An entry that is held and not replaced is always found |
| CacheRuns.IdleInOrder | ios/Pods/leveldb-library/util/cache.cc:217-250 | The idle list is in the order of last use |
| PbEncode.Encode | ios/Pods/nanopb/pb_encode.c:528-550 | The encoder writes exactly the bytes of the message, or fails exactly when they do not fit |
| PbEncode.EncodeSubmessage | ios/Pods/nanopb/pb_encode.c:717-765 | A submessage is written with its length, which the sizing pass and the writing pass agree on |
| PbEncode.EncodeArray | ios/Pods/nanopb/pb_encode.c:147-236 | A packed array is written with its length, computed or measured, any other item by item |
| PbEncode.CheckProto3Default | ios/Pods/nanopb/pb_encode.c:240-337 | A singular field is left out exactly when its value is the default, through submessages |
| PbEncode.GetEncodedSize | ios/Pods/nanopb/pb_encode.c:567-576 | The size is that of the message's bytes |
| PbEncode.EncodeToBuffer | ios/Pods/nanopb/pb_encode.c:74-124 | Encoding into a buffer succeeds exactly when it is large enough, and never writes past it |
| PbRoundTrip.RoundTrip | ios/Pods/nanopb/pb_decode.c:1078-1090 | A message that is encoded decodes to itself, whatever memory it is decoded into |
| PbRoundTrip.Reencoded | ios/Pods/nanopb/pb_decode.c:1078-1090 | What was decoded from any bytes can be encoded exactly if the items left alone are within bounds, and then decodes to itself |
| PbMemory.DefaultsShaped | ios/Pods/nanopb/pb_decode.c:839-926 | Setting to defaults, with the zero of a fixed-count array in its first bytes, leaves memory of the struct's shape |
| PbPlatform.LittleEndianIsOk | ios/Pods/nanopb/pb_decode.c:867-873 | On a little-endian machine the zero stored over the first bytes of a number does what is asked of a platform: the number stays in range, and clearing twice clears what either does |
| PbClearing.DefaultsSettled | ios/Pods/nanopb/pb_decode.c:839-926 | Setting to defaults once more changes no item of a fixed-count array |
| PbTwins.MessageRuns | ios/Pods/nanopb/pb_decode.c:928-1076 | From related states, what is met, whether decoding succeeds, and what is present afterwards do not depend on memory, and an item never decoded holds what it held at the start |
| PbBounds.DecodedInBounds | ios/Pods/nanopb/pb_decode.c:928-1076 | Whether bytes are accepted does not depend on memory; everything decoded is within bounds, and the whole message is if and only if the items of fixed-count arrays that were never decoded are, in nested messages too |
| PbBounds.LeftAlone | ios/Pods/nanopb/pb_decode.c:839-909 | A fixed-count array that is not on the wire is the memory before the call with its first bytes cleared; one that is on the wire has been decoded as a whole |
| PbBounds.DecodedIffOnWire | ios/Pods/nanopb/pb_decode.c:991-1031 | In a message at any depth a fixed-count array is decoded as a whole if its tag is met, and not touched otherwise |
| PbBounds.FlatInBounds | ios/Pods/nanopb/pb_decode.c:839-909 | For flat messages: within bounds exactly if, in every fixed-count array whose tag is absent, the items beyond the first `pb_size_t` bytes were so before the call |
| PbBounds.LeftAloneExample | ios/Pods/nanopb/pb_decode.c:839-909 | The empty input decodes to a message whose second string is not ended, while the first is |
| PbBounds.CleanInBounds | ios/Pods/nanopb/pb_decode.c:928-1076 | If all items of fixed-count arrays are within bounds once set to defaults, every accepted message is |
| PbBounds.ClearedInBounds | ios/Pods/nanopb/pb_decode.c:928-1076 | Into cleared memory every accepted message is within bounds, nested ones included |
| PbBounds.DecodedWithoutFixedCounts | ios/Pods/nanopb/pb_decode.c:928-1076 | Without fixed-count fields every accepted message is within bounds, whatever memory held |
| PbDecoder.IStream.DecodeVarint32 | ios/Pods/nanopb/pb_decode.c:187-253 | For any bytes, the value or failure of the 32-bit varint, with sign extension and overflow as checked and the bit position in eight bits |
| PbDecoder.IStream.DecodeVarint | ios/Pods/nanopb/pb_decode.c:255-276 | For any bytes, the value or failure of the 64-bit varint |
| PbDecoder.FieldIter.Find | ios/Pods/nanopb/pb_common.c:78-96 | From any position the circular search finds the field with the tag if there is one |
| PbDecoder.SkipField | ios/Pods/nanopb/pb_decode.c:321-334 | Skips exactly one field of each wire type, or fails |
| PbDecoder.DecodeField | ios/Pods/nanopb/pb_decode.c:406-483 | One field of any kind goes into its memory as specified, packed arrays and oneofs included, within the substream; the rest of the memory stays |
| PbDecoder.DecodeNoinit | ios/Pods/nanopb/pb_decode.c:928-1076 | The loop over tags gives the message or failure specified: unknown fields skipped, required fields and counts checked |
| PbDecoder.Decode | ios/Pods/nanopb/pb_decode.c:1078-1090 | The decoder with its streams, iterator and loops makes of the memory what is specified, for any bytes |

## Left out

- Layers.FlushKeepsInvariants: takes as a hypothesis that the level fits; `Picking.PickLevelForMemTableOutput` and `Store.DB.CompactMemTable` supply it.
- CompactionSafety.CompactionKeepsReads: needs the lower inputs to be closed under boundary files, which the source does not ensure; `LostTombstones.CompactionKeepsReadsIff` has the exact condition.
- Compaction.Compaction.ShouldStopBefore: sizes are unbounded numbers.
- Store.DB.Compact: runs without a flush in the middle; `Collection` has the two interleaved, for table files only.
- Store.DB.BackgroundCompaction: level and file are given; compaction scores and seek statistics, which choose them, are not modelled.
- Store.DB.DeleteObsoleteLogs: log files only; `Collection` has the table files, over the files of versions.
- DiskBytes.CutLogReadsBack: a crash leaves a prefix of what was written to a file, not other bytes.
- DiskBytes.CrashInLogAndApply: an edit in the manifest stands for the edit of the version set with the contents of its tables taken as given.
- SkipList.SearchEndsRight: loads and stores happen in one order that all threads see; memory barriers are not modelled, and the height of a node is a parameter.
- Table.BuildTable: an index entry holds its block; `TableBytes.BuildFile` has the blocks and handles in bytes, written from the finished index rather than one at a time. Compression is left out.
- TableBytes.Open: files are those of the builder; the branches for corrupt footers and blocks end without a table or an answer.
- Block.Iter.Seek: blocks are those of the builder; the branches for corrupt blocks are left out.
- Log.Reader.ReadRecord: reading starts at the beginning of the file; the checksum is a function about which nothing is assumed.
- EditCoding.RoundTrip: the deleted files are listed in any order.
- WriteQueue.BuildBatchGroup: byte sizes come from a function of the updates.
- HandleTable.HandleTable.Insert: the bucket is the hash modulo the length, a power of two, where the source masks bits.
- LruCache.LruCache.Insert: one shard; sharding, the destructor of the cache and the `total_charge` sum are left out.
- PbEncode.Encode: extensions, callbacks, pointer fields and delimited messages are left out, as are `pb_size_t` overflow and defaults other than zero.
- PbDecoder.DecodeNoinit: the bitmap of required fields is a set, and the memory of a message is a value that the decoder returns changed rather than writes in place.
- PbDecoder.IStream.DecodeVarint32: `uint_fast8_t` has eight bits.
- PbMemory.DefaultsShaped: sizes, offsets and byte order are parameters (`PbMemory.Platform`; `PbPlatform` has the little-endian one); flags, counts and tags lie either within the bytes that the zero of a fixed-count array clears or outside them, and the array is no shorter than that zero.
- Collection.RunKeeps: a machine of its own over sets of files; that the file sets of `Store.DB` follow one of its runs is not stated.
- StoreRuns.RunAndGet: a loss is bounded by what was written, and not tied to one of the versions that the run went through.
- I/O errors: an operation that cannot write its manifest installs nothing; other errors, paranoid checks and repair are left out.
- Entries with a corrupt key or an unknown type byte.
- `reuse_logs`, shutting down in the middle of a compaction, Snappy, `Env` and file names.
