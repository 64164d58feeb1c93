# Models of LevelDB and nanopb

The password manager's own code is user interface and calls into vendored libraries. Two of these do the
work that can go wrong quietly: LevelDB, the store, and nanopb, the Protocol Buffers codec. This project
models both in Dafny and proves what they are for: that a read is answered by the history of writes,
whatever is going on inside the store, and that a message survives its encoding.

## What is modelled

**The store as a machine.** `Database` has the state of `DBImpl` and `VersionSet` that matters for what
reads return and what survives a crash: memtables, log files, table files (finished or not), descriptor,
current version, snapshots, readers, the running compaction with its open output, the running flush,
`pending_outputs_`, `bg_error_`, and the window inside `LogAndApply` in which the lock is released. Its steps
are those between which other threads can come in: writing a group to the log, inserting one operation,
publishing the sequence number, switching memtables, starting, finishing and abandoning flushes and
compactions, opening and finishing outputs, staging, writing and installing a version, deleting obsolete
files, taking and releasing snapshots and readers, and a crash followed by recovery. `DatabaseSafety` and
`Durability` prove the invariant and the theorems about whole runs; `Recovery`, `CrashReplay` and `GroupCommit`
tie recovery to the bytes of log and descriptor, and the writers' queue (`WriteQueue`) to the machine.

**What reads mean.** `Views` defines the view of a set of entries at a snapshot, and the read of a history.
`VersionModel`, `Picking`, `CompactionWork`, `Install`, `Flush`, `PickSafety`, `StaleReads` and `Realizable` are about
versions: how they are searched, how compaction inputs are picked, what a compaction drops, and what
installing its outputs does to every snapshot.

**Iterators.** `DbIter` over `Merger` over `TwoLevel` and `Block`, joined in `Iterators`; `Cursors` is the interface.

**Bytes.** `Coding`, `Comparators`, `DbFormat`, `Log`, `WriteBatch`, `VersionEdits`, `ManifestReplay` (in
`Manifest.dfy`), `Block`, `Filter`, `Table`, `TableBuild`, `TableLookup`.

**Memory.** `SkipList` and `MemTable`, `Snapshots`, `HandleTable` and `LruCache`.

**nanopb.** `PbWire`, `PbModel`, `PbEncode`, `PbDecode`, `PbRoundTrip`: a specification of messages as bytes, the
stream encoder and decoder proved against it, and the round trip. The wire format is that of the Protocol
Buffers Encoding specification, sections "Base 128 Varints", "Signed Integers" and "Length-Delimited Records".

Code that changes fields is a class with methods (the iterators, log reader and writer, builders, compaction
state, streams, skip list, snapshot list, handle table, cache), proved against functions about which the
lemmas speak. Steps of several threads are a machine over values, since what matters there is their order.

`dafny verify dfyconfig.toml` checks the project.

## What the theorems assume

- The theorems "in every run" (`Durability`, `Iterators.RunIterates`, `GroupCommit`) are about runs in which every
  compaction starts with a safe boundary (`PickSafety.SafeBoundary`). `PickCompaction` does not check this; see
  the findings. A caller could check it before starting the compaction: it looks only at the version and the
  inputs. Nothing else about the choice is assumed that the code does not ensure (`Picking.PickCompaction`).
- Keys are compared bytewise. Where only their order matters a user key is its position, a real number that
  `DbFormat.Rank` assigns to every byte string, one to one and in order.
- Appends to a log file reach the disk in order. A crash may lose the group of writes that has not been
  acknowledged, cut at any byte (`CrashReplay.TornFileReplays`), and nothing that has been.
- Sequence numbers stay below 2^56 and the sizes of single keys, values and records below 2^32.

## Findings

- **A compaction may hand out stale values.** `PickCompaction` takes a single file above level 0, and outputs may
  be cut between two versions of one user key. `PickSafety.CompactionSafeIff` gives the exact condition under
  which a chosen compaction is harmless. It fails in two ways: `StaleReads.StraddleExample` moves the newer
  version of a key below the older one, and in `StaleReads.MarkerExample` a deletion marker is dropped although
  the value it hid was left behind in the next level. Both are inputs that the code can choose.
- **A string that fills its array cannot be read back.** nanopb encodes a string of as many characters as the array
  has room for, without a zero byte at the end, and refuses to decode it: `PbRoundTrip.StringReadable`.
- **A flushed table is unprotected for a moment.** `WriteLevel0Table` takes the number out of `pending_outputs_` before
  the version with the table exists (db_impl.cc:511, 553). It is not deleted only because the thread that flushes
  is the one that deletes: `Durability.BuiltUnprotected`.

## Model

| member | source | states |
|---|---|---|
| `Durability.RunServesReads` | password-manager/Pods/leveldb-library/db/db_impl.cc:1109-1154 | in every run, at every state, a read of any key at a live snapshot or at the last sequence number gives the last operation on the key in the acknowledged history up to there, whatever flushes, compactions, moves, failures and crashes came before |
| `Durability.RunServesReaders` | password-manager/Pods/leveldb-library/db/db_impl.cc:1123-1141 | a read that took its references and released the lock still gets the answer of its snapshot after any number of further steps by writers and the background thread |
| `Durability.SnapshotsRepeat` | password-manager/Pods/leveldb-library/db/db_impl.cc:1175-1183 | reading a key twice at the same live snapshot gives the same value in any two states of a run |
| `Durability.AcknowledgedGrows` | password-manager/Pods/leveldb-library/db/db_impl.cc:1194-1265 | no step of a run, crash and recovery included, takes back or reorders an acknowledged write |
| `Durability.StepSafe` | password-manager/Pods/leveldb-library/db/db_impl.cc:686-769 | every kind of step keeps the invariant that ties memtables, log files, tables, descriptor, readers, job, flush and commit to the history |
| `Durability.RunSafe` | password-manager/Pods/leveldb-library/db/db_impl.cc:1490-1532 | the invariant holds in every state reachable from a new database |
| `Durability.CrashSafe` | password-manager/Pods/leveldb-library/db/db_impl.cc:274-363 | whatever prefix of the newest log a crash leaves, opening the database again on the descriptor, the tables and the log files gives a state that holds all acknowledged writes in order, and the invariant with it |
| `Durability.RecoveryPossible` | password-manager/Pods/leveldb-library/db/db_impl.cc:274-363 | from every reachable state, with or without a lost tail, recovery has a way to complete: numbers, tables and a version for it exist |
| `Durability.CrashedTail` | password-manager/Pods/leveldb-library/db/db_impl.cc:318-363 | the log files from the log number of the descriptor on, replayed in order of their numbers, are exactly the part of the history that the tables of the descriptor do not hold |
| `Durability.RunKeepsTables` | password-manager/Pods/leveldb-library/db/db_impl.cc:218-272 | in every run, deletions happening at any time, no table is missing that the descriptor, the current version, an open reader, the inputs or finished outputs of the running compaction, its open output, or a flush on its way into a version needs |
| `Durability.RunMarks` | password-manager/Pods/leveldb-library/db/db_impl.cc:488-532 | in every run a number is in `pending_outputs_` exactly if a flush is building it or the compaction has it as its open or a finished output |
| `Durability.BuiltUnprotected` | password-manager/Pods/leveldb-library/db/db_impl.cc:524-565 | between building a flushed table and installing it, neither `pending_outputs_` nor the current version protects it; what keeps it is that no deletion can be under way then |
| `Durability.DeleteKeepsTables` | password-manager/Pods/leveldb-library/db/db_impl.cc:218-272 | a deletion that spares only marked numbers and the tables of referenced versions removes nothing that is still needed |
| `Database.Get` | password-manager/Pods/leveldb-library/db/db_impl.cc:1109-1154 | the three-tier lookup stops at the first tier that has anything for the key and returns what the reader abstractly sees |
| `DatabaseSafety.ReaderServed` | password-manager/Pods/leveldb-library/db/db_impl.cc:1109-1154 | memtable, immutable memtable and version, searched newest first, together answer as the history does |
| `DatabaseSafety.ChangeStands` | password-manager/Pods/leveldb-library/db/version_set.cc:820-903 | each change that the background thread may commit - flush, compaction, move - leaves a version that stands for the same or a longer stretch of the history |
| `GroupCommit.QueueStepLeads` | password-manager/Pods/leveldb-library/db/db_impl.cc:1194-1265 | every step of the queue of writers, writes going well, is a sequence of steps of the database (log, insert one by one, publish), and the two states stay linked |
| `GroupCommit.ReadsSeeReturnedWriters` | password-manager/Pods/leveldb-library/db/db_impl.cc:1194-1265 | in every joint run a read at the last sequence number or a live snapshot is answered from the operations of the writers that have returned, in the order in which they arrived |
| `Views.ViewIsRead` | password-manager/Pods/leveldb-library/db/write_batch.cc:111-134 | the newest entry of a key at or below a snapshot, taken over the entries that the writes number one by one, is the last operation found by walking the history backwards |
| `Views.ViewOfStack` | password-manager/Pods/leveldb-library/db/db_impl.cc:1125-1141 | when one collection holds only newer entries than another, the first that shows anything decides what their union shows |
| `DbFormat.CompareBytes` | password-manager/Pods/leveldb-library/util/comparator.cc:25-27 | the sign of the bytewise comparison is the order of the positions that `Rank` gives byte strings, zero only for equal strings |
| `DbFormat.RankInjective` | password-manager/Pods/leveldb-library/util/comparator.cc:25-27 | different byte strings have different positions, so nothing is lost by speaking of positions |
| `Comparators.EncodedOrder` | password-manager/Pods/leveldb-library/db/dbformat.cc:50-66 | internal keys in bytes are ordered as user key ascending, then sequence number and type descending |
| `Comparators.FindShortestSeparator` | password-manager/Pods/leveldb-library/db/dbformat.cc:68-85 | a separator is at or after the start key and before the limit, and one that was shortened separates the user keys strictly |
| `VersionModel.Get` | password-manager/Pods/leveldb-library/db/version_set.cc:332-429 | the newest-first scan of level 0 and one binary-searched file a level, stopped at the first hit, give the newest visible entry over all files of a layered version, also when a user key straddles two files |
| `VersionModel.FindFile` | password-manager/Pods/leveldb-library/db/version_set.cc:86-105 | binary search finds the first file whose largest key is not before the target |
| `VersionModel.LevelAnswer` | password-manager/Pods/leveldb-library/db/version_set.cc:86-105 | in a level of disjoint files, the one file that the binary search picks decides the answer of the whole level |
| `Picking.GetOverlappingInputs` | password-manager/Pods/leveldb-library/db/version_set.cc:531-572 | the restarts end, and the result is exactly the files touching the range - at level 0 the least range around the given one that no file crosses |
| `Picking.PickCompaction` | password-manager/Pods/leveldb-library/db/version_set.cc:1291-1343 | the chosen inputs are those of a well-chosen compaction: all overlapping files of the next level, no file of level 0 that overlaps left out, no key between their ends uncovered; a size compaction contains the file whose turn it is, and the pointer moves to the largest key taken |
| `Picking.SetupOtherInputs` | password-manager/Pods/leveldb-library/db/version_set.cc:1345-1411 | growing the inputs keeps them well chosen and gapless and happens only if it adds files of the level, none of the next level, and stays below the byte limit |
| `Picking.PickLevelForMemTableOutput` | password-manager/Pods/leveldb-library/db/version_set.cc:502-528 | a flushed table goes to the deepest level, up to two, above which nothing overlaps it, unless it would overlap too many bytes two levels down |
| `Picking.AvoidsHull` | password-manager/Pods/leveldb-library/db/version_set.cc:502-528 | a range that avoids every file of a gapless choice lies wholly to one side of it |
| `CompactionWork.Compaction.IsBaseLevelForKey` | password-manager/Pods/leveldb-library/db/version_set.cc:1484-1503 | asked for keys in increasing order, the cursors that only move forwards agree with a full scan of the deeper levels |
| `CompactionWork.Compaction.DoCompactionWork` | password-manager/Pods/leveldb-library/db/db_impl.cc:898-1008 | the loop writes exactly the entries that the two dropping rules keep, in order, wherever it cuts its outputs, and the outputs are valid and disjoint |
| `Install.LoopRewrites` | password-manager/Pods/leveldb-library/db/db_impl.cc:1010-1045 | what the loop leaves behind, however cut, is what the results about installation are about |
| `CompactionWork.FlattenSorted` | password-manager/Pods/leveldb-library/db/db_impl.cc:926-1004 | cutting a sorted run anywhere gives valid files that do not overlap |
| `Install.InstallView` | password-manager/Pods/leveldb-library/db/db_impl.cc:900-1008 | every snapshot from the smallest live one on reads every key the same before and after the outputs replace the inputs, although flushes may have changed the version in the meantime |
| `Install.DroppedIsExpendable` | password-manager/Pods/leveldb-library/db/db_impl.cc:937-972 | whatever a compaction drops is hidden from every snapshot that counts by a kept newer entry, or is a deletion marker with nothing left to hide |
| `Install.InstallSearchable` | password-manager/Pods/leveldb-library/db/db_impl.cc:866-885 | installing the outputs keeps levels sorted and disjoint and newer entries above older ones |
| `Flush.FlushSearchable` | password-manager/Pods/leveldb-library/db/db_impl.cc:488-532 | a flushed table joins the version at its level without disturbing the search order, and the contents grow by exactly its entries |
| `Flush.FlushKeepsReady` | password-manager/Pods/leveldb-library/db/db_impl.cc:918-927 | a memtable flushed in the middle of a compaction leaves the compaction installable |
| `Flush.FlushAvoidsInputs` | password-manager/Pods/leveldb-library/db/version_set.cc:502-528 | a flush that lands at or below the output level of a running compaction lies outside of the range of its inputs |
| `Flush.TrivialMove` | password-manager/Pods/leveldb-library/db/db_impl.cc:717-737 | moving a single file to the next level keeps the version searchable and its contents the same |
| `PickSafety.CompactionSafeIff` | password-manager/Pods/leveldb-library/db/version_set.cc:1305-1317 | a well-chosen compaction is harmless at all snapshots exactly if no user key straddles the boundary of its inputs in their level and no droppable marker of the inputs hides a value left behind in the next level |
| `PickSafety.StaleRead` | password-manager/Pods/leveldb-library/db/version_set.cc:1305-1317 | whenever a straddled key is moved down without its older versions, a reader who got the newest value before no longer gets it |
| `StaleReads.StraddleExample` | password-manager/Pods/leveldb-library/db/version_set.cc:1305-1317 | a concrete version and choice, possible for `PickCompaction`, after which the key `a` reads as its older value |
| `StaleReads.MarkerExample` | password-manager/Pods/leveldb-library/db/db_impl.cc:954-965 | for every two user keys one after the other, a version and a compaction without straddling after which a deleted value is read again |
| `Realizable.SortedRunExists` | password-manager/Pods/leveldb-library/db/version_set.cc:1258-1289 | any set of entries with distinct key and sequence number can be laid out as one sorted run, so the results about outcomes are not empty |
| `DbIter.Drive` | password-manager/Pods/leveldb-library/db/db_iter.cc:146-304 | after any sequence of Seek, SeekToFirst, SeekToLast, Next and Prev, turning round as often as it likes, the iterator shows the row that a cursor over the snapshot's sorted map shows |
| `DbIter.RowsAreViews` | password-manager/Pods/leveldb-library/db/db_iter.cc:173-203 | the rows of that map are exactly the entries that reads of single keys at the snapshot return |
| `DbIter.DBIter.FindPrevUserEntry` | password-manager/Pods/leveldb-library/db/db_iter.cc:232-272 | going backwards, the candidate kept while passing the entries of a key is the newest visible one, unless that is a deletion |
| `Merger.MergingIterator.Next` | password-manager/Pods/leveldb-library/table/merger.cc:59-83 | one step forwards in the sorted merge from wherever the children stand, after a step backwards too |
| `Merger.MergingIterator.Prev` | password-manager/Pods/leveldb-library/table/merger.cc:85-112 | one step backwards in the sorted merge, past a change of direction too |
| `Merger.MergingIterator.Seek` | password-manager/Pods/leveldb-library/table/merger.cc:51-57 | a seek in all children is a seek in their sorted merge |
| `Merger.SmallestIs` | password-manager/Pods/leveldb-library/table/merger.cc:155-168 | the least of the children's current entries is the next entry of the merge |
| `TwoLevel.TwoLevelIterator.Next` | password-manager/Pods/leveldb-library/table/two_level_iterator.cc:112-136 | one step forwards in the concatenation of the blocks, empty blocks skipped |
| `TwoLevel.TwoLevelIterator.Prev` | password-manager/Pods/leveldb-library/table/two_level_iterator.cc:118-149 | one step backwards in the concatenation of the blocks |
| `TwoLevel.SoughtBlock` | password-manager/Pods/leveldb-library/table/two_level_iterator.cc:91-96 | seeking in the index and then in one block finds the first entry at or after the target of all blocks |
| `Iterators.RunIterates` | password-manager/Pods/leveldb-library/db/db_impl.cc:1067-1096 | in every run the children of an internal iterator share no key and merge, and the rows that a database iterator shows over them are exactly the keys and values of the acknowledged history at its snapshot |
| `Log.CrashPrefix` | password-manager/Pods/leveldb-library/db/log_reader.cc:60-281 | reading any byte prefix of a written log gives exactly the records whose last fragment is wholly in it, in order, and reports no corruption |
| `Log.LogRoundTrip` | password-manager/Pods/leveldb-library/db/log_writer.cc:36-109 | records of any sizes, the empty record included, are read back from the log they were written to |
| `Log.Writer.AddRecord` | password-manager/Pods/leveldb-library/db/log_writer.cc:36-82 | the bytes appended for a record are its fragments, none of which crosses a block boundary, with block trailers filled |
| `Log.WriteLog` | password-manager/Pods/leveldb-library/db/log_writer.cc:36-109 | writing records one after the other makes the file that CrashPrefix and LogRoundTrip are about |
| `Log.ReadLog` | password-manager/Pods/leveldb-library/db/log_reader.cc:60-182 | the loop over the reader, block buffering and all, reads what a walk over the bytes of the file defines |
| `WriteBatch.OpsBack` | password-manager/Pods/leveldb-library/db/write_batch.cc:42-80 | every operation put into a batch is iterated over again, in order |
| `WriteBatch.Batch.InsertInto` | password-manager/Pods/leveldb-library/db/write_batch.cc:128-134 | the operations of a batch are inserted under consecutive sequence numbers from the one of the batch on |
| `WriteQueue.WritersServedInOrder` | password-manager/Pods/leveldb-library/db/db_impl.cc:1194-1314 | over all interleavings of writers each returns once, in the order of arrival, with its own stretch of sequence numbers, contiguous and disjoint in that order, and a writer that wants the log synced is never in a group whose log record is not |
| `WriteQueue.SnapshotsSeeWholeBatches` | password-manager/Pods/leveldb-library/db/db_impl.cc:1219-1246 | the last sequence number, and so a snapshot, never falls inside the numbers of one batch |
| `WriteQueue.SomebodyProceeds` | password-manager/Pods/leveldb-library/db/db_impl.cc:1199-1210 | as long as a writer waits, a step other than an arrival is possible |
| `WriteQueue.PopGroup` | password-manager/Pods/leveldb-library/db/db_impl.cc:1248-1262 | the loop takes exactly the group off the queue, each of its writers with its own slots |
| `WriteQueue.BuildBatchGroup` | password-manager/Pods/leveldb-library/db/db_impl.cc:1269-1314 | the group is the longest run of writers from the front that the size and sync rules admit, and its batch is theirs, one after the other |
| `CrashReplay.RecoverLogFile` | password-manager/Pods/leveldb-library/db/db_impl.cc:365-486 | replaying a log file yields the entries of its batches in order and the largest sequence number seen |
| `CrashReplay.TornFileReplays` | password-manager/Pods/leveldb-library/db/db_impl.cc:365-486 | a log file cut at any byte after its acknowledged groups replays to the log that the machine's crash step leaves: the unacknowledged group is there whole or not at all |
| `CrashReplay.MaxOfGroups` | password-manager/Pods/leveldb-library/db/db_impl.cc:429-437 | the numbers in the batch headers tell the largest sequence number of the replayed entries |
| `CrashReplay.DescriptorPrefix` | password-manager/Pods/leveldb-library/db/version_set.cc:905-1025 | a descriptor cut at any byte reads back as the edits up to some point, unchanged |
| `VersionEdits.EditRoundTrip` | password-manager/Pods/leveldb-library/db/version_edit.cc:41-210 | decoding an encoded edit into a fresh one gives it back |
| `VersionEdits.DecodeFrom` | password-manager/Pods/leveldb-library/db/version_edit.cc:109-210 | the parse loop accepts and yields exactly what reading the fields one after the other yields, and refuses anything else |
| `ManifestReplay.Replay` | password-manager/Pods/leveldb-library/db/version_set.cc:665-772 | one builder applied to a sequence of edits gives, per level and sorted, the files that applying the edits one at a time gives |
| `ManifestReplay.OneEditInstalls` | password-manager/Pods/leveldb-library/db/version_set.cc:820-903 | one edit through a builder is what installing the edit means for the database |
| `ManifestReplay.SurvivorsDisjoint` | password-manager/Pods/leveldb-library/db/version_set.cc:711-772 | a level whose surviving files lie apart pairwise comes out as a level of disjoint files |
| `TableLookup.GetFromTable` | password-manager/Pods/leveldb-library/table/table.cc:226-255 | for every table that stands for the entries of a file, a lookup in its bytes through index, filter and block hands the saver what a seek in the entries finds |
| `TableLookup.EncodingsSorted` | password-manager/Pods/leveldb-library/db/dbformat.cc:50-66 | sorted entries, encoded, are pairs in the order that a table builder demands |
| `TableLookup.SavedIsView` | password-manager/Pods/leveldb-library/db/version_set.cc:268-281 | and that is the newest entry of the file that the snapshot may see |
| `Table.InternalGet` | password-manager/Pods/leveldb-library/table/table.cc:226-255 | shortened index keys, filter and one block seek give the first pair at or after the key whenever it has the key's user key, and never another pair |
| `TableBuild.TableBuilder.Finish` | password-manager/Pods/leveldb-library/table/table_builder.cc:199-254 | the finished file is a table of exactly the pairs added, with an index and a filter that lookups can rely on |
| `TableBuild.TableBuilder.Add` | password-manager/Pods/leveldb-library/table/table_builder.cc:92-121 | an added pair is the last of the table's, whether or not it finishes a block, and a block is finished as soon as it reaches its size |
| `Block.BuildAndScan` | password-manager/Pods/leveldb-library/table/block_builder.cc:63-107 | iterating a finished block gives exactly the pairs added, for every restart interval, and building succeeds whenever the pairs fit |
| `Block.Iter.Seek` | password-manager/Pods/leveldb-library/table/block.cc:165-203 | the search over restart points and the scan after it stop at the first key not before the target |
| `Block.Iter.Prev` | password-manager/Pods/leveldb-library/table/block.cc:144-163 | Prev goes back to the pair before, from the last restart point before it |
| `Filter.NoFalseNegatives` | password-manager/Pods/leveldb-library/util/bloom.cc:35-89 | a Bloom filter admits every key it was made for |
| `Filter.FilterBlockBuilder.Finish` | password-manager/Pods/leveldb-library/table/filter_block.cc:22-76 | the finished filter block has, for every 2 KB stretch of the file, a filter for the keys of the blocks that start there, found through its offset array |
| `Filter.FilterBlockReader.KeyMayMatch` | password-manager/Pods/leveldb-library/table/filter_block.cc:95-109 | a key is ruled out exactly if the bits of its stretch rule it out, which never happens to a key that is in the stretch |
| `Coding.VarintRoundTrip` | password-manager/Pods/leveldb-library/util/coding.cc:47-158 | a varint is read back, with whatever follows it untouched |
| `SkipList.ReadersFind` | password-manager/Pods/leveldb-library/db/skiplist.h:261-281 | however the stores of an insertion fall between the loads of a search, the search ends where one at the moment of its last load would end, and so misses no key that was there when it began |
| `SkipList.StoreKeeps` | password-manager/Pods/leveldb-library/db/skiplist.h:346-369 | every store of an insertion leaves each level a sorted part of the level below |
| `SkipList.SkipList.ViewIsLayered` | password-manager/Pods/leveldb-library/db/skiplist.h:147-180 | a valid list of linked nodes is one of the layered lists that searches are proved about |
| `SkipList.SkipList.Insert` | password-manager/Pods/leveldb-library/db/skiplist.h:336-370 | for every height drawn, the new key is at its place on the levels below the height and nowhere else, and the links of all levels run through their nodes |
| `SkipList.SkipList.Publish` | password-manager/Pods/leveldb-library/db/skiplist.h:364-369 | the two stores for one level are one step that concurrent searches withstand |
| `SkipList.SkipList.FindGreaterOrEqual` | password-manager/Pods/leveldb-library/db/skiplist.h:261-281 | the descent through the levels finds the first key not less than the target, and on every level the last node before it |
| `SkipList.SkipList.FindLessThan` | password-manager/Pods/leveldb-library/db/skiplist.h:283-302 | the last node before the key, or the head |
| `SkipList.SkipList.FindLast` | password-manager/Pods/leveldb-library/db/skiplist.h:304-322 | the last node, or the head of an empty list |
| `SkipList.SkipList.Contains` | password-manager/Pods/leveldb-library/db/skiplist.h:372-380 | a key is found exactly if one that compares equal is in the list |
| `SkipList.Iterator.Prev` | password-manager/Pods/leveldb-library/db/skiplist.h:213-222 | searching for the last node before the current key goes one position back |
| `MemTable.MemTable.Add` | password-manager/Pods/leveldb-library/db/memtable.cc:82-106 | the entry written as bytes joins the memtable's entries, which stay sorted as internal keys |
| `MemTable.MemTable.Get` | password-manager/Pods/leveldb-library/db/memtable.cc:108-143 | seeking with the lookup key in the bytes and parsing one entry gives what a seek in the entries gives |
| `MemTable.BeforeIsLess` | password-manager/Pods/leveldb-library/db/memtable.cc:33-39 | length-prefixed keys in bytes are ordered as the entries they begin |
| `Snapshots.SnapshotList.Delete` | password-manager/Pods/leveldb-library/db/snapshot.h:53-58 | unlinking a snapshot anywhere in the ring leaves the others, in order and linked both ways |
| `Snapshots.SnapshotList.Oldest` | password-manager/Pods/leveldb-library/db/snapshot.h:39-39 | the first of the list is a snapshot that no live one is older than |
| `LruCache.RunKeeps` | password-manager/Pods/leveldb-library/util/cache.cc:221-333 | in every run of lookups, releases, insertions, erasures and prunings the table agrees with the map of cached entries, usage is the sum of their charges, an entry nobody uses is on the LRU list and a used one on the other, each deleter has run once exactly for the entries that are gone, and after an insertion usage is within the capacity or nothing unused is left |
| `LruCache.MakeRoomEvicts` | password-manager/Pods/leveldb-library/util/cache.cc:293-300 | room is made by giving up the oldest unused entries, no more of them than necessary, and nothing else changes |
| `LruCache.PrunedKeeps` | password-manager/Pods/leveldb-library/util/cache.cc:323-333 | pruning gives up all unused entries and only those |
| `LruCache.LRUCache.EraseEntry` | password-manager/Pods/leveldb-library/util/cache.cc:307-321 | erasing a key takes its entry out of table and cache; its deleter runs now or when the last user releases it |
| `LruCache.LRUCache.PruneAll` | password-manager/Pods/leveldb-library/util/cache.cc:323-333 | the loop over the LRU list does what the specification of pruning says |
| `LruCache.LRUCache.Insert` | password-manager/Pods/leveldb-library/util/cache.cc:269-303 | the new entry takes the place of one with its key, and the whole new state is that of the specification |
| `HandleTable.HandleTable.Insert` | password-manager/Pods/leveldb-library/util/cache.cc:80-94 | the table says afterwards what the map with the new entry says, and the entry replaced, if any, is handed back |
| `HandleTable.HandleTable.Remove` | password-manager/Pods/leveldb-library/util/cache.cc:96-107 | the table says afterwards what the map without the key says, and the entry is handed back |
| `HandleTable.HandleTable.Resize` | password-manager/Pods/leveldb-library/util/cache.cc:125-148 | distributing the chains anew keeps the contents |
| `PbRoundTrip.RoundTrip` | password-manager/Pods/nanopb/pb_decode.c:901-1063 | every message tree that fits its memory is encoded, and decoding the bytes gives it back, up to what is in members that are marked absent |
| `PbRoundTrip.SizeEncodeDecode` | password-manager/Pods/nanopb/pb_encode.c:494-542 | sizing, encoding into a buffer of just that size and decoding all succeed and give the message back |
| `PbRoundTrip.StringReadable` | password-manager/Pods/nanopb/pb_decode.c:1428-1461 | an encodable string without zero bytes is decoded exactly if it leaves room for a zero byte in its array |
| `PbRoundTrip.MessageBack` | password-manager/Pods/nanopb/pb_decode.c:901-1049 | decoding a message's bytes takes the structure through the same stages, field by field, whatever is nested |
| `PbEncode.EncodeSubmessage` | password-manager/Pods/nanopb/pb_encode.c:682-730 | the counting pass and the writing pass agree, so the check for a changed size never fails: the call succeeds exactly if the message can be encoded and fits |
| `PbEncode.EncodeFields` | password-manager/Pods/nanopb/pb_encode.c:494-516 | the stream gets exactly the encoding of the message, or the call fails because there is none or it does not fit |
| `PbEncode.EncodeArray` | password-manager/Pods/nanopb/pb_encode.c:126-211 | packed arrays are written with a size computed or counted beforehand, others item by item, and both as the specification says |
| `PbEncode.EncodeToBuffer` | password-manager/Pods/nanopb/pb_encode.c:84-119 | encoding into a buffer succeeds exactly if the whole message fits, and then the buffer holds it |
| `PbDecode.Decode` | password-manager/Pods/nanopb/pb_decode.c:1051-1063 | for arbitrary bytes, the stream decoder with its field iterator accepts exactly what the recursive specification accepts, and fills the structure as it says |
| `PbDecode.DecodeNoInit` | password-manager/Pods/nanopb/pb_decode.c:901-1049 | the loop over tags, with wrap-around field search, skipped unknown fields, required fields and substreams, computes the specified message |
| `PbDecode.IStream.DecodeVarint32` | password-manager/Pods/nanopb/pb_decode.c:182-247 | a varint is read as the low 32 bits if the rest is a proper sign extension, and refused otherwise |
| `PbModel.FieldIter.Find` | password-manager/Pods/nanopb/pb_common.c:78-95 | the wrap-around search from any position finds a field with the tag exactly if there is one |
| `PbWire.Varint32Back` | password-manager/Pods/nanopb/pb_decode.c:182-247 | a 32-bit number that was written is read back, with whatever follows untouched |

## Left out

- Durability.RunServesReads: assumes that compactions start with a safe boundary, which the code does not check; without it the statement is false (see the findings).
- Durability.CrashSafe: log appends survive except for the unacknowledged last group; the reuse of log files and descriptors (`reuse_logs`) is not modelled.
- Durability.RunKeepsTables: an I/O error inside `LogAndApply` itself is not modelled, only failures before it; log files and tables are deleted, descriptors, temporary files and the lock file are not modelled.
- GroupCommit.QueueStepLeads: covers writes that go well; what the queue does after a failed log write is in WriteQueue alone.
- Picking.PickCompaction: the level or file to compact is given; scores are floating point and any level may be chosen. Manual `CompactRange` is not modelled, as its inputs may have gaps.
- CompactionWork.Compaction.DoCompactionWork: where outputs are cut, and their sizes, are arbitrary, so `ShouldStopBefore` and the size limit are covered without being computed.
- Iterators.RunIterates: the memtable is read as it was when the iterator was opened; later insertions have larger sequence numbers, which the iterator does not show.
- Merger.MergingIterator.Next: children with a common key, which the store never has, are excluded.
- Comparators.FindShortestSeparator: says that a separator is right, not how short it is.
- Block.Iter.Seek: blocks that no builder wrote are covered for DecodeEntry only; iterators over corrupt blocks are not modelled.
- Log.CrashPrefix: about written logs and their prefixes; corrupted bytes and an initial offset other than 0 are not modelled.
- TableBuild.TableBuilder.Finish: ends with the index and filter contents; metaindex block, footer and Snappy compression are not part of this model, and neither is the block cache between table and block.
- SkipList.ReadersFind: loads and stores are atomic and seen in one order; the barriers that make this so, and the arena, are not modelled. The links of a node are a field of type `seq`.
- MemTable.MemTable.Add: memory accounting and reference counts are not modelled.
- LruCache.LRUCache.Insert: the two circular lists are sequences of entries, not `prev` and `next` pointers; sharding by hash and `NewId` are not modelled.
- HandleTable.HandleTable.Resize: a chain is a sequence, not linked entries.
- PbRoundTrip.RoundTrip: about statically allocated fields that fit their memory. Callbacks, extensions, pointer fields, fixed-count arrays and 32-bit builds are not modelled; the contents of absent members are not compared.
- PbDecode.IStream.DecodeVarint32: the position counter, an 8-bit number in the code, does not wrap around here; that would take a varint of more than thirty bytes.
- PbDecode.Decode: strings and bytes are sequences, so bytes after the end of a string in its array are not modelled.
- Reference counts of versions and memtables: a version or memtable that a reader holds stays as it is.
- Env, threads, mutexes, file locks, `CURRENT` and the names of files: the lock is what makes steps atomic.
- RepairDB, C bindings, statistics, GetProperty, GetApproximateSizes: they only read or estimate.
