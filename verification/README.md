# A model of the storage engine and the message codec

The application keeps its data in LevelDB and encodes messages with nanopb. This Dafny
project models both, by what their code does, and proves what they promise.

- **LSM tree.** `DbFormat`, `TableFiles` and `Versions` hold keys, files and lookups;
  `CompactionInputs`, `VersionBuilder`, `LevelShape`, `DropRule` and `CompactionWork` what a
  compaction chooses, merges, drops and installs, `OutputCuts` where it cuts its outputs; `Lsm` the state machine of writes, flushes,
  moves, snapshots and compactions, which begin and are installed in two steps; `Db` the
  imperative database that refines it; `MemTable` the memtable over the skip list. A key
  matters only through its comparator, so a user key is a real number, into which every
  countable order embeds.
- **Iterator.** `DbIter` is the two-direction iterator, proved against a cursor over the map
  that a snapshot sees.
- **Write queue.** `WriteQueue` is the group-commit protocol as steps of concurrent threads;
  `Commits` joins it to the store.
- **Skip list.** `SkipList` is the linked structure with one user; `SkipListReaders` the same
  algorithm as single loads and stores of one writer and any number of readers.
- **Formats.** `Coding`; `Log`, `LogReader`, `LogRoundTrip`, `LogRecords` for what becomes of
  damaged files, and `ReservedTypes`; `Block`, `BlockBuilder` and `BlockIter`; `EditCoding`,
  `Snapshot` and `VersionSet` for the manifest, which is kept in the log format and rebuilt with
  the version builder; `FilterBlock`; `FormatExamples` for some bytes written out.
- **nanopb.** `PbFields` is the field iterator and the bitmap of required fields, `PbMessages`
  the wire format as a function, `PbEncoder` and `PbDecoder` the stream code, `PbDecoding` what
  decoding gives, `PbMerging` what a message read on top of a structure makes of it,
  `PbRoundTrip` and `PbCodec` that decoding does that, `PbEvolution` what decoding makes of
  unknown fields, other orders and fields that come twice, `PbVarint` of numbers that are too
  long. The format is the one of the Protocol Buffers "Encoding" specification, sections
  "Base 128 Varints", "Signed Integers", "Length-Delimited Records", "Packed Repeated Fields"
  and "Last One Wins".

`dafny verify dfyconfig.toml` checks everything.

Where the code differs from what one expects of it, the model follows the code:

- `SetupOtherInputs` adds boundary files to the inputs of the compacted level only, not to
  those of the next level. A deletion there can be dropped while an older value of its key
  stays in a file that is left out. `Lsm.CompactionKeepsReadsIff` says exactly when reads are
  kept, `Lsm.HazardIsBesideUpperInputs` where the older value must be,
  `Lsm.ClosedUpperInputsAreSafe` gives a condition on the chosen files that rules it out, and
  `BoundaryHazard` is a run from a new store in which a deleted value returns.
- Decoding a version edit does not clear the compaction pointers it had.
- Searching for tag zero among the descriptors of an empty message finds their end mark.
- A log fragment whose type byte is 5 or 6, with a right checksum, is taken for the end of
  the file or for a bad record, without a report: `ReservedTypes`.
- The bounds check of a block entry adds two lengths in 32 bits. `Blocks.AcceptedIff` and
  `BlockIters.FitIffNoneRunsOut` say exactly when that matters, `BlockIters.WrappingBlockRunsOut`
  is an example; blocks that were built are not concerned.
- A varint read as 32 bits may have any three bits behind the word, if it passes for a negative
  number otherwise: `PbVarints.Decodes32Iff` says exactly which are read.
- Recovery marks the log numbers as used before it sets the next file number, so only the
  recorded file number counts.

## Model

| member | source | states |
|---|---|---|
| DbFormat.CompareIsLexicographic | WaffleChat/Pods/leveldb-library/db/dbformat.cc:51-67 | comparing the packed 64-bit trailers orders internal keys by user key up, then sequence down, then type down, and only equal keys compare equal |
| DbFormat.PackSequenceAndType | WaffleChat/Pods/leveldb-library/db/dbformat.cc:14-18 | a sequence number of 56 bits and a type fit the 64-bit trailer |
| TableFiles.FindFile | WaffleChat/Pods/leveldb-library/db/version_set.cc:88-106 | binary search gives the first file of a disjoint level whose largest key is not before the target: all earlier files end before it, all later ones do not |
| TableFiles.SomeFileOverlapsRange | WaffleChat/Pods/leveldb-library/db/version_set.cc:122-157 | true exactly if some file meets the range, on level 0 by scanning and on disjoint levels by binary search, with open ends |
| TableFiles.GetOverlappingInputs | WaffleChat/Pods/leveldb-library/db/version_set.cc:519-559 | above level 0 exactly the files that meet the range; on level 0, where a hit that sticks out restarts the scan, exactly the files that meet the least range that contains the query and every file it meets; it terminates |
| Versions.SearchEntries | WaffleChat/Pods/leveldb-library/db/version_set.cc:263-276 | a seek in one source plus one look at the entry found gives the newest entry of the key that the snapshot sees, a deletion, or nothing |
| Versions.SearchLevelZero | WaffleChat/Pods/leveldb-library/db/version_set.cc:346-362 | level-0 candidates, newest file first with an early exit, give the newest visible entry of the whole level |
| Versions.SearchDisjointLevel | WaffleChat/Pods/leveldb-library/db/version_set.cc:363-378 | one binary-searched file gives the newest visible entry of a level, even when a user key spans neighbouring files |
| Versions.VersionGet | WaffleChat/Pods/leveldb-library/db/version_set.cc:326-421 | the level-by-level lookup with early exits gives the newest visible entry of all files of the version |
| Db.Database.Get | WaffleChat/Pods/leveldb-library/db/db_impl.cc:1100-1145 | memtable, then immutable memtable, then files: the value a reader at the snapshot, or at the last sequence number, has for the key in the abstract state |
| CompactionInputs.GetRange | WaffleChat/Pods/leveldb-library/db/version_set.cc:1205-1227 | the least smallest key and the greatest largest key of the inputs |
| CompactionInputs.RangeHolds | WaffleChat/Pods/leveldb-library/db/version_set.cc:1205-1227 | every file of the inputs lies between the two keys of the range |
| CompactionInputs.RangeIsTight | WaffleChat/Pods/leveldb-library/db/version_set.cc:1205-1227 | each of the two keys is a bound of one of the inputs |
| CompactionInputs.FindLargestKey | WaffleChat/Pods/leveldb-library/db/version_set.cc:1326-1340 | the greatest largest key, or nothing for no files |
| CompactionInputs.FindSmallestBoundaryFile | WaffleChat/Pods/leveldb-library/db/version_set.cc:1344-1363 | of the files that begin after the key with its user key, one with the least smallest key; nothing if there are none |
| CompactionInputs.AddBoundaryInputs | WaffleChat/Pods/leveldb-library/db/version_set.cc:1378-1401 | terminates; what it adds is a chain of boundary files, each the least one after the last, and no file of the level is left that begins after the largest chosen key with its user key |
| CompactionInputs.OverlappingIsSlice | WaffleChat/Pods/leveldb-library/db/version_set.cc:519-559 | on a disjoint level the files that meet a range are neighbours |
| CompactionInputs.CloseInputs | WaffleChat/Pods/leveldb-library/db/version_set.cc:1407-1408 | a seed extended by boundary files is closed: a slice of a disjoint level with no boundary file behind it, or on level 0 all files that meet some closed range |
| CompactionInputs.FilesOverRange | WaffleChat/Pods/leveldb-library/db/version_set.cc:1423-1425 | the files of the level over the range of both inputs, with their boundary files, are closed again and still hold every file chosen before |
| CompactionInputs.GrowInputs | WaffleChat/Pods/leveldb-library/db/version_set.cc:1422-1447 | the inputs grow to the files over the whole range, with their boundary files, exactly if there are inputs of the next level, that gives more files, keeps below 25 file sizes and leaves the next level's inputs as many; grown or not they are closed and keep what they had |
| CompactionInputs.SetupOtherInputs | WaffleChat/Pods/leveldb-library/db/version_set.cc:1403-1462 | the plan: the seed with its boundary files, grown if that pays, all files of the next level that meet them, the grandparents, and the pointer for the next compaction |
| LevelShape.PickLevelForMemTableOutput | WaffleChat/Pods/leveldb-library/db/version_set.cc:491-516 | the deepest level, at most 2, such that no level on the way meets the range and no step down is stopped by overlap or grandparent size |
| LevelShape.PickedLevelMeans | WaffleChat/Pods/leveldb-library/db/version_set.cc:491-516 | unless it is level 0 no file down to the chosen level meets the range, and on the way down at most ten file sizes of bytes two levels further down met it; it stops at level 2, or because a level-0 file meets the range, or one of the next level, or more than ten file sizes of bytes two levels down |
| LevelShape.FlushKeepsVersionValid | WaffleChat/Pods/leveldb-library/db/db_impl.cc:491-533 | adding a flushed table at a level that is free down to it keeps levels disjoint and shallower entries newer |
| LevelShape.InstallKeepsVersionValid | WaffleChat/Pods/leveldb-library/db/db_impl.cc:860-876 | replacing the inputs of two levels by outputs that fit keeps levels disjoint and shallower entries newer |
| LevelShape.InstalledContents | WaffleChat/Pods/leveldb-library/db/db_impl.cc:860-876 | the entries after an install are those of the outputs and of the untouched files |
| DropRule.ReadsKeptIffSafe | WaffleChat/Pods/leveldb-library/db/db_impl.cc:929-958 | dropping hidden entries and obsolete deletions changes no read at or above the smallest snapshot if and only if no dropped deletion hides an older entry that stays |
| CompactionWork.Compaction.IsBaseLevelForKey | WaffleChat/Pods/leveldb-library/db/version_set.cc:1533-1552 | the monotone per-level cursor, fed ascending keys, answers whether no file two or more levels down has the key in its range |
| CompactionWork.HiddenByPrevious | WaffleChat/Pods/leveldb-library/db/db_impl.cc:946-953 | in merge order, comparing with the previous entry of the same key decides whether any newer entry at or below the smallest snapshot hides this one |
| CompactionWork.Compaction.DropsEntry | WaffleChat/Pods/leveldb-library/db/db_impl.cc:929-958 | told the sequence number before it, an entry of the merge is dropped if and only if a newer input entry of its key is at or below the smallest snapshot, or it is a deletion at or below it whose key lies in no file's range deeper than the output level |
| CompactionWork.Compaction.ShouldStopBefore | WaffleChat/Pods/leveldb-library/db/version_set.cc:1554-1576 | the grandparent cursor asks for a stop exactly if more than ten file sizes of grandparents end between the last stop and the key |
| CompactionWork.MergeInputIsSorted | WaffleChat/Pods/leveldb-library/db/version_set.cc:1237-1268 | the merged input is in internal-key order and holds exactly the entries of the input files |
| CompactionWork.DoCompactionWork | WaffleChat/Pods/leveldb-library/db/db_impl.cc:890-999 | the outputs are disjoint sorted files that hold exactly the input entries above the smallest snapshot, and of each key the newest one at or below it unless that is a deletion with no deeper file over its key; an output ends exactly where its table has reached the file size, where there is a stop before its next entry, or with the input |
| CompactionWork.KeptIsExact | WaffleChat/Pods/leveldb-library/db/db_impl.cc:929-958 | the drop rule leaves exactly the entries above the smallest snapshot and, of each key, the newest at or below it, but for deletions over nothing deeper; said of entries and files alone |
| CompactionWork.OverwrittenIsGone | WaffleChat/Pods/leveldb-library/db/db_impl.cc:946-953 | no two output entries of one user key are both at or below the smallest snapshot |
| CompactionWork.ObsoleteIsGone | WaffleChat/Pods/leveldb-library/db/db_impl.cc:954-960 | a deletion at or below the smallest snapshot is in the outputs only if a deeper file has its key in its range |
| CompactionWork.Compaction.PassGrandparents | WaffleChat/Pods/leveldb-library/db/version_set.cc:1558-1567 | the cursor goes past exactly the grandparents that end before the key, and counts their bytes unless it is the first key |
| OutputCuts.NextCount | WaffleChat/Pods/leveldb-library/db/version_set.cc:1554-1576 | what the cursor has counted is the bytes of the grandparents between the last stop and the key, whatever it was asked before |
| OutputCuts.NextPlace | WaffleChat/Pods/leveldb-library/db/db_impl.cc:921-927 | a stop ends the output being built, and only that; what asked for a cut lies behind every finished output |
| OutputCuts.EntryKept | WaffleChat/Pods/leveldb-library/db/db_impl.cc:985-992 | a kept entry joins the output being built, which ends there exactly if its table has reached the file size |
| Lsm.CompactionKeepsReadsIff | WaffleChat/Pods/leveldb-library/db/db_impl.cc:878-1045 | installing a compaction, whatever was written since it began, keeps every read from its smallest snapshot on if and only if no dropped deletion hides an older entry outside the inputs |
| Lsm.CompactLeavesExactly | WaffleChat/Pods/leveldb-library/db/db_impl.cc:929-958 | an installation step leaves exactly those entries of its inputs |
| Lsm.HazardIsBesideUpperInputs | WaffleChat/Pods/leveldb-library/db/version_set.cc:1410-1412 | the only place for such an older entry is a file of the next level that is not an input, behind an input with the same user key |
| Lsm.ClosedUpperInputsAreSafe | WaffleChat/Pods/leveldb-library/db/version_set.cc:1403-1462 | if no file of the next level is a boundary file of its inputs, the compaction keeps all reads from its smallest snapshot on |
| Lsm.StepKeepsInv | WaffleChat/Pods/leveldb-library/db/db_impl.cc:688-767 | writes, memtable switches, flushes, trivial moves, the beginning and the installation of compactions, and snapshots keep the LSM invariant |
| Lsm.StepKeepsLiveReads | WaffleChat/Pods/leveldb-library/db/db_impl.cc:688-767 | every step leaves every read of every live snapshot as it is, unless it installs a compaction with such an older entry |
| Lsm.RunKeepsInv | WaffleChat/Pods/leveldb-library/db/db_impl.cc:688-767 | the LSM invariant holds after every run, in which writes, switches and snapshots may come between the beginning of a compaction and its installation |
| Lsm.HeldSnapshotIsStable | WaffleChat/Pods/leveldb-library/db/db_impl.cc:1166-1175 | over any run whose compactions drop no deletion that hides an older entry outside the inputs, a snapshot that is held reads the same for every key, also while compactions are under way |
| Lsm.WriteUpdatesLatest | WaffleChat/Pods/leveldb-library/db/db_impl.cc:1185-1258 | after a write the latest read of a key is its last operation in the batch, or what it was |
| BoundaryHazard.SelectionLeavesBoundaryFile | WaffleChat/Pods/leveldb-library/db/version_set.cc:1410-1412 | in a state the store gets to, every plan at level 1 leaves a boundary file of the next level out of the inputs |
| BoundaryHazard.DeletedValueReturns | WaffleChat/Pods/leveldb-library/db/version_set.cc:1403-1462 | steps from a new store lead to a state in which a key is deleted, and installing a compaction from there to one in which its old value is read again at the same snapshot |
| BoundaryHazard.StepIsPossible | WaffleChat/Pods/leveldb-library/db/db_impl.cc:929-958 | that installation is one the selection and the drop rule perform |
| BoundaryHazard.ReachesSplit | WaffleChat/Pods/leveldb-library/db/db_impl.cc:958-998 | an earlier compaction under a snapshot keeps a deletion and the older value of its key, and may cut its outputs between them |
| BoundaryHazard.FlushLevelsArePicked | WaffleChat/Pods/leveldb-library/db/version_set.cc:491-516 | the memtables of that run go to the levels the picker chooses |
| Db.EditInstalls | WaffleChat/Pods/leveldb-library/db/db_impl.cc:860-876 | the edit of a compaction (delete the inputs, add the outputs) turns the version into the installed one |
| Db.InstallCompaction | WaffleChat/Pods/leveldb-library/db/db_impl.cc:860-876 | applying that edit with a builder installs the outputs in place of the inputs |
| Db.AddEntry | WaffleChat/Pods/leveldb-library/db/memtable.cc:75-98 | the memtable stays sorted and gains exactly the entry |
| MemTables.MemTable.Add | WaffleChat/Pods/leveldb-library/db/memtable.cc:75-98 | inserting the internal key into the skip list, with the value behind it, does just that, whatever the height of the node |
| MemTables.MemTable.Get | WaffleChat/Pods/leveldb-library/db/memtable.cc:100-134 | one seek in the skip list and one look at the user key give the newest visible entry of the memtable, a deletion, or nothing |
| Db.MergedInputIsSorted | WaffleChat/Pods/leveldb-library/db/version_set.cc:1237-1268 | the inputs of a plan never share an internal key, so their merge is sorted |
| Db.PickFirstFile | WaffleChat/Pods/leveldb-library/db/version_set.cc:1281-1297 | the first file behind the compaction pointer, or the first file of the level |
| Db.SeedFrom | WaffleChat/Pods/leveldb-library/db/version_set.cc:1311-1320 | the chosen file, on level 0 with all files its range leads to, is a seed for the plan |
| Db.ManualSeed | WaffleChat/Pods/leveldb-library/db/version_set.cc:1464-1495 | a seed among the files that meet a manual range, on level 0 all of them, above it those up to the one at which the bytes reach the limit; none only if no file meets it |
| Db.ChooseSeed | WaffleChat/Pods/leveldb-library/db/version_set.cc:1270-1324 | a size trigger starts from the first file behind the level's compaction pointer, a seek trigger from the file that was sought too often, a manual one from its range |
| Db.Database.Write | WaffleChat/Pods/leveldb-library/db/db_impl.cc:1185-1258 | inserting a batch and then moving the last sequence number is one write step: operation i gets sequence number last+1+i |
| Db.Database.SwitchMemTable | WaffleChat/Pods/leveldb-library/db/db_impl.cc:1344-1367 | the full memtable becomes the immutable one, an empty one takes over, and its log takes a file number |
| Db.Database.GetSnapshot | WaffleChat/Pods/leveldb-library/db/db_impl.cc:1166-1169 | a snapshot is the last sequence number and joins the live ones |
| Db.Database.ReleaseSnapshot | WaffleChat/Pods/leveldb-library/db/db_impl.cc:1171-1175 | the snapshot, and no other, stops being live |
| Db.Database.CompactMemTable | WaffleChat/Pods/leveldb-library/db/db_impl.cc:535-566 | writing the immutable memtable to a table at the level the picker chooses for its range is one flush step; no table for an empty memtable |
| Db.Database.PickCompaction | WaffleChat/Pods/leveldb-library/db/version_set.cc:1270-1324 | a size, seek or manual trigger gives a valid plan at its level that holds the triggering file, or the files of the range, and moves only that level's compaction pointer, to the plan's; none exactly if a manual range meets no file |
| Db.Database.StartCompaction | WaffleChat/Pods/leveldb-library/db/db_impl.cc:688-767 | a trigger leads to one trivial-move step exactly if it is not manual, one file of the level and none of the next are chosen and the grandparents have at most ten file sizes of bytes; otherwise to one step that begins a compaction with its inputs and smallest snapshot fixed, or to no change if a manual range meets no file |
| Db.Database.FinishCompaction | WaffleChat/Pods/leveldb-library/db/db_impl.cc:890-1037 | merging the inputs, dropping what the smallest snapshot of the beginning allows and installing the outputs, cut at stops and file sizes, under ascending numbers is one step, whatever writes, switches and snapshots came between |
| Db.Database.NewInternalIterator | WaffleChat/Pods/leveldb-library/db/db_impl.cc:1062-1083 | memtable, immutable memtable and the files of all levels give the entries of the store, in order |
| Db.Database.NewIterator | WaffleChat/Pods/leveldb-library/db/db_impl.cc:1147-1155 | an iterator at a snapshot, or at the last sequence number, has for its map exactly what reads there give |
| DbIters.ReadFromIsVisible | WaffleChat/Pods/leveldb-library/db/db_iter.cc:168-198 | scanning the sorted entries of a key for the first one not newer than the snapshot gives the visible value |
| DbIters.DbIter.FindNextUserEntry | WaffleChat/Pods/leveldb-library/db/db_iter.cc:168-198 | forward search, skipping deleted, hidden and too new entries, stops at the first key of the snapshot's map after the bound |
| DbIters.DbIter.FindPrevUserEntry | WaffleChat/Pods/leveldb-library/db/db_iter.cc:227-267 | backward search stops at the last key of the snapshot's map before the bound, with its value saved |
| DbIters.DbIter.Next | WaffleChat/Pods/leveldb-library/db/db_iter.cc:141-166 | moves to the next key of the map, also after a change of direction |
| DbIters.DbIter.Prev | WaffleChat/Pods/leveldb-library/db/db_iter.cc:200-225 | moves to the previous key of the map, also after a change of direction |
| DbIters.DbIter.Seek | WaffleChat/Pods/leveldb-library/db/db_iter.cc:269-281 | moves to the first key of the map at or after the target |
| DbIters.DbIter.SeekToFirst | WaffleChat/Pods/leveldb-library/db/db_iter.cc:283-292 | moves to the first key of the map |
| DbIters.DbIter.SeekToLast | WaffleChat/Pods/leveldb-library/db/db_iter.cc:294-299 | moves to the last key of the map |
| DbIters.DbIter.Run | WaffleChat/Pods/leveldb-library/db/db_iter.cc:141-299 | any sequence of moves shows what the cursor over the map shows |
| DbIters.DbIter.Gain | WaffleChat/Pods/leveldb-library/db/db_impl.cc:1062-1068 | an entry that joins the memtable under an open iterator, being too new for it, changes neither its map nor where it is |
| DbIters.MovesAreDetermined | WaffleChat/Pods/leveldb-library/db/db_iter.cc:141-299 | each move of the map cursor has one outcome |
| DbIters.TraceIsDetermined | WaffleChat/Pods/leveldb-library/db/db_iter.cc:141-299 | so what the iterator shows is determined by the map and the moves alone |
| WriteQueue.BuildBatchGroup | WaffleChat/Pods/leveldb-library/db/db_impl.cc:1260-1306 | the group is the longest run of writers that may join, its batch is their operations in order, and the temporary batch is used exactly when there is more than one batch; a group with a follower's batch has at most the leader's bytes and 131072 more, or 1048576 for a larger leader, and takes in every writer up to which that limit holds and no sync is asked for that the leader lacks |
| WriteQueue.GroupReaches | WaffleChat/Pods/leveldb-library/db/db_impl.cc:1272-1299 | every writer up to which the bytes stay within the limit, written out, and no sync is asked for that the leader lacks is in the group |
| WriteQueue.GroupIsBounded | WaffleChat/Pods/leveldb-library/db/db_impl.cc:1272-1299 | a group with a follower's batch keeps within the limit |
| WriteQueue.GroupLimits | WaffleChat/Pods/leveldb-library/db/db_impl.cc:1272-1299 | both for any run that is a group |
| WriteQueue.GroupIsUnique | WaffleChat/Pods/leveldb-library/db/db_impl.cc:1260-1306 | there is one such run |
| WriteQueue.StepKeepsInv | WaffleChat/Pods/leveldb-library/db/db_impl.cc:1185-1258 | every atomic step of every thread keeps the queue invariant |
| WriteQueue.ReachableInv | WaffleChat/Pods/leveldb-library/db/db_impl.cc:1185-1258 | the invariant holds after every interleaving |
| WriteQueue.OneLeader | WaffleChat/Pods/leveldb-library/db/db_impl.cc:1193-1199 | at most one thread leads, and it is the front of the queue |
| WriteQueue.TmpBatchEmptyAtStart | WaffleChat/Pods/leveldb-library/db/db_impl.cc:1285-1292 | the temporary batch is empty whenever a group is formed |
| WriteQueue.MembershipIsUnique | WaffleChat/Pods/leveldb-library/db/db_impl.cc:1238-1252 | no writer is in two groups, or twice in one |
| WriteQueue.ReturnedOkWasInOneGroup | WaffleChat/Pods/leveldb-library/db/db_impl.cc:1238-1252 | a writer that returned OK was in exactly one group, which succeeded, wrote exactly its members' batches in queue order, and was led by a sync writer if any member asked for sync |
| WriteQueue.MemberRun | WaffleChat/Pods/leveldb-library/db/write_batch.cc:144-149 | a member's operations are one consecutive run of the group's |
| WriteQueue.GroupsAreConsecutive | WaffleChat/Pods/leveldb-library/db/db_impl.cc:1205-1207 | groups take disjoint ranges of sequence numbers in order, the next one right behind the last |
| WriteQueue.AllOrNone | WaffleChat/Pods/leveldb-library/db/db_impl.cc:1104-1110 | a reader whose snapshot was taken at any moment sees all operations of a successful group or none |
| WriteQueue.SeesPrefixOfCommits | WaffleChat/Pods/leveldb-library/db/db_impl.cc:1236-1236 | what a snapshot sees is a prefix of the groups in commit order |
| WriteQueue.ViewIsStable | WaffleChat/Pods/leveldb-library/db/db_impl.cc:1104-1110 | what a snapshot sees never changes afterwards |
| Commits.CommitIsWrite | WaffleChat/Pods/leveldb-library/db/db_impl.cc:1206-1236 | a leader that finishes its group with success performs one write step of the store, with the group's operations under the next sequence numbers |
| Commits.JointRunKeepsInv | WaffleChat/Pods/leveldb-library/db/db_impl.cc:1185-1258 | queue and store stay valid and at one sequence number over all runs of both, in which threads insert while memtables are switched and flushed and compactions are under way |
| Commits.PendingIsUnseen | WaffleChat/Pods/leveldb-library/db/db_impl.cc:1104-1110 | no read up to the last sequence number sees what a leader has inserted so far |
| Commits.GroupAppearsAtOnce | WaffleChat/Pods/leveldb-library/db/db_impl.cc:1206-1236 | a read changes only as a group is finished, and then to what the group's last operation on its key leaves |
| SkipLists.SkipList.FindGreaterOrEqual | WaffleChat/Pods/leveldb-library/db/skiplist.h:262-281 | the first node at or after the key, with the last node before it on every level in use; it terminates |
| SkipLists.SkipList.FindLessThan | WaffleChat/Pods/leveldb-library/db/skiplist.h:285-302 | the last node before the key, or the head |
| SkipLists.SkipList.FindLast | WaffleChat/Pods/leveldb-library/db/skiplist.h:305-322 | the last node, or the head |
| SkipLists.SkipList.Insert | WaffleChat/Pods/leveldb-library/db/skiplist.h:337-368 | for every choice of height, every level stays linked in key order and the set of keys gains exactly the key |
| SkipLists.SkipList.LinkAll | WaffleChat/Pods/leveldb-library/db/skiplist.h:362-367 | after the linking loop every level links each of its nodes to the next, with the new node in its place |
| SkipLists.SkipList.Contains | WaffleChat/Pods/leveldb-library/db/skiplist.h:371-378 | true exactly for the keys of the set |
| SkipLists.SkipList.LevelIsLinked | WaffleChat/Pods/leveldb-library/db/skiplist.h:262-281 | the links of a level visit exactly the nodes that reach it, in order |
| SkipLists.LevelThins | WaffleChat/Pods/leveldb-library/db/skiplist.h:337-368 | a level is a sublist of every lower one |
| SkipLists.LevelAscends | WaffleChat/Pods/leveldb-library/db/skiplist.h:337-368 | a level is strictly ascending |
| SkipLists.Iterator.Seek | WaffleChat/Pods/leveldb-library/db/skiplist.h:224-226 | the least key at or after the target, or none if all are before it |
| SkipLists.Iterator.SeekToFirst | WaffleChat/Pods/leveldb-library/db/skiplist.h:229-231 | the least key, or none if the list is empty |
| SkipLists.Iterator.SeekToLast | WaffleChat/Pods/leveldb-library/db/skiplist.h:234-239 | the greatest key, or none if the list is empty |
| SkipLists.Iterator.Next | WaffleChat/Pods/leveldb-library/db/skiplist.h:207-210 | the next greater key |
| SkipLists.Iterator.Prev | WaffleChat/Pods/leveldb-library/db/skiplist.h:213-221 | the next smaller key, found by searching from the head |
| SkipListReaders.StepKeepsInv | WaffleChat/Pods/leveldb-library/db/skiplist.h:262-281 | every atomic load and store of the writer and of any reader keeps the shared list in order |
| SkipListReaders.RunKeepsInv | WaffleChat/Pods/leveldb-library/db/skiplist.h:337-368 | so it is after every interleaving |
| SkipListReaders.ReaderCanLoad | WaffleChat/Pods/leveldb-library/db/skiplist.h:150-175 | no reader ever comes to a link that is unset, whatever stale height it started from |
| SkipListReaders.SearchIsLinearizable | WaffleChat/Pods/leveldb-library/db/skiplist.h:262-281 | a finished search gave the first key at or after its target that the list held at one moment between its start and its end |
| SkipListReaders.FoundIsNoLaterThanPresent | WaffleChat/Pods/leveldb-library/db/skiplist.h:262-281 | what it found is in the list for good and no later than any key at or after the target that was present when it began |
| SkipListReaders.SearchIsBounded | WaffleChat/Pods/leveldb-library/db/skiplist.h:262-281 | each load goes down a level, ends the search, or moves to a later key before the target; the moves are bounded by the keys before the target |
| SkipListReaders.StepChangesKeys | WaffleChat/Pods/leveldb-library/db/skiplist.h:362-367 | the one step that changes what the list holds is the store that publishes the new node on the lowest level |
| SkipListReaders.ListedIffLinked | WaffleChat/Pods/leveldb-library/db/skiplist.h:262-281 | the nodes that count as listed are exactly those some link of the lowest level leads to |
| Coding.FixedRoundTrip | WaffleChat/Pods/leveldb-library/util/coding.cc:9-33 | fixed-width little-endian numbers read back |
| Coding.EncodeVarint64 | WaffleChat/Pods/leveldb-library/util/coding.cc:81-90 | the loop emits seven bits a byte, low bits first |
| Coding.GetVarintPtr | WaffleChat/Pods/leveldb-library/util/coding.cc:142-157 | the loop reads the number that starts the bytes, or fails if it does not end in time |
| Coding.VarintRoundTrip | WaffleChat/Pods/leveldb-library/util/coding.cc:81-169 | a varint reads back, whatever follows it |
| Coding.LengthPrefixedRoundTrip | WaffleChat/Pods/leveldb-library/util/coding.cc:98-101 | a length-prefixed string reads back, and what follows is left |
| Logs.UnmaskMask | WaffleChat/Pods/leveldb-library/util/crc32c.h:29-38 | unmasking a masked checksum gives it back |
| Logs.Writer.AddRecord | WaffleChat/Pods/leveldb-library/db/log_writer.cc:34-80 | appends exactly the encoding of the record for the file's length; it terminates although a fragment may be empty |
| Logs.Writer.EmitPhysicalRecord | WaffleChat/Pods/leveldb-library/db/log_writer.cc:82-108 | appends checksum, length, type and payload of one fragment |
| LogReaders.Reader.ReadPhysicalRecord | WaffleChat/Pods/leveldb-library/db/log_reader.cc:189-271 | for any file, well formed or not, the fragment, end of file or bad record that the buffered bytes give, and what is reported |
| LogReaders.Reader.ReadRecord | WaffleChat/Pods/leveldb-library/db/log_reader.cc:56-174 | for any file, the next record put together from fragments, and what is reported; over a whole file these are the complete spans of fragments, as `LogRecords` says |
| LogRecords.RecordsAreWholeSpans | WaffleChat/Pods/leveldb-library/db/log_reader.cc:76-172 | of any file the records are exactly the complete spans of its fragments (a full one, or a first one, then middle ones only, then a last one), all of them and in order; for each other fragment what is reported is said by case: a first one or a full one reports what was gathered before it, a middle or last one without a first reports itself, a bad one what was gathered |
| LogRecords.BytesAreAccounted | WaffleChat/Pods/leveldb-library/db/log_reader.cc:76-172 | of any file every payload byte, and every byte skipped as unreadable, is in a record or in a report, but for those of a record within which the file ends |
| LogRecords.NextIs | WaffleChat/Pods/leveldb-library/db/log_reader.cc:56-174 | from any fragment on, with what is gathered there, the loop returns at the next one that ends a complete span |
| LogRoundTrip.ReadsRecord | WaffleChat/Pods/leveldb-library/db/log_reader.cc:56-174 | a record cut into fragments at any offset is put together again, or found cut off without a report |
| LogRoundTrip.LogReadsBack | WaffleChat/Pods/leveldb-library/db/log_reader.cc:56-174 | what was logged, record by record, is what is read, and nothing is reported |
| LogRoundTrip.CutLogReadsBack | WaffleChat/Pods/leveldb-library/db/log_reader.cc:208-231 | a log cut at any byte gives exactly the records that were written completely, and nothing is reported |
| LogRoundTrip.LogGrows | WaffleChat/Pods/leveldb-library/db/log_writer.cc:27-30 | appending to an existing file extends its log by the record |
| ReservedTypes.EarlyEndIff | WaffleChat/Pods/leveldb-library/db/log_reader.cc:189-271 | the reader takes something for the end of the file before the file ends if and only if a whole fragment of type 5 with a right checksum is next and more is behind it; it never reports that |
| ReservedTypes.SilentlyBadIff | WaffleChat/Pods/leveldb-library/db/log_reader.cc:189-271 | a bad fragment goes unreported if and only if it is a whole one of type 6 with a right checksum, or an empty one of type 0 |
| ReservedTypes.TypeFiveEndsReading | WaffleChat/Pods/leveldb-library/db/log_reader.cc:143-150 | behind a whole fragment of type 5 nothing is read, and nothing reported, not even the record that is being put together |
| ReservedTypes.TypeSixIsSkipped | WaffleChat/Pods/leveldb-library/db/log_reader.cc:152-158 | a whole fragment of type 6 is skipped; only the record that is being put together is reported |
| ReservedTypes.RecordBehindTypeFiveIsLost | WaffleChat/Pods/leveldb-library/db/log_reader.cc:189-271 | a file in which any short record is lost that way, for any checksum |
| Blocks.FastPathIsGeneral | WaffleChat/Pods/leveldb-library/table/block.cc:60-64 | the short cut for one-byte lengths decodes what the general way does |
| Blocks.EntryRoundTrip | WaffleChat/Pods/leveldb-library/table/block.cc:54-74 | an entry decodes to its shared length, key rest and value, whatever follows it, as long as all that stays below 4 GiB |
| Blocks.AcceptedIff | WaffleChat/Pods/leveldb-library/table/block.cc:70-73 | a header is accepted exactly if its entry ends within the entries or the 32-bit sum of its two lengths wraps to one that fits; an accepted entry ends within them exactly if the sum does not wrap |
| Blocks.WrappedHeaderIsAccepted | WaffleChat/Pods/leveldb-library/table/block.cc:70-73 | seven bytes whose lengths wrap to zero and are accepted |
| BlockBuilders.BlockBuilder.Add | WaffleChat/Pods/leveldb-library/table/block_builder.cc:72-105 | the block being built holds what was added: within an interval the entry shares exactly the longest common prefix with the key before, an entry is a restart point exactly if its number is a multiple of the interval, and each offset is that of its entry |
| BlockBuilders.RestartIffMultiple | WaffleChat/Pods/leveldb-library/table/block_builder.cc:79-89 | the restart points of a block are the multiples of the interval and no others |
| BlockBuilders.BlockBuilder.Finish | WaffleChat/Pods/leveldb-library/table/block_builder.cc:62-70 | the finished bytes are a block with that layout, if its lengths and offsets fit 32 bits |
| BlockIters.EntriesAreUnique | WaffleChat/Pods/leveldb-library/table/block.cc:224-250 | the bytes of a block determine its entries |
| BlockIters.Iter.ParseNextKey | WaffleChat/Pods/leveldb-library/table/block.cc:224-250 | for any bytes, reads the entry behind the current value, stops, or runs out of the block, which happens exactly if the entry there is accepted but ends behind the entries; in a built block it never does |
| BlockIters.FitIffNoneRunsOut | WaffleChat/Pods/leveldb-library/table/block.cc:54-74 | no entry that is accepted anywhere in the data runs out of it if and only if no header there has lengths whose sum wraps |
| BlockIters.WrappingBlockRunsOut | WaffleChat/Pods/leveldb-library/table/block.cc:29-44 | a block that opens and runs out at its first entry |
| BlockIters.Iter.Next | WaffleChat/Pods/leveldb-library/table/block.cc:137-140 | in a built block, the next entry |
| BlockIters.Iter.Prev | WaffleChat/Pods/leveldb-library/table/block.cc:142-161 | in a built block, exactly the entry before, or the end mark before the first |
| BlockIters.Iter.Seek | WaffleChat/Pods/leveldb-library/table/block.cc:163-201 | in a built block, the first entry whose key is not before the target |
| BlockIters.Iter.FindRestart | WaffleChat/Pods/leveldb-library/table/block.cc:164-190 | on a built block the binary search succeeds with a restart point whose key is before the target, or the first one, and the key of the next one is not before it |
| BlockIters.Iter.SeekToFirst | WaffleChat/Pods/leveldb-library/table/block.cc:203-206 | in a built block, the first entry |
| BlockIters.Iter.SeekToLast | WaffleChat/Pods/leveldb-library/table/block.cc:208-213 | in a built block, the last entry |
| BlockIters.NewIterator | WaffleChat/Pods/leveldb-library/table/block.cc:254-265 | opening rejects a restart array that does not fit, and a built block opens; a word of its offset is kept |
| BlockIters.BoundedIsSmall | WaffleChat/Pods/leveldb-library/table/block_builder.cc:62-106 | entries that together stay below 4 GiB, counting three five-byte lengths and a restart point each, give a block whose lengths and offsets all fit 32-bit words |
| BlockIters.BuildAndRead | WaffleChat/Pods/leveldb-library/table/block.cc:137-251 | entries built into a block at any restart interval and read from front to back are unchanged, if together they stay below 4 GiB |
| VersionBuilder.Builder.Apply | WaffleChat/Pods/leveldb-library/db/version_set.cc:650-692 | deletions and additions of an edit join those of the earlier ones; a file added again is no longer deleted |
| VersionBuilder.Builder.SaveTo | WaffleChat/Pods/leveldb-library/db/version_set.cc:695-739 | each level is base and added files merged by smallest key, without the deleted ones |
| VersionBuilder.SaveLevel | WaffleChat/Pods/leveldb-library/db/version_set.cc:695-739 | the merge of two sorted lists that leaves out deleted files |
| VersionBuilder.FreshIsSaved | WaffleChat/Pods/leveldb-library/db/version_set.cc:695-739 | what is saved of a run of edits is what the run leaves of the base files, if no number comes twice on a level |
| VersionBuilder.FusedRun | WaffleChat/Pods/leveldb-library/db/version_set.cc:650-754 | a builder fed a run of edits holds what applying them one after the other gives, if no number comes twice on a level |
| VersionBuilder.SavingOnceIsSavingEach | WaffleChat/Pods/leveldb-library/db/version_set.cc:650-754 | saving once after a run of edits gives the same list of files as saving after each |
| EditCoding.EncodeTo | WaffleChat/Pods/leveldb-library/db/version_edit.cc:41-85 | the record of an edit: tagged fields in a fixed order, deleted files in ascending order |
| EditCoding.DecodeFrom | WaffleChat/Pods/leveldb-library/db/version_edit.cc:107-205 | for any bytes, the edit its fields give, or failure |
| EditCoding.EditRoundTrip | WaffleChat/Pods/leveldb-library/db/version_edit.cc:41-205 | decoding a record gives back the edit, but for compaction pointers that the decoded-into edit had before |
| EditCoding.RoundTripIffFresh | WaffleChat/Pods/leveldb-library/db/version_edit.cc:26-39 | decoding gives back exactly the edit if and only if the edit decoded into had no compaction pointers, which clearing does not remove |
| EditCoding.EditIsAbsorbed | WaffleChat/Pods/leveldb-library/db/version_edit.cc:107-205 | a record on top of any edit: of the single fields the later stand, pointers, deletions and files are added, and what follows is left |
| EditCoding.WrongFieldFails | WaffleChat/Pods/leveldb-library/db/version_edit.cc:107-205 | behind any edit an unknown tag, a level that there is not, or an unfinished tag fails the record |
| VersionSets.VersionSet.WriteSnapshot | WaffleChat/Pods/leveldb-library/db/version_set.cc:1088-1116 | the first record of a manifest decodes to an edit with all files, compaction pointers and the comparator's name |
| VersionSets.VersionSet.LogAndApply | WaffleChat/Pods/leveldb-library/db/version_set.cc:801-884 | the edit, completed with the numbers it leaves out, is logged and the version it leads to installed; the manifest goes on rebuilding the installed version |
| VersionSets.VersionSet.ReadManifest | WaffleChat/Pods/leveldb-library/db/version_set.cc:924-970 | for any manifest file, success exactly if nothing is reported as corrupt and every record decodes with the right comparator; then all edits are in the builder and the last of each number is kept |
| VersionSets.VersionSet.Recover | WaffleChat/Pods/leveldb-library/db/version_set.cc:886-1011 | succeeds exactly if the manifest reads without a report and sets the three required numbers; then each level is saved from what the builder makes of the edits, which is what the edits leave if no file number comes twice on a level, and the next file number is above the recorded one |
| VersionSets.RecoverCut | WaffleChat/Pods/leveldb-library/db/version_set.cc:886-1011 | of a manifest cut at any byte exactly the completely logged edits are applied |
| VersionSets.Reopen | WaffleChat/Pods/leveldb-library/db/version_set.cc:886-1011 | recovering what was logged gives the installed version, its log numbers, compaction pointers and last recorded sequence number |
| FilterBlocks.FilterBlockBuilder.GenerateFilter | WaffleChat/Pods/leveldb-library/table/filter_block.cc:51-75 | one filter of the keys that wait, or an empty one, and its offset |
| FilterBlocks.FilterBlockBuilder.StartBlock | WaffleChat/Pods/leveldb-library/table/filter_block.cc:21-27 | as many filters as the new block offset needs, the waiting keys in the first |
| FilterBlocks.FilterBlockBuilder.AddKey | WaffleChat/Pods/leveldb-library/table/filter_block.cc:29-33 | the key waits for the filter of the current block |
| FilterBlocks.FilterBlockBuilder.Finish | WaffleChat/Pods/leveldb-library/table/filter_block.cc:35-49 | filters, offsets, the start of the offsets and the parameter |
| FilterBlocks.ConsultsItsFilter | WaffleChat/Pods/leveldb-library/table/filter_block.cc:90-104 | the filter consulted for an offset is the one of the keys added for its 2 KB range, if all filters together stay below 4 GiB |
| FilterBlocks.NoFalseNegatives | WaffleChat/Pods/leveldb-library/table/filter_block.cc:90-104 | a key that was added may match at the offset of its block, if the policy accepts keys a filter was made from and all filters together stay below 4 GiB |
| PbFields.FieldIter.Next | WaffleChat/Pods/nanopb/pb_common.c:20-76 | the next field, cyclically, with the required-field count, data and size positions that belong to it |
| PbFields.FieldIter.Find | WaffleChat/Pods/nanopb/pb_common.c:78-95 | from any position every field is looked at once: it succeeds exactly if a field that is no extension has the tag, and stops at the first such field from the start position on |
| PbFields.FoundIffField | WaffleChat/Pods/nanopb/pb_common.c:78-95 | the end mark makes a difference only for an empty message, where tag zero is found |
| PbFields.MarkOne | WaffleChat/Pods/nanopb/pb_decode.c:1015-1020 | or-ing the mask of a field into its word marks that field and no other |
| PbFields.WordIsOnes | WaffleChat/Pods/nanopb/pb_decode.c:1054-1069 | a word equals the mask of r ones exactly if it stands for the first r fields of its range and no others |
| PbFields.MarkSeen | WaffleChat/Pods/nanopb/pb_decode.c:1015-1020 | a required field among the first 64 is recorded, any other is not |
| PbFields.AllSeen | WaffleChat/Pods/nanopb/pb_decode.c:1033-1073 | from any position the words pass exactly if each of the first 64 required fields was recorded |
| PbEncoder.OStream.WriteVarint | WaffleChat/Pods/nanopb/pb_encode.c:608-628 | the buffer loop writes the base-128 varint, if there is room |
| PbEncoder.OStream.WriteArray | WaffleChat/Pods/nanopb/pb_encode.c:147-236 | numbers are packed behind their counted size, other items are written with a tag each; it fails exactly on too many items, an item that is too long, or no room |
| PbEncoder.OStream.PackedSize | WaffleChat/Pods/nanopb/pb_encode.c:167-190 | the size of a packed array, known or counted, is that of the bytes written then |
| PbEncoder.OStream.WriteSubmessage | WaffleChat/Pods/nanopb/pb_encode.c:717-765 | size first and message then; it fails exactly on a part that is too long or no room for both |
| PbEncoder.OStream.WriteCounted | WaffleChat/Pods/nanopb/pb_encode.c:740-765 | the second pass writes exactly the bytes the first one counted, at every depth, so its size never changes |
| PbEncoder.OStream.WriteFields | WaffleChat/Pods/nanopb/pb_encode.c:528-550 | all fields in descriptor order; a counting stream counts what a writing one writes |
| PbEncoder.EncodeMessage | WaffleChat/Pods/nanopb/pb_encode.c:528-550 | succeeds exactly if the message fits the buffer and no part is longer than its descriptor allows |
| PbEncoder.GetEncodedSize | WaffleChat/Pods/nanopb/pb_encode.c:567-576 | the size of the bytes encoding gives |
| PbRoundTrip.ZigZagRoundTrip | WaffleChat/Pods/nanopb/pb_encode.c:630-639 | zigzag numbers decode to themselves |
| PbRoundTrip.NumberRoundTrip | WaffleChat/Pods/nanopb/pb_decode.c:1328-1435 | numbers of every kind and width read back, and what follows is left |
| PbRoundTrip.ValueRoundTrip | WaffleChat/Pods/nanopb/pb_decode.c:1519-1541 | a value of any kind, nested to any depth, reads back, and its substream is exactly its bytes |
| PbRoundTrip.MessageIsUsedUp | WaffleChat/Pods/nanopb/pb_decode.c:928-1030 | decoding a message into defaults uses exactly its bytes and leaves what follows to be decoded |
| PbRoundTrip.FieldsRoundTrip | WaffleChat/Pods/nanopb/pb_decode.c:1078-1090 | a message decoded into a structure of defaults is unchanged |
| PbRoundTrip.FieldMerges | WaffleChat/Pods/nanopb/pb_decode.c:406-483 | what one field does to any structure: repeated items are appended, packed or with a tag each, another value replaces the one before, a message is merged, and the other members of its union are unset |
| PbRoundTrip.FieldsMerge | WaffleChat/Pods/nanopb/pb_decode.c:928-1030 | a message decoded on top of any structure is merged into it, at every depth |
| PbRoundTrip.FieldsFail | WaffleChat/Pods/nanopb/pb_decode.c:433-456 | it fails if a repeated field, at any depth, has no room for what is appended |
| PbRoundTrip.ConcatenationMerges | WaffleChat/Pods/nanopb/pb_decode.c:928-1030 | of two messages one behind the other the second is merged into the first if there is room, and otherwise decoding fails |
| PbEvolution.UnknownIsSkipped | WaffleChat/Pods/nanopb/pb_decode.c:319-330 | a value of any kind whose tag no descriptor has leaves the structure as it is and is passed over exactly |
| PbEvolution.UnknownFieldIsSkipped | WaffleChat/Pods/nanopb/pb_decode.c:985-988 | so does a whole field, packed or not |
| PbEvolution.StrayKeys | WaffleChat/Pods/nanopb/pb_decode.c:311-330 | an unknown field of any other wire type is an error, and a tag of zero ends the message |
| PbEvolution.OlderReads | WaffleChat/Pods/nanopb/pb_decode.c:960-988 | a reader that has only some of the fields, wherever the missing ones are, gets of a newer message exactly those |
| PbEvolution.AnyOrder | WaffleChat/Pods/nanopb/pb_decode.c:928-1073 | fields may come in any order and be left out; it is an error exactly if one of the first 64 required ones is left out |
| PbEvolution.OtherWidth | WaffleChat/Pods/nanopb/pb_decode.c:1328-1435 | a number is read into a field of any other width, or is an error exactly if it does not fit; of plain signed numbers the upper half is cut off first |
| PbEvolution.TaggedLikePacked | WaffleChat/Pods/nanopb/pb_decode.c:421-456 | numbers that come with a tag each are appended as packed ones are |
| PbEvolution.LastOneWins | WaffleChat/Pods/nanopb/pb_decode.c:406-483 | two messages one behind the other: repeated fields appended, of a single one the last value with messages merged, of a union the last member alone; an error exactly if there is no room |
| PbRoundTrip.ZeroIsDefault | WaffleChat/Pods/nanopb/pb_encode.c:240-337 | a value that is left out because it is zero is the one a structure starts with |
| PbDecoder.IStream.DecodeVarint32 | WaffleChat/Pods/nanopb/pb_decode.c:186-247 | the byte loop, with its rule for what goes on beyond 32 bits |
| PbRoundTrip.Varint32RoundTrips | WaffleChat/Pods/nanopb/pb_decode.c:186-247 | every 32-bit value reads back from its varint, and what follows is left |
| PbVarints.Decodes32Iff | WaffleChat/Pods/nanopb/pb_decode.c:186-247 | of all 64-bit numbers exactly those of 32 bits are read as they are, and those whose sign bits are set and whose bytes from the sixth on are uniform are read as their low 32 bits; all others fail |
| PbVarints.NegativeReads | WaffleChat/Pods/nanopb/pb_decode.c:219-226 | so a negative 32-bit number in ten bytes reads as its word |
| PbDecoder.IStream.MakeSubstream | WaffleChat/Pods/nanopb/pb_decode.c:372-385 | a substream of the declared length, after which the stream goes on; none if it is longer than the stream |
| PbDecoder.IStream.DecodeField | WaffleChat/Pods/nanopb/pb_decode.c:406-483 | the value of a field joins the structure by its rule: replaced, appended, unpacked, or set with the rest of its union unset |
| PbDecoder.IStream.DecodeStruct | WaffleChat/Pods/nanopb/pb_decode.c:928-1073 | for any bytes, the structure that the fields found with the cyclic iterator and checked with the bitmap give, or failure; what that is for unknown fields, other orders and repeated fields `PbEvolution` says |
| PbDecoder.FoundIsFind | WaffleChat/Pods/nanopb/pb_common.c:78-95 | wherever the iterator stands, the field found is the one with the tag |
| PbDecoder.SeenIffNumbered | WaffleChat/Pods/nanopb/pb_decode.c:1033-1073 | counting required fields by number and looking at them one by one is the same check |
| PbCodec.EncodeAndDecode | WaffleChat/Pods/nanopb/pb_decode.c:1078-1090 | a message that fits its descriptors and the buffer is written and read back unchanged |
| FormatExamples.LogFragment | WaffleChat/Pods/leveldb-library/db/log_writer.cc:82-108 | a fragment written out byte by byte |
| FormatExamples.ManifestRecord | WaffleChat/Pods/leveldb-library/db/version_edit.cc:41-85 | a record with every field written out byte by byte |
| FormatExamples.PackedField | WaffleChat/Pods/nanopb/pb_encode.c:147-236 | the packed field of the Protocol Buffers specification |

## Left out

- The application's own code, network wrappers and generated tables: no logic of this kind.
- Files, directories, `CURRENT`, syncing and I/O errors: a file is a byte sequence and appending to it succeeds, except that a log may be cut at any byte.
- EditCoding.DecodeFrom: takes an internal key with fewer than eight trailer bytes or an unknown type for a failure, where the source keeps its bytes unread, because an internal key is its three parts here.
- A memtable flush while a compaction runs, shutdown, and background errors: between the beginning and the installation of a compaction there are writes, memtable switches and snapshots, but no flush, because its level is checked against the files before the installation only.
- Seek statistics, compaction scores, size estimates and byte sampling: what triggers a compaction is a parameter.
- How a user key is written as bytes: a parameter, which must be readable again for the keys that occur.
- The merging iterator, table and cache: the merge is a sorted merge, a table is its entries with "first entry at or after".
- Db.Database.Write: leaves the log record out, which `WriteQueue` and `Log` have, because files are not part of the store's state.
- Db.Database.CompactMemTable: leaves out the log numbers its edit records, which `VersionSet` has, because there are no log files in `Db`.
- The memtable in `Db` is a sorted sequence; `MemTables` keeps the same contract with the skip list, whose nodes are on the heap.
- A group of the write queue that fails after it was formed: `Commits` has no step for it, because of its operations any first part may be in the memtable.
- The serialized write batch: a batch is its list of operations.
- The circular list of snapshots: live snapshots are a sequence in order.
- Overflow of sums of sizes, but for those of block headers: numbers are unbounded, and what is stored in a word must fit it.
- What the source does after it ran out of a block: undefined; `BlockIters` stops there.
- FilterBlocks.ConsultsItsFilter: asks that all filters together stay below 4 GiB, because the source cuts their offsets off.
- FilterBlocks.NoFalseNegatives: asks the same.
- Weak memory order: loads and stores of the skip list are single steps that interleave; the random height is a parameter.
- Shortening of index keys, prefetching and Snappy: they do not change what is stored.
- Reading a log from an offset other than its start, and reusing a manifest after recovery: not used to rebuild state.
- BlockBuilders.BlockBuilder.Finish: says nothing about a block whose lengths or offsets do not fit 32 bits, because the source cuts them off.
- nanopb callbacks, extensions, pointer fields and fixed-count arrays: they call foreign code, need an allocator, or keep a count outside the structure.
- The width of nanopb's bit position: eight bits, as on the platforms of the application.
- Declared default values of nanopb fields: an absent field has no value, where its place in the structure holds the declared default; a place that is decoded into starts as zero, false or empty.
- nanopb destination memory: structures are values, and where the end mark's bool of an empty message goes is not modelled.
- PbFields.FieldIter.Next: positions are offsets from the start of the structure; padding is whatever the descriptors say.
