# Verification of the storage core of kv_store

The repository serves a key-value store from two engines kept in its tree: LevelDB, a log-structured merge tree, and
memcached, a hash-indexed cache. This project models the parts of both whose correctness is least obvious and proves
that they do what they are for. Every file holds one module; `dafny verify dfyconfig.toml` checks all of them.

## What is proved

**Reads of a changing tree** (`Format`, `Visibility`, `Version`, `ReadPath`, `Compactions`, `LevelEdits`, `Install`,
`SplitKeys`, `Database`, `Snapshots`, `Maintenance`, `InstallReads`, `Boundaries`). A database is memtables, seven
levels of tables, snapshots and perhaps one compaction in progress, during which writes, memtable switches, flushes
and snapshots go on, until a crash and a recovery from the logs. `Database.Get` states the main result: in every state
reachable from an empty database, at the latest sequence number or at a live snapshot, a search that stops at the
first hit returns what the full history of writes says. Read off the run itself: Get returns what the last write of
the key wrote (`Snapshots.GetLastWritten`), and a snapshot keeps showing the moment at which it was taken
(`Snapshots.SnapshotIsolation`). Behind it, `CompactionPreservesMeaning`: a merge drops entries and changes no
reading. The choice of flush level, the overlap closure at level 0, the widening of inputs and the moving pointers of
the base-level test are loops proved against what these theorems need.

The code lets a compaction start from any file. That is wrong when one user key spans two files of a sorted level:
`Boundaries.StaleRead` and `Boundaries.ResurrectedValue` are runs from an empty database to states in which the inputs
that the code chooses bring back an old or a deleted value at the latest sequence number. They need outputs cut in the
middle of a key, which the code does behind entries that fill a two-megabyte file, or before tables further down that
it would overlap too much. `SplitKeys.MergeReadsIff` and `SplitKeys.MoveReadsIff` are the exact conditions on the
levels, and `InstallReads.MergedReadsIff` and `InstallReads.MovedReadsIff` the exact conditions on values, with the
memtables in front: every reader still gets what the write history says if and only if whatever takes the place of an
input entry that can be read shows the same. Runs of `Database` therefore start compactions whose inputs split no user
key, and `Database.ChooseInputs` says that this is the only thing the code's choice does not guarantee.

**Crashes** (`Durability`, `Committed`, `FileLifetimes`, `Log`, `LogAudit`, `Manifest`, `VersionEdits`,
`WriteBatches`, `Coding`). Log, manifest, `CURRENT` and tables form a disk; the process may die between any two steps,
recovery included. At every moment of every run exactly the write groups that were logged are recoverable, but for
what merges drop (`Committed.CommittedIsRecoverable`); file collection removes nothing that a recovery or a reader
needs and can remove everything else (`FileLifetimes.CollectionCompletes`). At the level of bytes, a log cut anywhere
yields the records complete before the cut and no corruption report; for arbitrary bytes `LogAudit.EveryByteAccounted`
says what becomes of each byte, and exactly which frames make the reader lose some without a report. Replaying a
manifest through one builder gives the version that installing its edits one by one gave, exactly under a condition on
how often files are added since their number was last deleted (`Manifest.BatchedIff`). The edits that the code writes
meet it, for they add no file number twice at a level: tables get new numbers from `NewFileNumber`, `ReuseFileNumber`
gives back only the number of a log that was never created (leveldb/db/db_impl.cc:1361), and a trivial move adds a
file to a level at which it has not been.

**Concurrency** (`SkipList`, `SkipRuns`, `GroupCommit`, `CommitRuns`). One writer and any number of lock-free readers
step through single loads and stores: every search is exact for the state of its last load, and no writer can hold it
up (`SkipRuns.SearchIsBounded`). Grouped writers finish in order, once, with consecutive sequence numbers, and a
reader sees all of a batch or nothing of it while the leader is still inserting: the last operation on each key in the
batches applied so far (`GroupCommit.ShowsLastOp`). From every reachable state every waiting writer can be served
(`CommitRuns.QueueDrains`).

**Iterators** (`Cursors`, `Merging`, `TwoLevel`, `UserIterator`, `Scans`). Each is proved to refine a position in a
list, in both directions and across changes of direction. Put together over the memtables and levels of any reachable
database, they show exactly what the write history shows (`Scans.NewIterator`), and over the inputs of a compaction
they walk exactly what it merges.

**Tables as bytes** (`Blocks`, `ByteOrder`, `InternalKeys`, `Bloom`, `FilterBlocks`, `Footers`, `Tables`,
`TableIterators`). From ascending keys to prefix-compressed blocks, shortened separators, filters, metaindex, index
and footer, and back: a lookup that is given nothing but the bytes of the finished file returns the newest entry at or
below its sequence number, and an iterator over them walks every entry.

**Caches** (`HandleTables`, `LruCaches`, `LruRuns`, `Assoc`, `Crawler`, `CrawlRuns`). LevelDB's reference-counted LRU
cache deletes every entry exactly once, when it is neither cached nor held, and over any calls evicts what was used
longest ago (`LruRuns.EvictsLeastRecentlyUsed`). memcached's hash table stays a map at every moment of an incremental
expansion, and its LRU crawler, swapping itself through a doubly linked list, visits every item that stays on the list
once while other threads link and unlink items.

Where the code and its documentation or comments differ, the code is followed: besides the split keys above,
`VersionEdit::Clear` keeps the compaction pointers (`VersionEdits.DecodeEncode`), and the log reader loses bytes
without a report in four ways (`LogAudit.BlankHidesBlock`, `OverlongHidesRest`, `TypeSixVanishes`,
`TypeFiveEndsReading`), although its reporter is promised the bytes dropped (leveldb/db/log_reader.h:22-30); none of
them arises from a log that was written and cut.

## Model

| member | source | states |
|---|---|---|
| Format.InsertEntryMembers | leveldb/db/memtable.cc:82-106 | adding an entry to a memtable changes its contents by that entry only |
| Format.InsertEntrySorted | leveldb/db/memtable.cc:82-106 | adding an entry with a new (key, sequence, type) keeps the memtable in internal key order |
| Format.SeekFindsNewest | leveldb/db/memtable.cc:108-144 | a seek with the lookup key finds the newest entry of the user key at or below the sequence number, and finds nothing exactly when there is none |
| Visibility.DropMarkerKeepsReading | leveldb/db/db_impl.cc:945-971 | a key whose newest readable entry is a dropped deletion marker stays deleted |
| Visibility.DropKeepsReading | leveldb/db/db_impl.cc:945-971 | dropping hidden entries and obsolete markers changes no reading at or above the smallest snapshot, if no value is unmasked |
| Visibility.DropPreservesVisible | leveldb/db/db_impl.cc:945-971 | the two drop rules preserve every reading at or above the smallest snapshot if and only if no obsolete marker masks a value outside the inputs |
| Visibility.VisibleAfterWrite | leveldb/db/memtable.cc:82-144 | a new entry is what readers of its key see next, as value or as nothing; readers of other keys see no difference |
| Version.FindFile | leveldb/db/version_set.cc:77-96 | the binary search returns the first file whose largest key is at or after the target |
| Version.SomeFileOverlapsRange | leveldb/db/version_set.cc:112-147 | true exactly when some file of the level meets the range, by scan at level 0 and by one binary search elsewhere; a missing bound is no bound |
| Version.Widen | leveldb/db/version_set.cc:541-560 | widening the range to a file that meets it stays inside every closed range and opens no gap |
| Version.GetOverlappingInputs | leveldb/db/version_set.cc:522-563 | terminates; at level 0 returns the files meeting the least closed range around the request, elsewhere the files meeting the request |
| Version.PickLevelForMemTableOutput | leveldb/db/version_set.cc:493-519 | skips levels only where the new table meets nothing and overlaps the level below by at most the limit; it stops early exactly for an overlap or too heavy a grandparent overlap |
| Version.GetRange | leveldb/db/version_set.cc:1214-1237 | the least smallest key and the greatest largest key of the files, both attained |
| Version.HullIsRange | leveldb/db/version_set.cc:1240-1246 | meeting the hull of the inputs is meeting the range that GetRange2 computes |
| Version.HullCovered | leveldb/db/version_set.cc:1335-1400 | if the inputs leave no gap, every user key of their range is covered by one of them |
| Version.NextLevelLeavesNoGap | leveldb/db/version_set.cc:1335-1343 | adding the overlapping files of the next level leaves the inputs without a gap |
| Version.ExpandedLeavesNoGap | leveldb/db/version_set.cc:1349-1380 | widening the first input level leaves the inputs without a gap |
| Version.ExpandedInputsOk | leveldb/db/version_set.cc:1349-1380 | the widened inputs are again complete: all overlapping files of the next level, closed at level 0, no gap |
| Version.OverlappingHull | leveldb/db/version_set.cc:1335-1343 | the files of a level that meet the range of the inputs |
| Version.SameMeeting | leveldb/db/version_set.cc:1355-1379 | a wider range that meets no more files than a narrower one meets the same files |
| Version.MeetingInOrder | leveldb/db/version_set.cc:532-560 | the files that meet a range are listed in the order of their level, none twice |
| Version.ExpandLevel | leveldb/db/version_set.cc:1349-1355 | the files of the first input level that meet the whole compaction, a superset of the files picked |
| Version.SetupOtherInputs | leveldb/db/version_set.cc:1335-1400 | the next level contributes exactly the files that meet the picked ones; the picked level is widened, to its files that overlap the whole, if and only if that adds files, adds none of the next level and stays below the expansion limit |
| Version.LevelZeroPickOk | leveldb/db/version_set.cc:1317-1328 | the level-0 files that overlap the picked one, transitively, leave no gap and no overlapping file behind |
| Version.PickCompaction | leveldb/db/version_set.cc:1281-1333 | whatever file the scores or seeks choose, the inputs contain it, are listed in the order of their levels and are complete in the above sense; away from level 0 the next level contributes exactly the files meeting the chosen one, and a file that meets none is compacted alone |
| Version.TotalFileSizeAddsUp | leveldb/db/version_set.cc:49-55 | sizes add up: nothing is 0, one file its own size, two lists their sum |
| ReadPath.InsertNewestFirst | leveldb/db/version_set.cc:274-276 | one step of the sort: same files, newest first |
| ReadPath.SortNewestFirst | leveldb/db/version_set.cc:348-363 | the level-0 candidates are reordered newest first, none lost or added |
| ReadPath.HitAtLevelZero | leveldb/db/version_set.cc:348-363 | the first hit among level-0 files, newest file first, is the newest level-0 entry |
| ReadPath.SearchLevelZero | leveldb/db/version_set.cc:348-363 | level 0 answers with its newest readable entry, or with nothing exactly when it has none |
| ReadPath.FirstFileHoldsNewest | leveldb/db/version_set.cc:364-382 | the one file that the binary search names holds the newest entry of the key in its level |
| ReadPath.SearchSortedLevel | leveldb/db/version_set.cc:364-382 | a sorted level answers with its newest readable entry, or with nothing exactly when it has none |
| ReadPath.FirstHitIsNewest | leveldb/db/version_set.cc:339-417 | where entries get older from level to level, the first level with a readable entry has the newest |
| ReadPath.GetFromLevels | leveldb/db/version_set.cc:323-420 | the search that stops at the first level with a hit returns that hit in every version with sorted levels, and the newest entry of the whole version where entries get older downward; it misses exactly when no level has a readable entry |
| Compactions.Compaction.constructor | leveldb/db/version_set.cc:1437-1447 | a new compaction has its level pointers at the start and has been asked nothing |
| Compactions.Compaction.AdvancePointer | leveldb/db/version_set.cc:1476-1488 | the pointer of a level moves past files ending before the key and tells whether the key is in a file of that level |
| Compactions.Compaction.IsBaseLevelForKey | leveldb/db/version_set.cc:1472-1491 | for keys asked in ascending order, the moving pointers answer exactly what a full scan of all deeper levels would |
| Compactions.FlattenDisjoint | leveldb/db/db_impl.cc:983-1015 | tables cut from one sorted run are disjoint and in order |
| Compactions.HiddenByPredecessor | leveldb/db/db_impl.cc:945-957 | comparing with the entry just before decides whether any newer entry at or below the smallest snapshot hides this one |
| Compactions.ShouldDrop | leveldb/db/db_impl.cc:945-971 | the drop decision is exactly: hidden by a newer entry at or below the smallest snapshot, or an obsolete marker with nothing below |
| Compactions.WriteNext | leveldb/db/db_impl.cc:945-1007 | what has been written stays the survivors of the prefix read so far, in order |
| Compactions.EmitEntry | leveldb/db/db_impl.cc:983-1004 | an entry kept goes to the end of the open output, which is closed when full |
| Compactions.FinishOutput | leveldb/db/db_impl.cc:812-863 | closing an output turns the open builder into the next numbered table, losing nothing |
| Compactions.DoCompactionWork | leveldb/db/db_impl.cc:886-1053 | the outputs are sorted and hold exactly the surviving input entries, wherever outputs are cut |
| LevelEdits.InsertFileDisjoint | leveldb/db/version_set.cc:702-748 | adding a file that overlaps none keeps a level sorted and disjoint |
| LevelEdits.AddFilesDisjoint | leveldb/db/version_set.cc:702-748 | adding disjoint files apart from the present ones keeps a level sorted and disjoint |
| LevelEdits.WithoutDisjoint | leveldb/db/version_set.cc:750-764 | removing files keeps a level sorted and disjoint |
| LevelEdits.FlushKeepsSorted | leveldb/db/db_impl.cc:513-524 | a table flushed to the picked level keeps every deeper level sorted and disjoint |
| LevelEdits.FlushKeepsLevelZero | leveldb/db/db_impl.cc:513-524 | level 0 stays ordered by age: larger file numbers hold newer entries |
| LevelEdits.FlushKeepsOrder | leveldb/db/db_impl.cc:513-524 | shallower levels still hold newer entries of every key than deeper ones |
| LevelEdits.FlushKeepsLevels | leveldb/db/db_impl.cc:487-524 | a flush keeps all three level invariants |
| LevelEdits.ClosedSplitsNothing | leveldb/db/version_set.cc:1281-1400 | closed inputs end in the middle of no user key |
| LevelEdits.RemainderAtLevel | leveldb/db/version_set.cc:1281-1400 | what a sorted input level keeps of an input key is newer, unless the inputs end in the middle of that key |
| LevelEdits.RemainderAtLevelZero | leveldb/db/version_set.cc:1317-1328 | what level 0 keeps of an input key was flushed later and is newer |
| LevelEdits.NothingBeside | leveldb/db/version_set.cc:1335-1343 | no file left at the second input level shares a user key with a first-level input |
| LevelEdits.RemainderIsNewer | leveldb/db/version_set.cc:1281-1400 | at the input levels and above, everything left of an input key is newer, unless the inputs split that key |
| LevelEdits.NothingOlderRemains | leveldb/db/db_impl.cc:958-968 | with closed inputs, no level keeps anything older than a marker that is dropped |
| Install.InstalledMembers | leveldb/db/db_impl.cc:865-884 | an installed compaction leaves at each level the files that were no inputs, and the outputs one level below |
| Install.BesideInputs | leveldb/db/version_set.cc:1335-1343 | a file left at the output level lies wholly before or wholly after all inputs |
| Install.OutputApart | leveldb/db/db_impl.cc:865-884 | outputs overlap no file left at the output level |
| Install.InstallKeepsSorted | leveldb/db/db_impl.cc:865-884 | installing keeps every deeper level sorted and disjoint |
| Install.InstallKeepsOrder | leveldb/db/db_impl.cc:865-884 | installing keeps newer entries above older ones, if no output key crosses a split boundary |
| Install.SplitBreaksOrder | leveldb/db/version_set.cc:1289-1312 | inputs that end in the middle of a surviving key put an older entry above a newer one |
| Install.VanishedKeyLeavesNothing | leveldb/db/db_impl.cc:945-971 | a key headed by an obsolete marker leaves nothing in the outputs |
| Install.OrderKeptIff | leveldb/db/version_set.cc:1281-1400 | for the inputs the code chooses, the age order of levels survives the install if and only if every user key that the first input level ends in the middle of is headed by an obsolete marker (what this means for reads is SplitKeys) |
| Install.InstallKeepsLevels | leveldb/db/db_impl.cc:865-884 | with closed inputs, installing keeps all level invariants |
| Install.InputsOccurOnce | leveldb/db/db_impl.cc:865-884 | no entry of an input occurs in a file that stays |
| Install.InstalledEntries | leveldb/db/db_impl.cc:865-884 | the new version holds the old entries minus those of the inputs plus those of the outputs |
| Install.InstalledDrops | leveldb/db/db_impl.cc:865-884 | the whole version loses exactly the entries the drop rules name |
| SplitKeys.NewerStays | leveldb/db/db_impl.cc:865-884 | an entry newer than the newest input entry of its key is in no input and stays where it is |
| SplitKeys.HiddenHead | leveldb/db/version_set.cc:1289-1400 | beside a split key whose newest input entry is hidden, a read at the first input level finds a newer one |
| SplitKeys.DeeperIsOlder | leveldb/db/version_set.cc:339-417 | if every split is hidden, nothing below the first hit is newer |
| SplitKeys.HiddenSplitsReadRight | leveldb/db/version_set.cc:339-417 | if every split is hidden, every first hit at or above the smallest snapshot is the newest entry |
| SplitKeys.NothingAbove | leveldb/db/version_set.cc:1289-1400 | above the first input level nothing hides the newest input entry of a key at the sequence number at which it can be read |
| SplitKeys.SplitReadsStale | leveldb/db/version_set.cc:1289-1400 | inputs that end in the middle of a key whose newest entry survives and can be read make some first hit stale |
| SplitKeys.ReadsNewestIff | leveldb/db/version_set.cc:1281-1400 | for any outputs that keep the newest entries, all first hits at or above the smallest snapshot are right if and only if every split is hidden |
| SplitKeys.MergeKeepsHeads | leveldb/db/db_impl.cc:945-971 | a merge keeps the newest input entry of a key exactly when it is no obsolete marker, and then nothing newer is made up |
| SplitKeys.MergeReadsIff | leveldb/db/db_impl.cc:886-1053 | after a merge of the inputs that the code chooses, reads find the newest entry if and only if the inputs cut no key whose newest input entry survives and can be read; and the entries still mean the same if and only if no dropped marker masks a value outside the inputs |
| SplitKeys.MoveReadsIff | leveldb/db/db_impl.cc:716-727 | after a trivial move, which keeps all entries, reads find the newest entry if and only if the file that moves does not end in the middle of a key whose newest entry in it can be read |
| Database.WriteKeepsInv | leveldb/db/db_impl.cc:1193-1264 | a write keeps the invariant: the live entries read like the full write history at every live snapshot |
| Database.SwitchKeepsInv | leveldb/db/db_impl.cc:1354-1374 | making the memtable immutable keeps the invariant |
| Database.SnapshotKeepsInv | leveldb/db/snapshot.h:38-58 | a snapshot is taken at the latest sequence number, a release removes the one named, nothing else changes, and the invariant is kept; giving up a compaction or opening an output keeps it too |
| Database.PickKeepsInv | leveldb/db/db_impl.cc:685-768 | starting a compaction of closed inputs keeps the invariant |
| Database.HullMeetsInput | leveldb/db/version_set.cc:493-519 | a table that meets the range of gapless inputs meets one of them |
| Database.FlushMissesHull | leveldb/db/version_set.cc:493-519 | a memtable flushed during a compaction never lands in its key range at the output level or below |
| Database.FlushKeepsPending | leveldb/db/db_impl.cc:533-564 | a flush during a compaction leaves its inputs in place and complete |
| Database.FlushKeepsInv | leveldb/db/db_impl.cc:533-564 | a flush keeps the invariant |
| Database.NothingUnmasked | leveldb/db/db_impl.cc:958-968 | no dropped marker has anything older outside the inputs, in memtables or levels |
| Database.CompactionPreservesMeaning | leveldb/db/db_impl.cc:886-1053 | installing a compaction changes no reading of any key at or above the smallest snapshot, even after writes, flushes and snapshots during the merge |
| Database.CompactionDrops | leveldb/db/db_impl.cc:865-884 | the database loses exactly the entries the drop rules name |
| Database.InstallKeepsInv | leveldb/db/db_impl.cc:865-884 | installing the outputs keeps the invariant |
| Database.MoveKeepsInv | leveldb/db/db_impl.cc:716-727 | a trivial move keeps the invariant |
| Database.RecoveredIsNewer | leveldb/db/db_impl.cc:421-447 | a table made from a log is newer than all levels and than the tables made before it, and older than a memtable that is kept |
| Database.RecoveredLevels | leveldb/db/db_impl.cc:487-524 | adding the recovered tables to level 0 in log order keeps all level invariants and adds exactly their entries |
| Database.RecoveredOrdered | leveldb/db/db_impl.cc:364-485 | after a recovery, flushing the logs or keeping the last one as memtable, nothing is lost and newer entries are still above older ones |
| Database.RecoverKeepsInv | leveldb/db/db_impl.cc:273-362 | a crash and a recovery, which lose snapshots and the compaction in progress, keep the invariant |
| Database.StepKeepsInv | leveldb/db/db_impl.cc:685-768 | every step of the writer, the background thread, and a crash with recovery keeps the invariant |
| Database.ReachableStep | leveldb/db/db_impl.cc:685-768 | a step from a reachable state leads to a reachable state |
| Database.RunKeepsInv | leveldb/db/db_impl.cc:685-768 | every run keeps the invariant |
| Database.ReachableInv | leveldb/db/db_impl.cc:685-768 | the invariant holds in every state reachable from an empty database |
| Database.MemHitIsNewest | leveldb/db/db_impl.cc:1130-1143 | a memtable hit is the newest readable entry of the database |
| Database.ImmHitIsNewest | leveldb/db/db_impl.cc:1130-1143 | a hit in the immutable memtable after a memtable miss is the newest readable entry |
| Database.Search | leveldb/db/db_impl.cc:1130-1143 | the search through memtables and levels stops at the first hit, and finds nothing exactly when no entry of the key is at or below the sequence number; this needs sorted runs only |
| Database.FoundIsNewest | leveldb/db/db_impl.cc:1130-1143 | where entries get older from place to place, what the search finds is the newest readable entry of the database |
| Database.Get | leveldb/db/db_impl.cc:1108-1153 | in every reachable state, crashes and recoveries included, at the latest sequence number or a live snapshot, Get returns what the full write history says |
| Database.CompactMemTable | leveldb/db/db_impl.cc:533-564 | the level picked for a flush always makes the flush step possible |
| Database.ChooseInputs | leveldb/db/db_impl.cc:685-768 | the inputs chosen permit the pick step exactly when they are closed |
| Database.MergeInputs | leveldb/db/db_impl.cc:886-1053 | the merge produces outputs that the install step accepts |
| InstallReads.MergeIsKept | leveldb/db/db_impl.cc:945-971 | a merge drops, of the entries that somebody can read, only markers, and leaves nothing a reader could take for them |
| InstallReads.OutsideIsFound | leveldb/db/db_impl.cc:1130-1143 | a newest entry that is no input is found after the install, whatever the inputs |
| InstallReads.FrontIsFound | leveldb/db/version_set.cc:339-417 | a newest entry that moves down with the outputs is missed if and where something older of its key stays in front |
| InstallReads.LeftIsFound | leveldb/db/version_set.cc:339-417 | a reader who used to stop at a dropped marker goes on to the newest entry left anywhere |
| InstallReads.OutputIsFound | leveldb/db/version_set.cc:339-417 | with nothing in front, the entry is found where it went |
| InstallReads.NothingIsFound | leveldb/db/version_set.cc:339-417 | with nothing left anywhere, nothing is found for a dropped marker |
| InstallReads.ReadsRight | leveldb/db/db_impl.cc:1108-1153 | if whatever takes the place of a readable input entry shows the same, a reader gets the value of before the install |
| InstallReads.InsteadIsRead | leveldb/db/db_impl.cc:1108-1153 | and if it does not, some reader gets another value |
| InstallReads.ValuesKeptIff | leveldb/db/db_impl.cc:865-884 | after the install of any outputs that keep the readable entries, memtables in front: every reader at or above the smallest snapshot gets the same value if and only if whatever takes the place of a readable input entry shows the same |
| InstallReads.MergedReadsIff | leveldb/db/db_impl.cc:886-1053 | for a merge of any inputs the code chooses in a reachable database: every reader still gets what the write history says, under exactly that condition |
| InstallReads.MovedReadsIff | leveldb/db/db_impl.cc:716-727 | the same for any trivial move the code makes |
| Boundaries.StaleRead | leveldb/db/version_set.cc:1289-1312 | for any values: a reachable database, with empty memtables, in which the code picks one file, alone, that ends in the middle of a key: the merge output is that file, and then the latest read finds the older of two values |
| Boundaries.ResurrectedValue | leveldb/db/db_impl.cc:958-968 | for any values: a reachable database, with empty memtables, in which the code picks inputs that end in the middle of a key at the output level: after every merge of them the latest read finds a deleted value |
| Snapshots.TakesLatest | leveldb/db/db_impl.cc:1174-1177 | a snapshot is added at the latest sequence number; no other one moves |
| Snapshots.ReleasesOne | leveldb/db/db_impl.cc:1179-1182 | exactly the snapshot named goes; every other one keeps its sequence number |
| Snapshots.StepKeepsSnapshot | leveldb/db/snapshot.h:38-58 | no step but its own release or a crash moves a snapshot |
| Snapshots.RunKeepsSnapshot | leveldb/db/snapshot.h:38-58 | over any run in which it is not released, a snapshot stays, and so does what was written up to it |
| Snapshots.SnapshotIsolation | leveldb/db/db_impl.cc:1108-1182 | a snapshot that is neither released nor lost in a crash shows the state at which it was taken, for every key, whatever was written, flushed, compacted and released since |
| Snapshots.WriteShows | leveldb/db/db_impl.cc:1193-1264 | after a write its key reads as the value written, or as nothing for a deletion, and every other key as before |
| Snapshots.HistoryIsWritten | leveldb/db/db_impl.cc:1193-1264 | after any run the latest reading of each key is that of the last write of the run to it |
| Snapshots.GetLastWritten | leveldb/db/db_impl.cc:1108-1153 | in every run from an empty database, with flushes, compactions, moves, snapshots and crashes, Get returns what the last write of the key wrote |
| Snapshots.GetAtSnapshot | leveldb/db/db_impl.cc:1108-1153 | however much later, Get at a snapshot returns what the last write before the snapshot was taken wrote |
| Maintenance.PickTakesOldest | leveldb/db/db_impl.cc:899-903 | a compaction works with the smallest sequence number at which anybody reads, and with the levels as they are |
| Maintenance.RecoveryIsEnabled | leveldb/db/db_impl.cc:364-485 | every state can be recovered from its logs |
| Maintenance.FlushMoves | leveldb/db/db_impl.cc:533-564 | a flush empties the immutable memtable into the levels and changes nothing else |
| Maintenance.FlushIsEnabled | leveldb/db/version_set.cc:493-519 | an immutable memtable can always be flushed |
| Maintenance.MemTablesDrain | leveldb/db/db_impl.cc:533-564 | from every reachable state, at most two flushes put everything that is in memory into tables |
| Maintenance.InstallReplaces | leveldb/db/db_impl.cc:865-884 | installing replaces exactly the inputs by the outputs, one level down, and ends the compaction |
| Maintenance.MoveMoves | leveldb/db/db_impl.cc:716-727 | a trivial move takes one file one level down and nothing else |
| Maintenance.GivingUpFrees | leveldb/db/db_impl.cc:770-785 | picking inputs and giving up leaves the database as it was |
| Maintenance.RecoverRestores | leveldb/db/db_impl.cc:273-485 | a recovery brings back every entry, in tables unless the last log is reused, and forgets snapshots and the compaction at work |
| Durability.LogWriteKeeps | leveldb/db/db_impl.cc:1212-1245 | a write group reaches the log of the memtable, whole and with nothing else, and is in flight; the durability invariant is kept |
| Durability.MemInsertKeeps | leveldb/db/db_impl.cc:1212-1245 | applying the group to the memtable, or failing after the log write, keeps it |
| Durability.SwitchKeeps | leveldb/db/db_impl.cc:1354-1374 | a new log and memtable keep it |
| Durability.StartFlushKeeps | leveldb/db/db_impl.cc:487-500 | starting a flush, with its file number pending, keeps it |
| Durability.BuildFlushKeeps | leveldb/db/db_impl.cc:487-524 | writing the table of a flush keeps it |
| Durability.LogFlushKeeps | leveldb/db/version_set.cc:811-894 | appending the edit of a flush to the manifest keeps it |
| Durability.InstallFlushKeeps | leveldb/db/db_impl.cc:533-564 | installing the version of a flush keeps it |
| Durability.MergeStepKeeps | leveldb/db/db_impl.cc:770-785 | starting or abandoning a merge keeps it |
| Durability.BuildOutputKeeps | leveldb/db/db_impl.cc:787-863 | writing an output of a merge keeps it |
| Durability.LogMergeKeeps | leveldb/db/version_set.cc:811-894 | appending the edit of a merge to the manifest keeps it |
| Durability.InstallMergeKeeps | leveldb/db/db_impl.cc:865-884 | installing the version of a merge keeps it |
| Durability.MoveKeeps | leveldb/db/db_impl.cc:716-727 | the edit of a trivial move, which deletes and adds the same file, keeps it |
| Durability.PinKeeps | leveldb/db/version_set.cc:1175-1186 | referencing or releasing a version keeps it |
| Durability.DeleteKeeps | leveldb/db/db_impl.cc:217-271 | collecting a table, log or manifest keeps it |
| Durability.CrashKeeps | leveldb/db/db_impl.cc:273-362 | a crash at any step leaves a recoverable disk |
| Durability.RecoverChunkKeeps | leveldb/db/db_impl.cc:421-448 | flushing part of a log during recovery keeps it |
| Durability.FinishLogKeeps | leveldb/db/db_impl.cc:364-485 | going on to the next log keeps it |
| Durability.CreateLogKeeps | leveldb/db/db_impl.cc:1489-1531 | the new log of a recovery keeps it |
| Durability.ReuseLogKeeps | leveldb/db/db_impl.cc:453-473 | keeping the last log, with its memtable, keeps it |
| Durability.WriteManifestKeeps | leveldb/db/version_set.cc:811-894 | writing a new manifest that nothing names yet keeps it |
| Durability.SwitchCurrentKeeps | leveldb/db/version_set.cc:868-872 | switching CURRENT to the new manifest keeps it |
| Durability.AppendManifestKeeps | leveldb/db/version_set.cc:811-894 | ending a recovery with an edit appended to the reused manifest keeps it |
| Durability.KeepManifestKeeps | leveldb/db/version_set.cc:1018-1047 | ending a recovery with manifest and log as they are keeps it |
| Durability.StepKeepsInv | leveldb/db/db_impl.cc:1489-1531 | every step of writing, flushing, merging, collecting, crashing and recovering keeps it |
| Durability.RunKeepsInv | leveldb/db/db_impl.cc:1489-1531 | every run keeps it |
| Durability.ReachableInv | leveldb/db/db_impl.cc:176-206 | it holds in every state reachable from a new database |
| Durability.CrashLosesNothing | leveldb/db/db_impl.cc:1193-1264 | in every reachable state of a running process, manifest and logs recover exactly the memtables, the tables of the version current or being installed, and the group in flight; with no installation under way that is the current version |
| Durability.RecoveryRestores | leveldb/db/db_impl.cc:1489-1531 | however often recovery itself crashes, and whether it starts a new log and manifest or reuses the last ones, it ends with exactly what was recoverable at the crash, in tables that exist and a memtable, and that is recoverable again |
| Durability.CollectionIsSafe | leveldb/db/db_impl.cc:217-271 | obsolete-file deletion leaves in place, with their contents, all tables of the current version, of the version being installed, of every referenced version, of a merge in progress and its outputs, and of the manifest, and all logs a recovery reads; it never changes what is recoverable |
| Committed.LogWriteRecovers | leveldb/db/db_impl.cc:1221-1232 | logging a group adds exactly that group to what is recoverable |
| Committed.LogMergeRecovers | leveldb/db/version_set.cc:811-894 | logging a merge exchanges the entries of its inputs for those of its outputs |
| Committed.DeleteRecovers | leveldb/db/db_impl.cc:217-271 | collecting a file changes nothing that is recoverable |
| Committed.StepIsRecovered | leveldb/db/db_impl.cc:1193-1264 | no other step, crashes and every step of a recovery included, changes what is recoverable |
| Committed.CommittedIsRecoverable | leveldb/db/db_impl.cc:1193-1264 | over every run from a new database: each entry of each group logged is recoverable unless a merge replaced a table that held it, and everything recoverable was logged or is in the output of a merge; without merges the two are equal, and with merges that drop only given entries they differ in those at most |
| Committed.WriteCompletes | leveldb/db/db_impl.cc:1212-1245 | a write that nothing interrupts is in the memtable, and the next may start |
| Committed.SwitchCompletes | leveldb/db/db_impl.cc:1354-1374 | a full memtable becomes the immutable one; the new one has a new and empty log |
| Committed.FlushCompletes | leveldb/db/db_impl.cc:487-564 | a flush that nothing interrupts ends with the immutable memtable in a table of the version and older logs free to go |
| Committed.MergeCompletes | leveldb/db/db_impl.cc:770-884 | a merge that nothing interrupts ends with the output in place of the inputs, which may go unless a reader holds them |
| Committed.ReuseCompletes | leveldb/db/db_impl.cc:453-473 | a recovery that reuses the last log opens with the entries of that log in memory and writes no table |
| Committed.EveryCrashRecovers | leveldb/db/db_impl.cc:273-485 | every state of every run can crash, and then some steps lead to an open database whose memtable and tables hold exactly what was recoverable |
| Committed.RecoveryCompletes | leveldb/db/db_impl.cc:273-485 | from every state of a recovery some steps lead to an open database, with nothing recoverable gained or lost |
| FileLifetimes.PendingIsExact | leveldb/db/db_impl.cc:487-510 | in every reachable state the numbers in pending_outputs_ are those of the flush and of the compaction at work; none is left over, whether they succeed or fail |
| FileLifetimes.PinnedStays | leveldb/db/version_set.cc:473-481 | a reader that holds a version keeps all its tables, with their contents, whatever is flushed, merged and collected meanwhile |
| FileLifetimes.UnpinUndoesPin | leveldb/db/version_set.cc:473-481 | giving back a version leaves no trace |
| FileLifetimes.CollectAll | leveldb/db/db_impl.cc:217-271 | any set of files that nothing needs can be deleted, and nothing else changes |
| FileLifetimes.CollectionCompletes | leveldb/db/db_impl.cc:217-271 | collection can leave exactly the tables in use or under construction, the logs of the memtables and the current manifest, and what is recoverable stays |
| FileLifetimes.FailureCanCome | leveldb/db/db_impl.cc:636-642 | an error can come at any time, and a compaction can fail until its edit is logged; version, tables and logs stay as they are |
| FileLifetimes.ErrorStopsWrites | leveldb/db/db_impl.cc:636-642 | after a failed compaction or another background error no write is accepted until the database is opened again |
| SkipList.FindGreaterOrEqual | leveldb/db/skiplist.h:261-281 | the descending search finds, at every level, the last node before the key, and at level 0 the exact neighbours of the key |
| SkipList.Splice | leveldb/db/skiplist.h:360-369 | linking a node behind its predecessor keeps a chain sorted and linked and adds that node only |
| SkipList.StartInsertKeepsInv | leveldb/db/skiplist.h:336-362 | starting an insert, with max_height raised before the node is linked, keeps the invariant |
| SkipList.SetOwnKeepsInv | leveldb/db/skiplist.h:365-367 | setting the new node's own pointer keeps the invariant |
| SkipList.PublishKeepsInv | leveldb/db/skiplist.h:368-368 | the publishing store keeps the invariant, with any readers in flight |
| SkipList.ReaderStepOk | leveldb/db/skiplist.h:261-323 | a reader that steps stays on the chain of its level, strictly before its target |
| SkipList.StepKeepsInv | leveldb/db/skiplist.h:336-370 | every step of the writer and of any number of readers keeps the invariant |
| SkipList.RunKeepsInv | leveldb/db/skiplist.h:336-370 | every interleaving keeps the invariant |
| SkipList.ContentsAfter | leveldb/db/skiplist.h:360-369 | only the level-0 publishing store changes the contents, by exactly the new key |
| SkipList.ReadIsLinearizable | leveldb/db/skiplist.h:261-323 | a search answers exactly for the state of its last load, however stale its start height and whatever was inserted meanwhile |
| SkipList.ReaderCanStep | leveldb/db/skiplist.h:150-176 | no reader ever meets an uninitialised pointer |
| SkipList.WriterCanStep | leveldb/db/skiplist.h:360-369 | the writer can always set the next pointer it has to set |
| SkipList.EveryReadIsExact | leveldb/db/skiplist.h:261-323 | in every interleaving from an empty list, a search that ends returns the exact neighbours of its target |
| SkipList.LinkLevel | leveldb/db/skiplist.h:364-369 | one turn of the linking loop adds the node to one level and nothing else |
| SkipList.Insert | leveldb/db/skiplist.h:336-370 | with nobody interfering, the key is added to the lowest `height` levels and nothing else changes |
| Cursors.LowerBoundIs | leveldb/include/leveldb/iterator.h:40-43 | the specification of Seek: everything before the position is before the target, nothing from there on is |
| Cursors.LowerBoundUnique | leveldb/include/leveldb/iterator.h:40-43 | only one position has that property |
| Merging.OwnerAdvances | leveldb/table/merger.cc:59-83 | between two positions of the merge only the child that owns the entry moves |
| Merging.SeekAligns | leveldb/table/merger.cc:51-57 | seeking every child puts all of them at the seek of the merge |
| Merging.MergingIterator.constructor | leveldb/table/merger.cc:16-25 | a new merge of any number of children is not positioned |
| Merging.MergingIterator.IsValid | leveldb/table/merger.cc:31-33 | valid exactly inside the merged list |
| Merging.MergingIterator.Key | leveldb/table/merger.cc:114-122 | the current entry of the merged list |
| Merging.MergingIterator.FindSmallest | leveldb/table/merger.cc:155-168 | picks the child that owns the next entry of the merged list |
| Merging.MergingIterator.FindLargest | leveldb/table/merger.cc:170-183 | picks the child that owns the previous entry of the merged list |
| Merging.MergingIterator.SeekToFirst | leveldb/table/merger.cc:35-41 | refines moving to the first entry of the one sorted list of all children |
| Merging.MergingIterator.SeekToLast | leveldb/table/merger.cc:43-49 | refines moving to its last entry |
| Merging.MergingIterator.Seek | leveldb/table/merger.cc:51-57 | refines moving to its first entry at or after the target |
| Merging.MergingIterator.Next | leveldb/table/merger.cc:59-83 | refines moving to its next entry, after a change of direction too |
| Merging.MergingIterator.Prev | leveldb/table/merger.cc:85-112 | refines moving to its previous entry, after a change of direction too |
| Merging.MergingIterator.SwitchToForward | leveldb/table/merger.cc:61-79 | turning round puts every other child just after the current key |
| Merging.MergingIterator.SwitchToReverse | leveldb/table/merger.cc:87-108 | turning round puts every other child just before the current key |
| TwoLevel.SeekSplits | leveldb/table/two_level_iterator.cc:91-96 | seeking the index and then one block is seeking the whole list |
| TwoLevel.LevelSeparates | leveldb/db/version_set.cc:154-223 | the files of a sorted level, indexed by their largest keys, are such a list, and it is sorted |
| TwoLevel.TwoLevelIterator.constructor | leveldb/table/two_level_iterator.cc:76-86 | a new iterator is not positioned |
| TwoLevel.TwoLevelIterator.IsValid | leveldb/table/two_level_iterator.cc:34-36 | valid exactly inside the concatenation |
| TwoLevel.TwoLevelIterator.Key | leveldb/table/two_level_iterator.cc:37-44 | the current entry of the concatenation |
| TwoLevel.TwoLevelIterator.InitDataBlock | leveldb/table/two_level_iterator.cc:156-170 | opens the block the index stands on, unless it is open already |
| TwoLevel.TwoLevelIterator.SkipEmptyDataBlocksForward | leveldb/table/two_level_iterator.cc:125-136 | goes on to the next block that is not exhausted |
| TwoLevel.TwoLevelIterator.SkipEmptyDataBlocksBackward | leveldb/table/two_level_iterator.cc:138-149 | goes back to the last block that is not empty |
| TwoLevel.TwoLevelIterator.Seek | leveldb/table/two_level_iterator.cc:91-96 | refines a seek in the concatenation of all blocks, empty ones included |
| TwoLevel.TwoLevelIterator.SeekToFirst | leveldb/table/two_level_iterator.cc:98-103 | refines moving to the first entry of the concatenation |
| TwoLevel.TwoLevelIterator.SeekToLast | leveldb/table/two_level_iterator.cc:105-110 | refines moving to the last entry of the concatenation |
| TwoLevel.TwoLevelIterator.Next | leveldb/table/two_level_iterator.cc:112-116 | refines moving to the next entry across blocks |
| TwoLevel.TwoLevelIterator.Prev | leveldb/table/two_level_iterator.cc:118-122 | refines moving to the previous entry across blocks |
| UserIterator.ShownAscends | leveldb/db/db_iter.cc:34-40 | the list the iterator shows has strictly ascending user keys |
| UserIterator.ShownIsVisible | leveldb/db/db_iter.cc:34-40 | a key and value are in that list if and only if Get at the same sequence number would return them |
| UserIterator.SeekCounts | leveldb/db/db_iter.cc:274-286 | an internal seek to (u, s) lands where the shown list is sought to u |
| UserIterator.DBIter.constructor | leveldb/db/db_iter.cc:51-61 | a new iterator is not positioned |
| UserIterator.DBIter.IsValid | leveldb/db/db_iter.cc:65-65 | valid exactly inside the shown list |
| UserIterator.DBIter.KeyValue | leveldb/db/db_iter.cc:66-73 | key and value of the current shown entry, in both directions |
| UserIterator.DBIter.FindNextUserEntry | leveldb/db/db_iter.cc:173-203 | scans forward to the next shown entry, past hidden versions, markers and unreadable entries |
| UserIterator.DBIter.Next | leveldb/db/db_iter.cc:146-171 | refines moving to the next shown entry, after a change of direction too |
| UserIterator.DBIter.FindPrevUserEntry | leveldb/db/db_iter.cc:232-272 | scans backward to the previous shown entry, saving its key and value |
| UserIterator.DBIter.Prev | leveldb/db/db_iter.cc:205-230 | refines moving to the previous shown entry, after a change of direction too |
| UserIterator.DBIter.Seek | leveldb/db/db_iter.cc:274-286 | refines moving to the first shown entry at or after the target |
| UserIterator.DBIter.SeekToFirst | leveldb/db/db_iter.cc:288-297 | refines moving to the first shown entry |
| UserIterator.DBIter.SeekToLast | leveldb/db/db_iter.cc:299-304 | refines moving to the last shown entry |
| Scans.StepKeepsListed | leveldb/db/version_set.cc:702-764 | no step lists a file of level 0 twice, or the inputs of a compaction out of order |
| Scans.ReachableListed | leveldb/db/version_set.cc:702-764 | so in no reachable state |
| Scans.MergeExists | leveldb/table/merger.cc:16-25 | sorted lists that share no entry have a merge |
| Scans.Drain | leveldb/table/merger.cc:35-83 | walking the merging iterator from first to last gives the sorted union of its children |
| Scans.InputListsAre | leveldb/db/version_set.cc:1248-1279 | the iterators of a compaction, one per level-0 file and one per other level, share no entry and have exactly the input entries |
| Scans.CompactInputs | leveldb/db/db_impl.cc:886-1053 | in every reachable state with a compaction, the list that these iterators walk is merged into outputs that the install step accepts |
| Scans.LevelListsAre | leveldb/db/version_set.cc:225-242 | the iterators of the levels share no entry and have exactly the entries of the levels |
| Scans.DbListsAre | leveldb/db/db_impl.cc:1066-1095 | the iterators of memtables and levels share no entry and have exactly the entries of the database |
| Scans.ShowsAll | leveldb/db/db_iter.cc:34-40 | over their merge, the user iterator shows exactly the keys and values that the write history shows |
| Scans.NewIterator | leveldb/db/db_impl.cc:1155-1167 | a new iterator of a reachable database, at the latest sequence number or a live snapshot, walks exactly what the full write history shows there, in order |
| Scans.Scan | leveldb/db/db_iter.cc:146-203 | a scan from first to last returns every visible key with its value, once, in ascending order, and nothing else |
| SkipRuns.ContainsInserted | leveldb/db/skiplist.h:336-370 | in every run the list contains the keys inserted so far, but for one whose node is not linked yet |
| SkipRuns.SearchCompletes | leveldb/db/skiplist.h:261-323 | from every reachable state a search for any target, from whatever height it reads, ends with the exact neighbours of its target |
| SkipRuns.StepGetsCloser | leveldb/db/skiplist.h:261-281 | each load of a search leaves fewer for it to make |
| SkipRuns.SearchIsBounded | leveldb/db/skiplist.h:261-323 | whatever the writer and other readers do meanwhile, the loads of a search are bounded by a number fixed when it starts plus one for every insertion that starts before it ends |
| GroupCommit.BuildBatchGroup | leveldb/db/db_impl.cc:1268-1313 | the group is a prefix of the queue that begins with the leader, ends where the size rule or a sync write under a leader that does not sync stops it, and may contain followers without a batch; the batch is their updates in order |
| GroupCommit.EnqueueKeepsInv | leveldb/db/db_impl.cc:1193-1207 | a writer joining the queue keeps the invariant |
| GroupCommit.PopLeaderKeepsInv | leveldb/db/db_impl.cc:1193-1264 | a leader without a batch, or one that finds no room, leaving alone keeps the invariant |
| GroupCommit.InsertKeepsInv | leveldb/db/db_impl.cc:1231-1233 | one step without the lock inserts the next operation of the group, with its key, type and value, at its own sequence number, and keeps the invariant |
| GroupCommit.ReadingKeepsInv | leveldb/db/db_impl.cc:1108-1153 | a reader picking up the last sequence number keeps the invariant |
| GroupCommit.FinishKeepsInv | leveldb/db/db_impl.cc:1244-1264 | a committed or failed group finishing keeps the invariant |
| GroupCommit.StepKeepsInv | leveldb/db/db_impl.cc:1193-1264 | every step keeps the invariant |
| GroupCommit.RunKeepsInv | leveldb/db/db_impl.cc:1193-1264 | every run keeps the invariant |
| GroupCommit.ReachableInv | leveldb/db/db_impl.cc:1193-1264 | the invariant holds in every reachable state |
| GroupCommit.AllOrNone | leveldb/db/db_impl.cc:1193-1264 | of the operations of a batch, each as an entry of its own key, type and value, a reader at a sequence number it picked up sees all or none, however far the leader has got with inserting |
| GroupCommit.InFlightIsHidden | leveldb/db/db_impl.cc:1221-1244 | a reader sees nothing of a group that is still being inserted |
| GroupCommit.FinishedInOrder | leveldb/db/db_impl.cc:1193-1264 | writers finish in arrival order, each exactly once, with consecutive sequence numbers; a sync write never rides with a leader that does not sync |
| GroupCommit.LogKeepsInv | leveldb/db/db_impl.cc:1221-1230 | logging a group keeps the invariant, which ties log and memtable to the batches |
| GroupCommit.StartKeepsInv | leveldb/db/db_impl.cc:1212-1216 | forming a group keeps the invariant |
| GroupCommit.MemtableIs | leveldb/db/db_impl.cc:1231-1233 | an entry is in the memtable if and only if it is an operation of an applied batch, at the first sequence number of that batch plus its place, or one of the group being inserted that the leader has got to |
| GroupCommit.LogReplays | leveldb/db/db_impl.cc:1221-1232 | the log, replayed from its sequence numbers, gives what is in the memtable, the rest of the group being inserted, the batches of groups that failed after they were logged, and nothing else |
| GroupCommit.ShowsLastOp | leveldb/db/db_impl.cc:1193-1264 | in every state a reader at LastSequence sees of each key the last operation on it in the applied batches, in arrival order |
| CommitRuns.FailureReturns | leveldb/db/db_impl.cc:1223-1264 | a group whose log write or sync fails returns with the error, has used up its sequence numbers and put nothing into the memtable |
| CommitRuns.CallersAreServedInOrder | leveldb/db/db_impl.cc:1193-1264 | after any run the writers that have returned, followed by those queued, are the callers of Write in the order of their calls |
| CommitRuns.ReadingStays | leveldb/db/db_impl.cc:1108-1153 | a sequence number once picked up stays among the readings for the rest of the run |
| CommitRuns.GroupFinishes | leveldb/db/db_impl.cc:1212-1264 | the group of a leader can finish from wherever the leader is, and then all its writers have returned, applied |
| CommitRuns.LeaderFinishes | leveldb/db/db_impl.cc:1268-1313 | a leader with a batch can form a group and finish it |
| CommitRuns.QueueDrains | leveldb/db/db_impl.cc:1193-1264 | from every reachable state the queue can be emptied: every waiting writer returns in its turn, and every one with a batch is applied |
| Coding.FixedRoundTrip | leveldb/util/coding.cc:9-45 | a fixed-width integer decodes to itself |
| Coding.Fixed32RoundTrip | leveldb/util/coding.cc:9-18 | for 32 bits |
| Coding.Fixed64RoundTrip | leveldb/util/coding.cc:20-33 | for 64 bits |
| Coding.FixedListAt | leveldb/util/coding.cc:35-39 | words appended one after the other sit at multiples of four |
| Coding.VarintRoundTrip | leveldb/util/coding.cc:47-96 | a varint followed by anything decodes to its value and its length |
| Coding.VarintFits | leveldb/util/coding.cc:47-96 | a value below 128^k takes at most k bytes |
| Coding.EncodeVarint32 | leveldb/util/coding.cc:47-73 | the unrolled 32-bit encoder agrees with the general encoding |
| Coding.EncodeVarint64 | leveldb/util/coding.cc:81-90 | the 64-bit encoding loop agrees with it too |
| Coding.DecodeVarint | leveldb/util/coding.cc:112-158 | the decoding loop, with wrap-around, reads the value modulo the word size and fails exactly on input without an end in time |
| Coding.GetVarint32Ptr | leveldb/util/coding.cc:112-129 | at most five bytes, modulo 2^32 |
| Coding.GetVarint64Ptr | leveldb/util/coding.cc:143-158 | at most ten bytes, modulo 2^64 |
| Coding.SliceRoundTrip | leveldb/util/coding.cc:98-192 | a length-prefixed slice is read back if and only if it is shorter than 2^32 bytes |
| Coding.Get32Back | leveldb/util/coding.cc:131-141 | a 32-bit varint is read back and the rest of the input left |
| Coding.Get64Back | leveldb/util/coding.cc:160-170 | a 64-bit varint is read back and the rest of the input left |
| Coding.GetSliceBack | leveldb/util/coding.cc:182-192 | a slice is read back and the rest of the input left |
| Log.ExtendConcat | leveldb/util/crc32c.cc:286-329 | extending a checksum piecewise is checksumming the concatenation, whatever the byte step |
| Log.UnmaskMask | leveldb/util/crc32c.h:31-40 | unmasking a masked checksum gives it back |
| Log.FullBlockIsNewBlock | leveldb/db/log_writer.cc:46-56 | a writer at the end of a block encodes like one at the start of the next |
| Log.Writer.constructor | leveldb/db/log_writer.cc:22-26 | a new log is empty |
| Log.Writer.Reopen | leveldb/db/log_writer.cc:28-31 | a reopened writer continues at the offset the file length gives |
| Log.Writer.AddRecord | leveldb/db/log_writer.cc:36-82 | what a record appends depends on the file length alone: fragments that fill blocks, with zero trailers shorter than a header |
| Log.Writer.EmitPhysicalRecord | leveldb/db/log_writer.cc:84-109 | appends checksum, length, type and data, and never crosses a block |
| Log.Reader.constructor | leveldb/db/log_reader.cc:18-30 | a new reader stands at the start and has reported nothing |
| Log.Reader.ReadBlock | leveldb/db/log_reader.cc:195-218 | a used-up full block gives way to the next one |
| Log.Reader.Parse | leveldb/db/log_reader.cc:221-275 | checks length, type and checksum of the record at the front, with the corruption reports of each case |
| Log.Reader.ReadPhysicalRecord | leveldb/db/log_reader.cc:193-275 | the buffered reader returns the physical record found at its file offset |
| Log.Reader.ReadRecord | leveldb/db/log_reader.cc:60-176 | the assembling loop returns the logical record found at its file offset, with every report |
| Log.ReadFragment | leveldb/db/log_reader.cc:193-275 | a fragment written is read back as it was |
| Log.CutFragment | leveldb/db/log_reader.cc:193-255 | a fragment cut short by the end of the file ends the reading quietly |
| Log.ReadEncoded | leveldb/db/log_reader.cc:60-176 | an encoded record, over any number of blocks, is read back whole, or not at all when the file ends inside it, without a report |
| Log.SomeEndBefore | leveldb/db/log_writer.cc:36-82 | for every cut there is a number of records that end at or before it |
| Log.TornTail | leveldb/db/log_reader.cc:60-176 | a log cut at any byte yields, in order, exactly the records that end at or before the cut, and reports no corruption |
| Log.WriteRecords | leveldb/db/log_writer.cc:28-82 | closing and reopening the log between any records changes no byte |
| Log.ReadRecords | leveldb/db/log_reader.cc:60-176 | reading until the end gives all logical records and all reports |
| Log.WriteCutRead | leveldb/db/log_reader.cc:60-176 | write, crash at any byte, recover: a prefix of the records, the longest that was complete |
| LogAudit.PhysicalIsFrame | leveldb/db/log_reader.cc:193-275 | what the reader of physical records finds at an offset is the first frame there that is at least a header long |
| LogAudit.LogicalIsAssembled | leveldb/db/log_reader.cc:60-176 | the reader of logical records does what assembling the frames of the file says |
| LogAudit.ReadAllIsAssembled | leveldb/db/log_reader.cc:60-176 | all records and reports of any file are those assembled from its frames |
| LogAudit.FrameAccounts | leveldb/db/log_reader.cc:89-174 | the bytes of a frame, and those gathered before, are header, returned, still gathered, reported, or skipped without a report |
| LogAudit.FramesAccount | leveldb/db/log_reader.cc:60-275 | the same for all frames, with what is lost behind a record taken for the end of the file |
| LogAudit.FramesCover | leveldb/db/log_reader.cc:193-275 | the frames of a file are all its bytes |
| LogAudit.KeptIff | leveldb/db/log_reader.cc:60-275 | nothing is lost without a report if and only if every frame keeps what it should |
| LogAudit.EveryByteAccounted | leveldb/db/log_reader.cc:60-275 | every byte of any file is header or trailer, returned, reported, in the record the file ends in the middle of, or lost without a report; nothing is lost if and only if no record of type 5 or 6 has a payload, none of type 5 has anything behind it, no header of type and length zero has anything behind it in its block, and a header with a length beyond the end of the file has nothing but its own cut payload behind it |
| LogAudit.EncodedIsClean | leveldb/db/log_writer.cc:36-109 | an encoded record consists of frames of the four types and trailers |
| LogAudit.WrittenIsClean | leveldb/db/log_writer.cc:36-109 | so does a written log |
| LogAudit.CutFrame | leveldb/db/log_reader.cc:193-275 | a cut leaves the frames before it as they are and makes the one it goes through the last |
| LogAudit.CutKeeps | leveldb/db/log_reader.cc:60-275 | no frame of a written log that is cut loses anything |
| LogAudit.TornLogKeepsAll | leveldb/db/log_reader.cc:60-275 | a log that was written and cut anywhere: its bytes are headers and trailers, records returned, and the torn record; nothing is lost and nothing reported |
| LogAudit.BlankHidesBlock | leveldb/db/log_reader.cc:239-245 | a header of type and length zero, followed by anything in its block: nothing is returned or reported and all of it is lost |
| LogAudit.OverlongHidesRest | leveldb/db/log_reader.cc:226-237 | a length beyond the end of the file, followed by anything: nothing is returned or reported, and all of it is lost unless it is the cut payload of that header |
| LogAudit.TypeSixVanishes | leveldb/db/log_reader.cc:155-161 | a record of type 6, with a right checksum, is lost without a report |
| LogAudit.TypeFiveEndsReading | leveldb/db/log_reader.cc:146-153 | a record of type 5, with a right checksum, loses itself and the rest of the file without a report |
| Blocks.CommonPrefix | leveldb/table/block_builder.cc:79-88 | the length of the longest common prefix |
| Blocks.EntriesGrow | leveldb/table/block_builder.cc:95-101 | appending an entry keeps the block a list of well-formed entries |
| Blocks.CompressedGrows | leveldb/table/block_builder.cc:79-101 | every key but those at restart points shares as much as it can with the key before |
| Blocks.BlockBuilder.constructor | leveldb/table/block_builder.cc:39-46 | a new block is empty, with one restart point |
| Blocks.BlockBuilder.Reset | leveldb/table/block_builder.cc:48-55 | a reset block is empty, with one restart point |
| Blocks.BlockBuilder.Add | leveldb/table/block_builder.cc:73-107 | adds exactly one entry, prefix-compressed as far as possible, with a restart point every `interval` entries |
| Blocks.BlockBuilder.Finish | leveldb/table/block_builder.cc:63-71 | appends the restart offsets and their number |
| Blocks.FinishedIsBlock | leveldb/table/block_builder.cc:63-71 | a finished block below 2^32 bytes is a block of what was added |
| Blocks.DecodeEntry | leveldb/table/block.cc:53-74 | the fast path for one-byte lengths agrees with three varints and the bounds test |
| Blocks.EntryDecodes | leveldb/table/block.cc:226-253 | decoding at the offset of an entry finds its lengths, key bytes and value, and the offset of the next entry |
| Blocks.BlockIter.constructor | leveldb/table/block.cc:115-126 | a new iterator is not positioned |
| Blocks.BlockIter.SeekToRestartPoint | leveldb/table/block.cc:104-112 | gets ready to decode the entry of a restart point, without any key before it |
| Blocks.BlockIter.AdvanceRestartIndex | leveldb/table/block.cc:247-250 | the restart index is the last restart point at or before the entry |
| Blocks.BlockIter.ParseNextKey | leveldb/table/block.cc:226-253 | decodes the next entry, or ends behind the last one |
| Blocks.BlockIter.KeyValue | leveldb/table/block.cc:130-137 | key and value of the current entry, rebuilt from compressed bytes |
| Blocks.BlockIter.ValidIs | leveldb/table/block.cc:128-128 | valid exactly on an entry |
| Blocks.BlockIter.Next | leveldb/table/block.cc:139-142 | moves to the next entry |
| Blocks.BlockIter.Prev | leveldb/table/block.cc:144-163 | moves to the previous entry by rescanning from a restart point, and off the list from the first |
| Blocks.BlockIter.SearchRestarts | leveldb/table/block.cc:165-194 | the binary search finds a restart point with every entry before it below the target |
| Blocks.BlockIter.Seek | leveldb/table/block.cc:165-203 | moves to the first entry at or after the target |
| Blocks.BlockIter.SeekToFirst | leveldb/table/block.cc:205-208 | moves to the first entry |
| Blocks.BlockIter.SeekToLast | leveldb/table/block.cc:210-215 | moves to the last entry |
| Blocks.Open | leveldb/table/block.cc:23-38 | finds where the restart array of a block starts and how long it is |
| Blocks.BuildAndOpen | leveldb/table/block.cc:256-266 | a block built from ascending pairs opens as an iterator over exactly those pairs, if and only if it is shorter than 2^32 bytes |
| ByteOrder.LexTotal | leveldb/util/comparator.cc:25-27 | bytewise order is total and antisymmetric |
| ByteOrder.LexTransitive | leveldb/util/comparator.cc:25-27 | and transitive |
| ByteOrder.DiffersAt | leveldb/util/comparator.cc:25-27 | the first byte that differs decides |
| ByteOrder.RankEmbeds | leveldb/util/comparator.cc:25-27 | any finite set of keys embeds in the integers, order and equality included |
| ByteOrder.OneDifference | leveldb/util/comparator.cc:33-37 | two strings have one first difference, where the scan stops |
| ByteOrder.FindShortestSeparator | leveldb/util/comparator.cc:29-51 | a string in [start, limit), no longer than start; it is shortened, at the first byte that differs, exactly when that byte leaves room |
| ByteOrder.FindShortSuccessor | leveldb/util/comparator.cc:53-65 | a string at or after the key, cut behind its first byte that is not 0xff; unchanged exactly for a run of 0xff |
| InternalKeys.MakeKeyParts | leveldb/db/dbformat.cc:12-21 | user key and tag of an internal key are read back |
| InternalKeys.KeyLessTransitive | leveldb/db/dbformat.cc:50-66 | the internal key order is transitive |
| InternalKeys.FindShortestSeparator | leveldb/db/dbformat.cc:68-85 | start itself, or a shorter key with the largest tag whose user key lies strictly between; shortened exactly when the user keys leave room before the last byte |
| InternalKeys.FindShortSuccessor | leveldb/db/dbformat.cc:87-99 | the key itself, or a shorter one with the largest tag and a larger user key; shortened exactly when a byte before the last one can grow |
| Bloom.SetBitIs | leveldb/util/bloom.cc:57-57 | setting a bit sets that bit and no other |
| Bloom.KeyMayMatch | leveldb/util/bloom.cc:63-87 | answers whether all probes of the key find their bit; reserved probe counts match, filters shorter than two bytes do not |
| Bloom.AddHash | leveldb/util/bloom.cc:53-59 | adding a key sets exactly the bits it probes |
| Bloom.CreateFilter | leveldb/util/bloom.cc:35-61 | appends a filter of the prescribed size whose bits are exactly those some key probes; every key it was made from may match |
| Bloom.Delta | leveldb/util/bloom.cc:54-54 | the high 15 and the low 17 bits change places |
| Bloom.BitPosIs | leveldb/util/bloom.cc:54-59 | probe j of a key tests bit (h + j * delta) mod 2^32 mod the number of bits |
| FilterBlocks.FilterBlockBuilder.constructor | leveldb/table/filter_block.cc:18-20 | no filter and no key yet |
| FilterBlocks.FilterBlockBuilder.AddKey | leveldb/table/filter_block.cc:30-34 | the key joins those of the next filter |
| FilterBlocks.FilterBlockBuilder.UserKeys | leveldb/db/dbformat.cc:105-115 | the keys are handed to the policy without their sequence numbers |
| FilterBlocks.FilterBlockBuilder.GenerateFilter | leveldb/table/filter_block.cc:52-76 | the pending keys, none included, get the next filter |
| FilterBlocks.FilterBlockBuilder.StartBlock | leveldb/table/filter_block.cc:22-28 | one filter per 2 KB of offsets, and no key already added changes its filter |
| FilterBlocks.FilterBlockBuilder.Finish | leveldb/table/filter_block.cc:36-50 | the last keys get a filter; then come the offsets and the base |
| FilterBlocks.WriteOffsets | leveldb/table/filter_block.cc:41-49 | the offset array, its start, and the base, in that order |
| FilterBlocks.KeyMayMatch | leveldb/table/filter_block.cc:78-109 | reads the block as the format says; a malformed block matches everything |
| FilterBlocks.NoFalseNegative | leveldb/table/filter_block.cc:78-109 | no key is turned away at an offset it was added under |
| Footers.HandleBack | leveldb/table/format.cc:15-30 | a block handle is read back and the rest of the input left; it takes at most twenty bytes |
| Footers.FooterBack | leveldb/table/format.cc:32-64 | the footer at the end of any file is read back: both handles, past the padding, with the magic number |
| Footers.BadFooterRefused | leveldb/table/format.cc:44-66 | a file that is too short, or does not end in the eight magic bytes, has no footer |
| Tables.ReadBlockBack | leveldb/table/format.cc:66-143 | a block written with its trailer is read back, checksum verified or not |
| Tables.BlocksBefore | leveldb/table/table.cc:226-255 | everything before the block an index seek finds is before the key |
| Tables.NothingFollows | leveldb/table/table.cc:226-255 | if that block holds nothing at or after the key, no later entry has its user key |
| Tables.NotAfterBlock | leveldb/table/table.cc:226-255 | the first entry at or after the key is in that block, or has another user key |
| Tables.BlockSeek | leveldb/table/table.cc:242-247 | seeking in the block stops where a scan of the table would |
| Tables.TurnedAway | leveldb/table/table.cc:233-241 | a key the filter turns away is not in the block |
| Tables.OpenBlock | leveldb/table/table.cc:164-218 | opening a stored block below 2^32 bytes, at any 64-bit offset, gives an iterator over its entries |
| Tables.InternalGet | leveldb/table/table.cc:226-255 | hands over the first entry at or after the key whenever it has the user key looked for; index, filter and block seek change nothing else |
| Tables.LookupSplits | leveldb/db/dbformat.cc:121-138 | the lookup key splits the entries of its user key by sequence number, as bytes |
| Tables.NewestIsFirst | leveldb/table/table.cc:226-255 | the newest entry at or below the sequence number is the first at or after the lookup key |
| Tables.FirstIsNewest | leveldb/table/table.cc:226-255 | and conversely |
| Tables.LookupIsNewest | leveldb/table/table.cc:226-255 | a lookup hands over the newest entry whenever there is one, and never another entry of that user key |
| Tables.IndexAscends | leveldb/table/table_builder.cc:99-106 | every new index key is after those before it |
| Tables.TableBuilder.constructor | leveldb/table/table_builder.cc:63-68 | an empty table |
| Tables.TableBuilder.EmitIndexEntry | leveldb/table/table_builder.cc:99-106 | the index gains one entry: separator and handle of the last block |
| Tables.TableBuilder.Separate | leveldb/table/table_builder.cc:99-106 | the key that the index gets for the last block lies between its last key and the next one |
| Tables.TableBuilder.AddEntry | leveldb/table/table_builder.cc:108-115 | the key goes to the filter and, with its value, to the data block |
| Tables.TableBuilder.Add | leveldb/table/table_builder.cc:92-121 | the table gains exactly one entry; a data block that reaches the block size is flushed |
| Tables.TableBuilder.Flush | leveldb/table/table_builder.cc:123-137 | the data block goes to the file, its handle waits for an index entry, the filter learns the next offset |
| Tables.TableBuilder.WriteBlock | leveldb/table/table_builder.cc:139-173 | the finished block is stored in the file and its builder reset |
| Tables.TableBuilder.WriteRawBlock | leveldb/table/table_builder.cc:175-193 | appends contents, type and checksum; the handle names them |
| Tables.TableBuilder.WriteFilter | leveldb/table/table_builder.cc:207-211 | the filter block written turns away no key of the table, if it is below 2^32 bytes |
| Tables.TableBuilder.FinishIndex | leveldb/table/table_builder.cc:230-237 | the last block gets an index entry at or after every key |
| Tables.TableBuilder.WriteMetaIndex | leveldb/table/table_builder.cc:213-227 | the metaindex block is stored and names the filter block, if there is one, under the name of its policy |
| Tables.TableBuilder.WriteIndex | leveldb/table/table_builder.cc:230-252 | with index and footer written, the file is a table of what was added, if no single block is 2^32 bytes or longer |
| Tables.TableBuilder.Finish | leveldb/table/table_builder.cc:199-254 | the finished file is a footed table of exactly the entries added, unless a single block, or the filter block, is 2^32 bytes or longer |
| Tables.FilterCovers | leveldb/table/filter_block.cc:22-109 | the finished filter block covers every key at the offset of its block |
| Tables.BuildTable | leveldb/table/table_builder.cc:92-254 | any ascending internal keys make a footed file of exactly those entries, with or without a filter; every file is readable whose single blocks stay below 2^32 bytes, whatever its length up to 2^64 |
| Tables.SmallFile | leveldb/table/format.cc:32-64 | a file below 2^32 bytes is always such a file |
| Tables.MetaSeek | leveldb/table/table.cc:104-116 | a seek for a policy name in the metaindex finds the filter exactly when the table has one of that name |
| Tables.ReadMeta | leveldb/table/table.cc:91-141 | a reader gets the filter that was written exactly when its policy has the same name as the one of the writer |
| Tables.OpenTable | leveldb/table/table.cc:38-89 | opening a finished file finds index and filter from its last 48 bytes |
| Tables.Get | leveldb/table/table.cc:38-255 | from the bytes of a finished file alone, a lookup returns the newest entry at or below the sequence number, whatever filter policy the reader has |
| TableIterators.BlockUnique | leveldb/table/block.cc:226-253 | the bytes of a block determine its entries |
| TableIterators.HandleNamesBlock | leveldb/table/two_level_iterator.cc:156-170 | equal handles name the same block, so keeping the open block is right |
| TableIterators.TableIterator.constructor | leveldb/table/two_level_iterator.cc:76-86 | a new iterator of a file is not positioned |
| TableIterators.TableIterator.InitDataBlock | leveldb/table/two_level_iterator.cc:156-170 | opens the block that the index entry names, unless it is open |
| TableIterators.TableIterator.SkipEmptyDataBlocksForward | leveldb/table/two_level_iterator.cc:125-136 | stays at, or goes on to, the same entry of the table |
| TableIterators.TableIterator.SkipEmptyDataBlocksBackward | leveldb/table/two_level_iterator.cc:138-149 | stays, or goes back to the last entry of the block before |
| TableIterators.TableIterator.IsValid | leveldb/table/two_level_iterator.cc:34-36 | valid exactly inside the table |
| TableIterators.TableIterator.KeyValue | leveldb/table/two_level_iterator.cc:37-44 | key and value of the current entry of the table |
| TableIterators.TableIterator.Seek | leveldb/table/two_level_iterator.cc:91-96 | moves to the first entry of the whole table at or after the target, through shortened index keys |
| TableIterators.TableIterator.SeekToFirst | leveldb/table/two_level_iterator.cc:98-103 | moves to the first entry of the table |
| TableIterators.TableIterator.SeekToLast | leveldb/table/two_level_iterator.cc:105-110 | moves to the last entry of the table |
| TableIterators.TableIterator.Next | leveldb/table/two_level_iterator.cc:112-116 | moves to the next entry, across blocks |
| TableIterators.TableIterator.Prev | leveldb/table/two_level_iterator.cc:118-122 | moves to the previous entry, across blocks |
| TableIterators.ScanTable | leveldb/table/table.cc:220-224 | a finished file, opened from its last bytes and walked, gives exactly its entries in order |
| TableIterators.BuildAndScan | leveldb/table/table_builder.cc:92-254 | any ascending internal keys, written to a file below 2^32 bytes and scanned, come back as they were |
| VersionEdits.FieldBack | leveldb/db/version_edit.cc:109-210 | every field is read back and the rest of the input left |
| VersionEdits.DecodeFields | leveldb/db/version_edit.cc:109-210 | decoding any sequence of encoded fields absorbs them in order |
| VersionEdits.DecodeEncode | leveldb/db/version_edit.cc:26-210 | an encoded edit is decoded back if and only if the target has no compaction pointers, which Clear forgets to remove |
| VersionEdits.EncodeTo | leveldb/db/version_edit.cc:41-86 | writes the fields of the edit in order |
| VersionEdits.EncodeLists | leveldb/db/version_edit.cc:62-86 | writes pointers, deleted and new files in order |
| VersionEdits.DecodeFrom | leveldb/db/version_edit.cc:109-210 | the tag loop decodes the fields, and fails exactly on a bad tag, a bad field or an out-of-range level |
| VersionEdits.InsertDeletedOrdered | leveldb/db/version_edit.cc:174-177 | deletions, in whatever order they come, are kept as a set in the order of level and number |
| Manifest.FileLessStrict | leveldb/db/version_set.cc:597-609 | the order of files in a builder is asymmetric |
| Manifest.FileLessTransitive | leveldb/db/version_set.cc:597-609 | and transitive |
| Manifest.SortedUnique | leveldb/db/version_set.cc:597-609 | a sorted list of files is determined by its members |
| Manifest.UpperBound | leveldb/db/version_set.cc:717-722 | the first base file after the added one |
| Manifest.SaveLevel | leveldb/db/version_set.cc:702-748 | the loop merges base and added files and leaves out the deleted ones |
| Manifest.SaveMembers | leveldb/db/version_set.cc:750-764 | a file is saved exactly when it is a base or added file and not deleted |
| Manifest.SaveCount | leveldb/db/version_set.cc:702-748 | a file that is not deleted is saved as often as it is a base or an added file |
| Manifest.SaveOrdered | leveldb/db/version_set.cc:702-748 | saving keeps files in order |
| Manifest.OrderedUnique | leveldb/db/version_set.cc:597-609 | files in order are determined by how often each occurs |
| Manifest.InsertMembers | leveldb/db/version_set.cc:697-698 | adding a file to the set of added files keeps it sorted and adds that file only, re-added files included |
| Manifest.AddFilesIs | leveldb/db/version_set.cc:674-699 | new files are added and taken off the deleted set, re-added files included |
| Manifest.CollectIs | leveldb/db/version_set.cc:656-699 | what a builder has collected from a run of edits: all files ever added, and the numbers deleted and not added since |
| Manifest.DeletedIsDead | leveldb/db/version_set.cc:656-699 | the numbers a builder holds as deleted are those deleted and not added since |
| Manifest.OneByOneCount | leveldb/db/version_set.cc:811-894 | how often a file occurs when a version is installed per edit: once for each time it was added since its number was last deleted, and once as a base file never deleted |
| Manifest.BatchedCount | leveldb/db/version_set.cc:896-1016 | how often it occurs after one batched replay: not at all while its number is deleted, else once as base file and once as added file |
| Manifest.BatchedIff | leveldb/db/version_set.cc:896-1016 | replaying all edits through one builder gives the version that installing them one by one gave if and only if every file is added once in the sense of these two counts, which is a condition on the edits alone |
| Manifest.FreshIsAddedOnce | leveldb/db/version_set.cc:656-699 | edits that never add a known file number again add every file once |
| Manifest.BatchedIsOneByOne | leveldb/db/version_set.cc:896-1016 | so batched replay is exact for edits that never add a known file number again, and the code writes only such edits |
| Manifest.ReaddedFileResurrects | leveldb/db/version_set.cc:656-699 | a file number reused for another file brings the deleted file back in a batched replay, but not one by one |
| Manifest.Builder.constructor | leveldb/db/version_set.cc:622-632 | a builder on a base version has collected nothing |
| Manifest.Builder.Apply | leveldb/db/version_set.cc:656-699 | each level collects the deletions and additions of the edit |
| Manifest.Builder.SaveTo | leveldb/db/version_set.cc:702-748 | each level saves base and added files without the deleted ones |
| Manifest.DecodeInLevels | leveldb/db/version_edit.cc:98-107 | a decoded edit names only existing levels |
| Manifest.DecodeAllBack | leveldb/db/version_edit.cc:41-210 | encoded edits are decoded in order |
| Manifest.Recover | leveldb/db/version_set.cc:896-1016 | succeeds exactly when all records decode under the right comparator and next file, log and last sequence number are present; it gives the batched version, and each counter as the last edit that carries it has it |
| Manifest.SnapshotRestores | leveldb/db/version_set.cc:1092-1120 | a snapshot edit applied to the empty version gives the version back |
| Manifest.ReplayIsInstalling | leveldb/db/version_set.cc:896-1120 | a manifest of a snapshot and later edits recovers the version that installing those edits gave |
| Manifest.OtherComparatorRefused | leveldb/db/version_set.cc:940-948 | a manifest names its comparator and is not recovered under another one |
| Manifest.LatestIsCarried | leveldb/db/version_set.cc:954-972 | the latest value of a counter is that of an edit that carries it, and no later edit carries it |
| Manifest.RecoverWritten | leveldb/db/version_set.cc:896-1120 | recovering an encoded snapshot and later edits gives the version that installing those edits one by one gave, and the counters of the last edits that carry them |
| WriteBatches.UpdateBack | leveldb/db/write_batch.cc:42-80 | an encoded update is read back and the rest of the input left |
| WriteBatches.RecordsBack | leveldb/db/write_batch.cc:42-80 | encoded updates are read back in order |
| WriteBatches.Iterate | leveldb/db/write_batch.cc:42-80 | hands out updates in order; fails exactly on a short batch, a bad record or a wrong count |
| WriteBatches.WriteBatch.constructor | leveldb/db/write_batch.cc:37-40 | an empty batch is twelve zero bytes |
| WriteBatches.WriteBatch.Count | leveldb/db/write_batch.cc:82-84 | the count field is the number of updates |
| WriteBatches.WriteBatch.Extend | leveldb/db/write_batch.cc:86-88 | patching the count and appending records adds those updates only |
| WriteBatches.WriteBatch.Put | leveldb/db/write_batch.cc:98-103 | adds one update at the end |
| WriteBatches.WriteBatch.Delete | leveldb/db/write_batch.cc:105-109 | adds one deletion at the end |
| WriteBatches.WriteBatch.SetSequence | leveldb/db/write_batch.cc:94-96 | changes the sequence number only |
| WriteBatches.WriteBatch.Append | leveldb/db/write_batch.cc:141-145 | adds the updates of the other batch and keeps the sequence number |
| WriteBatches.WriteBatch.InsertInto | leveldb/db/write_batch.cc:112-134 | update i enters the memtable under the sequence number of the batch plus i |
| HandleTables.HandleTable.constructor | leveldb/util/cache.cc:55-56 | an empty table |
| HandleTables.HandleTable.FindPointer | leveldb/util/cache.cc:98-105 | the slot of the name in its chain, or the end of the chain exactly when it is absent |
| HandleTables.HandleTable.Lookup | leveldb/util/cache.cc:58-60 | refines lookup in a map |
| HandleTables.HandleTable.Insert | leveldb/util/cache.cc:62-76 | refines an update of a map, returns what was replaced, and leaves no more elements than buckets |
| HandleTables.HandleTable.Remove | leveldb/util/cache.cc:78-86 | refines removal from a map and returns what was removed |
| HandleTables.HandleTable.Resize | leveldb/util/cache.cc:107-131 | rehashing keeps the map and its size |
| LruCaches.UnrefOk | leveldb/util/cache.cc:191-199 | dropping a reference keeps the books: list, table, reference counts, usage, deletions |
| LruCaches.UncacheOk | leveldb/util/cache.cc:263-270 | taking an entry off list and table leaves one reference to be dropped |
| LruCaches.TouchOk | leveldb/util/cache.cc:214-223 | a hit moves the entry to the newest end, leaves the others in order, hands out one reference and keeps the books |
| LruCaches.ReleaseOk | leveldb/util/cache.cc:225-228 | a client giving back a handle leaves one reference to be dropped |
| LruCaches.AddOk | leveldb/util/cache.cc:230-254 | a new entry keeps the books, with one reference to be dropped if it replaces another |
| LruCaches.EvictsOldest | leveldb/util/cache.cc:255-261 | eviction takes a run of the oldest entries, none while the charges fit, and no client's handle |
| LruCaches.LRUCache.constructor | leveldb/util/cache.cc:175-180 | an empty shard |
| LruCaches.LRUCache.Unref | leveldb/util/cache.cc:191-199 | the last reference, and no other, calls the deleter and gives back the charge |
| LruCaches.LRUCache.Lookup | leveldb/util/cache.cc:214-223 | a hit finds what the table has under the name, hands out a handle and moves the entry to the newest end, the others keeping their order; a miss changes nothing |
| LruCaches.LRUCache.Release | leveldb/util/cache.cc:225-228 | the entry is deleted exactly when it is neither cached nor held any more |
| LruCaches.LRUCache.Erase | leveldb/util/cache.cc:263-270 | the entry leaves list and table, and is deleted at once exactly when no client holds it |
| LruCaches.LRUCache.Drop | leveldb/util/cache.cc:255-261 | the same for the entry at a place on the list |
| LruCaches.LRUCache.Insert | leveldb/util/cache.cc:230-261 | the new entry is the newest, replaces one of its name, and the oldest go, no more than it takes, until the charges fit or none is left |
| LruCaches.LRUCache.Prune | leveldb/util/cache.cc:272-283 | exactly the entries a client holds stay, in order |
| LruCaches.RemoveOk | leveldb/util/cache.cc:255-270 | an entry leaving the cache keeps the books and the order of the others |
| LruCaches.ReleasedIs | leveldb/util/cache.cc:225-228 | a handle given back deletes the entry exactly when neither the cache nor a client refers to it any more |
| LruCaches.PrunedIs | leveldb/util/cache.cc:272-283 | pruning keeps the books and leaves exactly the held entries, in order |
| LruCaches.LRUCache.Place | leveldb/util/cache.cc:234-254 | the new entry takes the place of one with its name |
| LruRuns.RunOk | leveldb/util/cache.cc:191-283 | after any calls the books are right: nothing is deleted twice, lost, or miscounted |
| LruRuns.StepAscending | leveldb/util/cache.cc:214-283 | every call keeps the list in order of last use |
| LruRuns.ListIsInOrderOfUse | leveldb/util/cache.cc:214-261 | after any calls of Insert, Lookup, Release, Erase and Prune the list runs from the entry inserted or found longest ago to the one inserted or found last |
| LruRuns.EvictsLeastRecentlyUsed | leveldb/util/cache.cc:255-261 | what an insertion evicts was used longer ago than everything that stays |
| LruRuns.EvictsNoMore | leveldb/util/cache.cc:255-261 | eviction stops as soon as the charges fit |
| LruRuns.HitIsLastInserted | leveldb/util/cache.cc:214-261 | whatever was evicted, a hit finds the value inserted last under its name and not erased since |
| Assoc.SplitsInTwo | memcached/memcached/assoc.c:217-256 | an old bucket splits into two buckets of the doubled table and no others |
| Assoc.AssocTable.constructor | memcached/memcached/assoc.c:63-76 | an empty table |
| Assoc.AssocTable.Find | memcached/memcached/assoc.c:78-102 | refines lookup in a map, at every moment of an expansion |
| Assoc.AssocTable.Insert | memcached/memcached/assoc.c:156-180 | refines adding a key to a map, at every moment of an expansion |
| Assoc.AssocTable.Delete | memcached/memcached/assoc.c:107-202 | refines removing a key from a map, at every moment of an expansion |
| Assoc.AssocTable.Expand | memcached/memcached/assoc.c:126-145 | starting an expansion, or failing to, keeps the map |
| Assoc.AssocTable.MigrateBucket | memcached/memcached/assoc.c:217-256 | moving one old bucket keeps the map; the last one ends the expansion |
| Assoc.AssocTable.FinishExpansion | memcached/memcached/assoc.c:210-272 | left alone, the expansion ends with the same map |
| Assoc.LowBitsIs | memcached/memcached/assoc.c:38-39 | masking a hash value gives its remainder by the number of buckets |
| Crawler.Queue.constructor | memcached/memcached/items.c:272-287 | an empty list |
| Crawler.Queue.LinkQ | memcached/memcached/items.c:272-287 | the item becomes the head of a well-linked list |
| Crawler.Queue.Unlink | memcached/memcached/items.c:295-312 | taking out an item, wherever it is, leaves a well-linked list of the others |
| Crawler.Queue.UnlinkQ | memcached/memcached/items.c:295-315 | the same, with the size counted down |
| Crawler.Queue.CrawlerLinkQ | memcached/memcached/items.c:1093-1112 | the crawler becomes the tail, and the size does not count it |
| Crawler.Queue.CrawlerUnlinkQ | memcached/memcached/items.c:1114-1133 | takes the crawler off, unless it has been popped already |
| Crawler.Queue.CrawlQ | memcached/memcached/items.c:1137-1190 | hands out the item before the crawler and swaps the two; at the head it pops off |
| Crawler.Queue.PopHead | memcached/memcached/items.c:1139-1151 | popping the crawler at the head leaves the other items |
| Crawler.Queue.SwapBack | memcached/memcached/items.c:1152-1188 | the pointer surgery swaps two neighbours of a doubly linked list and moves nothing else |
| Crawler.Swapped | memcached/memcached/items.c:1152-1188 | a swap keeps the count of real items |
| Crawler.RealsWithout | memcached/memcached/items.c:295-315 | removing an item changes the count by that item |
| Crawler.MidwayStep | memcached/memcached/items.c:1245-1267 | between two steps the list is: items not visited, crawler, survivors among the visited |
| Crawler.Crawl | memcached/memcached/items.c:1235-1267 | a full crawl hands out every item exactly once, from tail to head, and leaves exactly the survivors, in order |
| CrawlRuns.LinkKeeps | memcached/memcached/items.c:272-287 | linking an item between two steps keeps the crawl invariant |
| CrawlRuns.UnlinkKeeps | memcached/memcached/items.c:295-315 | unlinking another item between two steps keeps it |
| CrawlRuns.StepKeeps | memcached/memcached/items.c:1137-1190 | a step of the crawler keeps it |
| CrawlRuns.RunKeeps | memcached/memcached/items.c:1245-1267 | every interleaving keeps it |
| CrawlRuns.EachStayingItemOnce | memcached/memcached/items.c:1235-1267 | among any threads that link and unlink items between the steps, every item that stays on the list is handed out at most once at any time and exactly once when the crawler comes off at the head, from tail to head |
| CrawlRuns.RunOn | memcached/memcached/items.c:1137-1267 | on the linked items themselves, every such interleaving keeps the list well linked and does what the runs say |
| CrawlRuns.CrawlIsBounded | memcached/memcached/items.c:1242-1310 | whatever other threads do, the crawler takes at most as many steps as there are items in front of it when it starts, one more, and one for every item linked meanwhile |
| CrawlRuns.CrawlEnds | memcached/memcached/items.c:1242-1310 | left alone it comes off the list after exactly that many steps |
| CrawlRuns.UnlinkUndoesLink | memcached/memcached/items.c:272-310 | an item not on the list can be linked, and unlinking it undoes that |

## Left out

- Database.StepKeepsInv: a compaction starts only from inputs that split no user key, because without this the claim is false (`Boundaries.StaleRead`); the exact conditions for reads are `InstallReads.MergedReadsIff` and `InstallReads.MovedReadsIff`.
- Database.Get: user keys are integers with the order of the keys; `ByteOrder.RankEmbeds` shows that nothing is lost for any finite set of keys.
- Database.RecoverKeepsInv: the crash comes between two write groups; what a crash leaves of a group in flight is stated by `Durability.CrashLosesNothing`.
- Version.PickCompaction: the scores, compaction pointers and seek counts that choose a level and a file are left open, so every choice is covered and none is predicted.
- Compactions.DoCompactionWork: where outputs are cut (ShouldStopBefore and the size limit) is left open; the result does not depend on it.
- Scans.NewIterator: the iterator walks the state at its creation, which the code keeps alive by references; the counting of these references is not modelled.
- LogAudit.EveryByteAccounted: reading starts at offset 0; a read error of the file system is not modelled.
- Durability.CrashLosesNothing: a failed or partial append is a torn tail of the log and of no other file; sync is an append that has arrived, so writes lost from an unsynced operating system buffer are not modelled.
- SkipList.EveryReadIsExact: loads and stores are atomic steps in program order; weaker memory orders, and the barriers that exclude them, are not modelled.
- GroupCommit.AllOrNone: condition variables and the mutex appear as the choice of the next step; that every writer can finish is `CommitRuns.QueueDrains`, that the scheduler lets it is not stated.
- GroupCommit.BuildBatchGroup: the copying into a temporary batch is not modelled, since the batch is a value; `WriteBatches.WriteBatch.Append` models it on bytes.
- Merging.MergingIterator.Next: two children never hold equal internal keys, which LevelDB's unique sequence numbers guarantee.
- UserIterator.DBIter.Next: internal keys that do not parse, and read sampling, are not modelled.
- Log.Reader.ReadRecord: an initial offset above 0 and the offset of the last record are not modelled; read errors of the file system are not modelled.
- Log.UnmaskMask: the checksum is an arbitrary byte step, so no statement says that CRC-32C detects an error.
- Blocks.BlockIter.Seek: the iterator walks a block that a builder wrote; of damaged blocks only the reaction to a bad entry is modelled.
- Tables.TableBuilder.Finish: Snappy compression is not modelled, so every block is stored raw.
- Tables.Get: every single block, and the filter block, is shorter than 2^32 bytes, because restart points and filter offsets are 32-bit words.
- Tables.OpenTable: of damaged files only a short one or one with a bad footer is modelled (`Footers.ReadFooter`).
- Manifest.BatchedIff: two files with the same smallest key and number are one file, as they are for the builder's ordered set.
- Bloom.KeyMayMatch: the hash is an arbitrary function, so no false-positive rate is stated.
- Manifest.Builder.Apply: compaction pointers and the allowed-seeks counter of a file are not modelled.
- WriteBatches.WriteBatch.Put: a batch holds fewer than 2^31 updates, as its signed count demands.
- LruCaches.LRUCache.Insert: the circular list is a sequence of allocation numbers, and one shard stands for the sixteen; pointer surgery of this list is not captured.
- HandleTables.HandleTable.Insert: chains are sequences of slots; updates through pointers to pointers are not captured.
- Assoc.AssocTable.Insert: chains are sequences of items; the wrap-around of the item counter and the load that triggers an expansion are left open.
- Crawler.Crawl: no limit on the items visited; the per-item locks and the expiry test are a given set of items. Other threads are in `CrawlRuns.EachStayingItemOnce`.
- Manual compaction (CompactRange), approximate sizes, properties, repair and DestroyDB: they would add easy members, and manual compaction shares the input selection modelled here.
- Snapshots as a circular list: the list is a sequence of sequence numbers.
- Write throttling, scheduling and shutdown of the background thread: they change when steps happen, not what steps do.
- The kv_server front end, the benchmarks, memcached's protocol, slabs and network code.
