# LevelDB and nanopb, modelled and proved

The application vendors two libraries whose logic is modelled here: LevelDB
(`AppChat/Pods/leveldb-library`), the storage engine, and nanopb
(`AppChat/Pods/nanopb`), the message codec. The project states what each part
promises and proves it, from single bytes up to whole runs.

## What is proved

- **The database is a multi-version map.** Its history is the list of committed
  writes. In every state that writes, memtable switches, flushes, snapshots and
  compactions within the limits below can reach, a read at a live snapshot returns
  the value after that many writes, although searches stop at the first place that
  answers and compactions drop versions (`Versions`, `Compaction`, `Lsm`,
  `Database`, `DbImpl`).
- **Compactions run beside everything else, and their limits are exact.** Writes,
  memtable switches, flushes and snapshots may come between the start of a merge
  and its installation. Above level 0 the code does not widen its inputs when one
  user key spans two files. For every choice of inputs the code may make,
  `CompactionLimits` gives the condition under which a merge keeps the order of
  the levels and every read, in both directions; for a trivial move it is that
  the right neighbour does not share the boundary key (`DbImpl.TrivialMoveExact`).
  Concrete levels show the damage otherwise, once in a form that only a crash
  brings to light (`SplitKeys`).
- **The choice of compaction inputs is sound** in what it does promise: level 0
  inputs leave nothing overlapping behind, growth never changes the lower inputs,
  and automatic compactions leave no gap between their inputs (`Inputs`), so a
  flush in the middle of one never lands where an output will lie. A manual
  compaction of level 0 or 1 may leave a gap; then it can, and a read goes wrong
  (`FlushGap`). Deeper down it cannot, because no memtable is filed below level 2.
- **A crash loses no more than the ends of the logs.** Within limits that are exact
  again, the table files alone serve the history up to the last flush, and the live
  logs hold the rest (`Durability`). Wherever those are cut off, opening gives a
  valid database whose history is the old one with the lost writes blanked out: a
  prefix of it, unless the newer of two live logs kept writes behind some that the
  older one lost (`CrashRecovery`).
- **The MANIFEST replays to the current version** after any number of edits
  (`Manifest`), and its records round-trip as bytes (`VersionEditCodec`).
- **The skip list works under concurrency.** One writer's stores and any number
  of readers' loads interleave freely; every level stays sorted and nested and
  every search is right for the keys present when it began (`SkipList`,
  `SkipListRuns`), and the sequential methods meet the same specification
  (`SkipListImpl`).
- **Iterators are cursors over lists**, through every change of direction: the
  live pairs of a snapshot, the union of many children, the concatenation of
  many blocks, the entries of one prefix-compressed block (`DbIter`, `Merger`,
  `TwoLevel`, `BlockIter`). Over a database in any valid state they show the map
  after the first `snapshot` writes (`DbIterators`).
- **Group commit is linear and atomic** in every interleaving of callers
  (`GroupCommit`), and each of its steps is one operation of the database or none
  (`GroupCommitDb`).
- **The log survives truncation at any byte**, and recovery rebuilds exactly the
  surviving batches (`LogWriter`, `LogReader`, `LogRecovery`, `WriteBatch`); the
  word-at-a-time checksum is the byte-at-a-time one (`Crc`).
- **A table is searched in one block** and nothing is missed, filters included
  (`Table`, `TableBuilder`, `Block`, `Bloom`, `FilterBlock`), from the entries added
  to the answer read off the file's bytes (`TableFile`).
- **The cache's counts, lists and table agree** after every operation and every
  deleter runs once (`HandleTable`, `LruCache`).
- **nanopb's two passes agree and messages round-trip**, for nested messages of
  any depth, exactly when every string leaves room for its terminator: the encoder
  also takes one that fills its array (`NanopbTypes` to `NanopbRoundTrip`; Protocol
  Buffers Encoding guide, sections "Base 128 Varints", "Signed Integers" and "Packed
  Repeated Fields").

## How it is modelled

Objects that the source updates in place are classes whose methods carry the
source's branches and loops; each is proved against a function or a ghost value
that says what it stands for. Protocols in which threads interleave are state
machines over their atomic steps. Above the byte formats a user key is its rank
in the bytewise order, a real number; `Keys.RankOrder` shows that nothing is lost
by it. Machine words that can wrap are written out as remainders or bit vectors.

Hypotheses carried by contracts:

- a compaction's inputs are ones SetupOtherInputs returns (`CompactionLimits.Picked`),
  which `Inputs.PickCompaction` and `Inputs.CompactRange` establish; nothing is
  assumed about boundaries between files;
- versions have distinct sequence numbers, fewer than 2^56 - 1 of them, which the
  database establishes itself; merged iterators require distinct internal keys;
- no file number is added again to a level that held it, which the database
  establishes for its own edits and `Recover` requires of a foreign log;
- strings and blocks are shorter than 4 GB where their lengths are 32 bits wide.

## Model

| member | source | states |
|---|---|---|
| `Keys.RankOrder` | AppChat/Pods/leveldb-library/util/comparator.cc:25-27 | ranks of byte strings compare exactly as the bytewise comparator compares the strings, and distinct strings have distinct ranks, so ranks may stand for user keys |
| `Keys.LookupKeyBound` | AppChat/Pods/leveldb-library/db/dbformat.cc:50-66 | an internal key sorts before the lookup key of (user key, snapshot) iff its user key is smaller, or equal with a sequence number above the snapshot |
| `Mvcc.WriteKeepsReads` | AppChat/Pods/leveldb-library/db/memtable.cc:82-106 | adding the next version to the store keeps every read at every snapshot equal to the value after that many writes, the new snapshot included |
| `Mvcc.FirstAnswerWins` | AppChat/Pods/leveldb-library/db/db_impl.cc:1131-1142 | where one place holds only newer versions of each key than the next, the newest visible version of the first place is the newest of both |
| `Versions.FindFile` | AppChat/Pods/leveldb-library/db/version_set.cc:86-105 | binary search returns the first file whose largest key is not before the target |
| `Versions.GetInLevel` | AppChat/Pods/leveldb-library/db/version_set.cc:373-389 | looking into the one file found answers for the whole level: the newest visible version of the key, or none |
| `Versions.LevelSearchIsLocal` | AppChat/Pods/leveldb-library/db/version_set.cc:373-389 | no other file of a sorted level can hold a visible version that matters, even when one user key spans several files |
| `Versions.SortNewestFirst` | AppChat/Pods/leveldb-library/db/version_set.cc:283-285 | the level-0 files searched are the same files, ordered by strictly falling file number |
| `Versions.GetInLevel0` | AppChat/Pods/leveldb-library/db/version_set.cc:357-372 | searching overlapping files newest first and stopping at the first hit returns the newest visible version of level 0 |
| `Versions.Get` | AppChat/Pods/leveldb-library/db/version_set.cc:332-429 | under the recency invariant the level-by-level search that stops at its first hit returns the newest visible version of all levels |
| `Database.SearchInOrder` | AppChat/Pods/leveldb-library/db/db_impl.cc:1128-1142 | memtable, then immutable memtable, then files, stopping at the first answer, is the right answer for all contents together |
| `DbImpl.DB.Get` | AppChat/Pods/leveldb-library/db/db_impl.cc:1109-1154 | in every state kept by the other operations, a read at a live snapshot returns the value of the key after the first `snapshot` committed writes |
| `DbImpl.DB.Add` | AppChat/Pods/leveldb-library/db/memtable.cc:82-106 | inserts one version at its place in the sorted memtable and keeps places ordered by recency and reads faithful to the longer history |
| `DbImpl.DB.InsertInto` | AppChat/Pods/leveldb-library/db/write_batch.cc:111-134 | a batch extends the history by its writes in order, and the memtable gains exactly their versions, with consecutive sequence numbers |
| `DbImpl.DB.ApplyBatch` | AppChat/Pods/leveldb-library/db/db_impl.cc:1217-1247 | after a batch is applied the invariant holds for the longer history and the last sequence number is its length; a database that could be recovered still can, from a log with one more batch |
| `DbImpl.DB.SwitchMemtable` | AppChat/Pods/leveldb-library/db/db_impl.cc:1354-1376 | the memtable becomes the immutable one and its log the older log, a new empty memtable and log take their place, and nothing readable or recoverable changes |
| `DbImpl.DB.GetSnapshot` | AppChat/Pods/leveldb-library/db/snapshot.h:42-51 | the new snapshot is the current last sequence number and joins the end of the list |
| `DbImpl.DB.ReleaseSnapshot` | AppChat/Pods/leveldb-library/db/snapshot.h:53-59 | exactly that snapshot leaves the list |
| `DbImpl.DB.SmallestSnapshot` | AppChat/Pods/leveldb-library/db/db_impl.cc:900-904 | the number used for dropping is at most every live snapshot and every later one, and at least every number used before |
| `DbImpl.DB.CompactMemTable` | AppChat/Pods/leveldb-library/db/db_impl.cc:534-565 | the immutable memtable becomes a file at the level PickLevelForMemTableOutput chooses, so at 2 at most; what is stored stays the same, the invariant is kept, and the files alone now serve what the older log held |
| `DbImpl.DB.TrivialMove` | AppChat/Pods/leveldb-library/db/db_impl.cc:717-727 | exactly the file is re-filed one level down, and the invariant is kept iff the level is 0 or no right neighbour shares its last user key; recoverability is always kept |
| `DbImpl.DB.MergeInputs` | AppChat/Pods/leveldb-library/db/db_impl.cc:887-1046 | the outputs hold exactly the kept versions of the merged inputs, in order, in non-empty files with fresh numbers |
| `DbImpl.DB.InstallCompactionResults` | AppChat/Pods/leveldb-library/db/db_impl.cc:866-885 | on levels that writes, snapshots and flushes have moved on since the merge began, the outputs take the inputs' place; the invariant is kept iff the inputs were harmless and the outputs fit between the files of the lower level, and recoverability iff no dropped marker hides, among the files alone, a value the two levels keep |
| `DbImpl.DB.RunCompaction` | AppChat/Pods/leveldb-library/db/db_impl.cc:887-1046 | a whole compaction with any writes, memtable switches, flushes and snapshots between its start and its installation: all those writes are in the history, and afterwards the invariant holds iff the inputs were harmless at the start and no output spans a file flushed since; none does at level 2 and deeper, when the inputs leave no gap, or when nothing was flushed; recoverability is kept iff no marker dropped hides a value among the files alone, for which it is enough that none did at the start |
| `DbImpl.DB.StartCompaction` | AppChat/Pods/leveldb-library/db/db_impl.cc:900-911 | the smallest snapshot is the one of the moment, the outputs are the rewritten inputs, and their file numbers are reserved until they are installed |
| `DbImpl.DB.Concurrently` | AppChat/Pods/leveldb-library/db/db_impl.cc:907-927 | each step of other work during a merge has its effect, keeps the invariant and recoverability, changes no version that was there, lowers no snapshot, and adds a file only by a flush, to the level PickLevelForMemTableOutput chooses |
| `DbImpl.DB.constructor` | AppChat/Pods/leveldb-library/db/db_impl.cc:1490-1522 | a new database is valid and recoverable: its log is entered into the descriptor log before it is used |
| `DbImpl.TrivialMoveExact` | AppChat/Pods/leveldb-library/db/db_impl.cc:717-727 | the tree invariant survives a trivial move iff the level is 0 or the moved file's right neighbour does not share its last user key |
| `Compactions.Compaction.IsBaseLevelForKey` | AppChat/Pods/leveldb-library/db/version_set.cc:1484-1503 | over nondecreasing keys the cursor-based test is true iff no file two or more levels down has a range containing the key, whatever early returns left behind |
| `Compactions.DoCompactionWork` | AppChat/Pods/leveldb-library/db/db_impl.cc:917-1021 | the loop with its running last-sequence variable keeps exactly the versions that are neither shadowed at the smallest snapshot nor obsolete deletion markers, whatever the output-size policy |
| `Compactions.ShadowedByPredecessor` | AppChat/Pods/leveldb-library/db/db_impl.cc:941-959 | comparing with the previous version of the same key decides whether any newer version at or below the smallest snapshot exists |
| `Compactions.OutputsAreDisjoint` | AppChat/Pods/leveldb-library/db/db_impl.cc:983-1013 | cutting a sorted run of versions anywhere into files gives valid files that are sorted and pairwise disjoint |
| `Database.InputsMerge` | AppChat/Pods/leveldb-library/db/version_set.cc:1258-1289 | merging the input files gives one sorted list with exactly their versions |
| `Lsm.FlushKeepsTree` | AppChat/Pods/leveldb-library/db/db_impl.cc:514-525 | adding a flushed file at the chosen level keeps levels sorted and disjoint and recency across places, and adds exactly its versions |
| `Lsm.MoveKeepsTree` | AppChat/Pods/leveldb-library/db/db_impl.cc:866-885 | replacing closed inputs by outputs one level down keeps every level sorted and disjoint and recency across places |
| `Lsm.InstallTreeExact` | AppChat/Pods/leveldb-library/db/db_impl.cc:866-885 | outputs in place of inputs keep the levels in order iff what the upper level keeps is newer and what the lower level keeps is clear of them |
| `Lsm.BoundaryClearIsClosed` | AppChat/Pods/leveldb-library/db/version_set.cc:1305-1317 | a selection leaves no older version of one of its keys behind in its level iff no selected file shares its last user key with an unselected right neighbour |
| `Lsm.OverlapClosedIsClosed` | AppChat/Pods/leveldb-library/db/version_set.cc:1328-1338 | at level 0 the inputs widened to all overlapping files leave no older version behind |
| `SplitKeys.MoveServesStaleValue` | AppChat/Pods/leveldb-library/db/version_set.cc:1466-1474 | valid levels on which the move is one the code makes, and after which recency is broken: the search at the upper level stops at an overwritten value |
| `SplitKeys.SplitParentIsValid` | AppChat/Pods/leveldb-library/db/version_set.cc:1345-1411 | concrete levels in order on which the inputs are the ones SetupOtherInputs returns |
| `SplitKeys.CompactionRevivesDeletedValue` | AppChat/Pods/leveldb-library/db/db_impl.cc:957-972 | from these levels and inputs the code's merge drops the deletion marker, and in the levels it installs a read finds the deleted value again |
| `SplitKeys.OnlyACrashShowsIt` | AppChat/Pods/leveldb-library/db/db_impl.cc:957-972 | the same merge while the memtable holds a newer version of the deleted key: the running database cannot notice it, but the files alone serve the deleted value |
| `CompactionLimits.DroppingIsExact` | AppChat/Pods/leveldb-library/db/db_impl.cc:946-972 | dropping keeps every read at the smallest snapshot or later iff no dropped marker that decides a read hides a value outside the inputs |
| `CompactionLimits.TreeExact` | AppChat/Pods/leveldb-library/db/version_set.cc:1345-1411 | after any merge of inputs that SetupOtherInputs may return the levels are in order iff every key of which the upper level keeps an older version vanishes in the merge, and the outputs fit between the files then in the lower level |
| `CompactionLimits.ReadsExact` | AppChat/Pods/leveldb-library/db/db_impl.cc:957-972 | after such a merge every read is the same iff no marker it drops hides a value that the two levels keep |
| `CompactionLimits.CompactionExact` | AppChat/Pods/leveldb-library/db/db_impl.cc:887-1046 | both together, for the levels of the merge and deeper or for the whole store, at any time after the merge began |
| `CompactionLimits.DatabaseExact` | AppChat/Pods/leveldb-library/db/db_impl.cc:887-1046 | after the merge the database serves its history from the smallest snapshot on iff those conditions hold |
| `CompactionLimits.LaterWritesDoNotMatter` | AppChat/Pods/leveldb-library/db/db_impl.cc:900-907 | the conditions on the inputs depend only on versions up to the smallest snapshot, so they can be checked before the merge |
| `CompactionLimits.ClearBoundariesSuffice` | AppChat/Pods/leveldb-library/db/version_set.cc:1345-1411 | inputs that share no boundary key with a right neighbour on either level are harmless |
| `CompactionLimits.CompactionKeepsReads` | AppChat/Pods/leveldb-library/db/db_impl.cc:887-1046 | after installing the outputs of inputs that are closed on both levels, every read at the smallest snapshot or later is still the value in the history |
| `CompactionLimits.UnlessFlushedFits` | AppChat/Pods/leveldb-library/db/version_set.cc:1345-1357 | when nothing was flushed since the inputs were chosen the outputs fit |
| `CompactionLimits.FitsExact` | AppChat/Pods/leveldb-library/db/version_set.cc:502-528 | the outputs fit between the files of the lower level iff no output's range encloses a file flushed since the merge began |
| `CompactionLimits.ConnectedSpanNone` | AppChat/Pods/leveldb-library/db/version_set.cc:502-528 | when the inputs leave no gap, no output's range encloses a file flushed since |
| `FlushGap.FlushIntoGapHidesWrite` | AppChat/Pods/leveldb-library/db/db_impl.cc:916-927 | concrete levels, a manual compaction whose inputs leave a gap, and a memtable flushed into it: the output overlaps the flushed file and a read finds the overwritten value |
| `Durability.FaithfulGrows` | AppChat/Pods/leveldb-library/db/db_impl.cc:407-449 | a store that serves a prefix of the history serves more of it once the versions written since are added, whatever unnoticeable writes lie between |
| `Durability.FlushServesMore` | AppChat/Pods/leveldb-library/db/db_impl.cc:534-565 | after a flush the files alone serve the history up to the switch of memtables, and the remaining log holds the rest |
| `Durability.FilesServeExact` | AppChat/Pods/leveldb-library/db/db_impl.cc:866-885 | after a merge the files alone still serve the flushed writes iff no marker it drops hides a value among them |
| `Inputs.GetOverlappingInputs` | AppChat/Pods/leveldb-library/db/version_set.cc:531-572 | terminates; returns all files meeting a range that covers the one asked for; at level 0 that range is the least one such that every file meeting it lies inside it |
| `Inputs.ScanIsClosed` | AppChat/Pods/leveldb-library/db/version_set.cc:553-570 | level-0 inputs from the restarting scan leave out no file that meets their range |
| `Inputs.SomeFileOverlapsRange` | AppChat/Pods/leveldb-library/db/version_set.cc:121-155 | true iff some file of the level meets the user-key range, by scan or by binary search, open ends included |
| `Inputs.PickLevelForMemTableOutput` | AppChat/Pods/leveldb-library/db/version_set.cc:502-528 | the deepest level, at most 2, all of whose predecessors are passed by: no file down to it meets the range and no level on the way overlaps too many bytes below |
| `Inputs.GetRange` | AppChat/Pods/leveldb-library/db/version_set.cc:1224-1247 | the tightest internal-key range covering the files |
| `Inputs.GrowInputs` | AppChat/Pods/leveldb-library/db/version_set.cc:1359-1389 | takes the wider selection iff it has more files, stays under the size limit and meets equally many files one level down, and then meets the same ones |
| `Inputs.SetupOtherInputs` | AppChat/Pods/leveldb-library/db/version_set.cc:1345-1411 | the files one level down are all that meet the final range, also after growth; the grandparents are all that meet the range of both input lists |
| `Inputs.ScanIsConnected` | AppChat/Pods/leveldb-library/db/version_set.cc:531-572 | adding all files that meet the range of files without a gap leaves no gap, also when level 0 widens the range |
| `Inputs.PickFile` | AppChat/Pods/leveldb-library/db/version_set.cc:1305-1317 | the first file past the compaction pointer, or the first of all if there is none |
| `Inputs.PickCompaction` | AppChat/Pods/leveldb-library/db/version_set.cc:1291-1343 | automatic compaction: the picked file is among inputs that satisfy everything a merge needs from the input choice, and they leave no gap |
| `Inputs.Truncate` | AppChat/Pods/leveldb-library/db/version_set.cc:1429-1438 | cuts after the first file at which the running size reaches the limit |
| `Inputs.CompactRange` | AppChat/Pods/leveldb-library/db/version_set.cc:1413-1446 | manual compaction: nothing iff no file meets the range, otherwise well-formed inputs; at level 0 all files that meet it |
| `Manifest.ListsUnique` | AppChat/Pods/leveldb-library/db/version_set.cc:606-620 | a level list ordered by smallest key and number is determined by its set of files |
| `Manifest.Builder.Apply` | AppChat/Pods/leveldb-library/db/version_set.cc:665-708 | one more edit: the builder's deleted numbers and added files still stand for the level after all edits |
| `Manifest.Builder.SaveTo` | AppChat/Pods/leveldb-library/db/version_set.cc:711-757 | each level lists, in order, the base files after all applied edits: (base + added) minus deleted |
| `Manifest.BookkeepingIsEdit` | AppChat/Pods/leveldb-library/db/version_set.cc:665-708 | adding to and deleting from the builder's sets is applying the edit to the level |
| `Manifest.AppendedRecord` | AppChat/Pods/leveldb-library/db/version_set.cc:835-840 | a builder per edit and one builder over all recorded edits give the same levels |
| `Manifest.VersionSet.Snapshot` | AppChat/Pods/leveldb-library/db/version_set.cc:1102-1130 | the snapshot record adds exactly the current files of each level and sets exactly the current compaction pointers |
| `Manifest.VersionSet.LogAndApply` | AppChat/Pods/leveldb-library/db/version_set.cc:820-903 | installs the edit on every level, moves the pointers and numbers, and appends a record so that replaying the log still gives the current version |
| `Manifest.VersionSet.Recover` | AppChat/Pods/leveldb-library/db/version_set.cc:905-1025 | replay with one builder gives the levels, pointers and last recorded numbers of the records, and is refused iff one of three numbers was never recorded |
| `Manifest.Reopen` | AppChat/Pods/leveldb-library/db/version_set.cc:905-1025 | recovering from a live version set's descriptor log gives the same level lists, compaction pointers and log numbers |
| `Manifest.VersionSet.MarkFileNumberUsed` | AppChat/Pods/leveldb-library/db/version_set.cc:1058-1062 | later file numbers lie above the one marked |
| `VersionEditCodec.InsertedIsASet` | AppChat/Pods/leveldb-library/db/version_edit.cc:173-181 | inserting a deletion keeps the set ordered and adds exactly that element |
| `VersionEditCodec.VersionEdit.Clear` | AppChat/Pods/leveldb-library/db/version_edit.cc:26-39 | resets everything except the compaction pointers |
| `VersionEditCodec.VersionEdit.EncodeTo` | AppChat/Pods/leveldb-library/db/version_edit.cc:41-86 | writes the edit's records one after the other: present fields, pointers, deletions, additions |
| `VersionEditCodec.VersionEdit.DecodeFrom` | AppChat/Pods/leveldb-library/db/version_edit.cc:109-210 | for every input: applies the well-formed records up to the first malformed one to the cleared object, and accepts iff all input was used |
| `VersionEditCodec.RecordsReadBack` | AppChat/Pods/leveldb-library/db/version_edit.cc:109-210 | written records are read one by one with the effect of applying them, then reading goes on behind them |
| `VersionEditCodec.EncodeThenDecode` | AppChat/Pods/leveldb-library/db/version_edit.cc:109-210 | decoding an encoded edit gives it back iff the object read into had no compaction pointers; otherwise the old ones stay in front |
| `VersionEditCodec.EncodingIsInjective` | AppChat/Pods/leveldb-library/db/version_edit.cc:41-86 | edits with the same bytes are the same |
| `SkipListRuns.StepKeeps` | AppChat/Pods/leveldb-library/db/skiplist.h:337-370 | after every single store of an insert, and every load of a search, each level's chain is strictly sorted and a sub-chain of the levels below, and every search in progress is still on a good path |
| `SkipListRuns.InvariantOverRuns` | AppChat/Pods/leveldb-library/db/skiplist.h:337-370 | the invariant holds in every state of every interleaving of one writer and any number of readers |
| `SkipListRuns.KeysOnlyGrow` | AppChat/Pods/leveldb-library/db/skiplist.h:337-370 | no interleaving ever loses a key |
| `SkipListRuns.SeekIsRight` | AppChat/Pods/leveldb-library/db/skiplist.h:262-281 | a search interleaved with inserts, started at any height, ends at a node at or after its key such that no key present at its start lies in between |
| `SkipListRuns.SeekBackIsRight` | AppChat/Pods/leveldb-library/db/skiplist.h:283-322 | the backward searches end at the last node before the bound as far as the keys present at their start go |
| `SkipListRuns.InsertCompletes` | AppChat/Pods/leveldb-library/db/skiplist.h:337-370 | when an insert has linked its last level, its key is in the list |
| `SkipList.Publish` | AppChat/Pods/leveldb-library/db/skiplist.h:362-369 | the one store that links a prepared node into a level adds exactly that node to that level's chain, in order |
| `SkipList.PrivateStore` | AppChat/Pods/leveldb-library/db/skiplist.h:362-366 | stores into links not yet reachable change no chain |
| `SkipListImpl.List.FindGreaterOrEqual` | AppChat/Pods/leveldb-library/db/skiplist.h:262-281 | the first node at or after the key, with the last node before it on every level in use |
| `SkipListImpl.List.FindLessThan` | AppChat/Pods/leveldb-library/db/skiplist.h:283-322 | the last node before the key, or the last of all, the head if there is none |
| `SkipListImpl.List.Insert` | AppChat/Pods/leveldb-library/db/skiplist.h:337-370 | for any height, the keys are the old ones and the new one, and all levels stay sorted and nested |
| `DbIter.LiveIsTheSnapshot` | AppChat/Pods/leveldb-library/db/db_iter.cc:146-304 | the list iterated over has every user key whose newest version at or below the snapshot is a value, once, in key order, with that value |
| `DbIter.LiveIsHistory` | AppChat/Pods/leveldb-library/db/db_iter.cc:146-304 | over a faithful store that list is the map after the first `snapshot` writes |
| `DbIter.DBIter.FindNextUserEntry` | AppChat/Pods/leveldb-library/db/db_iter.cc:173-203 | forward scan stops at the next live entry whose key is not being skipped |
| `DbIter.DBIter.FindPrevUserEntry` | AppChat/Pods/leveldb-library/db/db_iter.cc:232-272 | backward scan saves the nearest live pair before it and stops one entry before that key's group |
| `DbIter.DBIter.Shows` | AppChat/Pods/leveldb-library/db/db_iter.cc:66-73 | valid, key and value are those of the iterator's place in the live list, in either direction |
| `DbIter.DBIter.Next` | AppChat/Pods/leveldb-library/db/db_iter.cc:146-171 | one place further, from either direction |
| `DbIter.DBIter.Prev` | AppChat/Pods/leveldb-library/db/db_iter.cc:205-230 | one place back, from either direction, or off the list before its first pair |
| `DbIter.DBIter.Seek` | AppChat/Pods/leveldb-library/db/db_iter.cc:274-286 | the first live key at or after the target |
| `DbIter.DBIter.SeekToFirst` | AppChat/Pods/leveldb-library/db/db_iter.cc:288-297 | the first live pair |
| `DbIter.DBIter.SeekToLast` | AppChat/Pods/leveldb-library/db/db_iter.cc:299-304 | the last live pair |
| `Merger.MergingIterator.FindSmallest` | AppChat/Pods/leveldb-library/table/merger.cc:155-168 | the child found is the one at the next entry of the union |
| `Merger.MergingIterator.FindLargest` | AppChat/Pods/leveldb-library/table/merger.cc:170-183 | the child found is the one at the previous entry of the union |
| `Merger.MergingIterator.Seek` | AppChat/Pods/leveldb-library/table/merger.cc:51-57 | the union's first entry at or after the target |
| `Merger.MergingIterator.SeekToFirst` | AppChat/Pods/leveldb-library/table/merger.cc:35-41 | the union's first entry |
| `Merger.MergingIterator.SeekToLast` | AppChat/Pods/leveldb-library/table/merger.cc:43-49 | the union's last entry |
| `Merger.MergingIterator.Next` | AppChat/Pods/leveldb-library/table/merger.cc:59-83 | one entry further in the union, whichever direction the last move had |
| `Merger.MergingIterator.Prev` | AppChat/Pods/leveldb-library/table/merger.cc:85-112 | one entry back in the union, whichever direction the last move had |
| `DbIterators.LevelIsConcatenated` | AppChat/Pods/leveldb-library/db/version_set.cc:227-251 | a level above 0 is the list its two-level iterator ranges over, and the files' largest keys separate it as that iterator asks |
| `DbIterators.NewConcatenatingIterator` | AppChat/Pods/leveldb-library/db/version_set.cc:227-232 | a level above 0 is iterated by a two-level iterator over the level's files whose entries are exactly the level's, in order |
| `DbIterators.AddIterators` | AppChat/Pods/leveldb-library/db/version_set.cc:234-251 | one child for each level-0 file and one concatenating iterator for each deeper level that holds files; the children share no internal key with each other or the memtables, and their union is everything stored |
| `DbIterators.StoreShowsHistory` | AppChat/Pods/leveldb-library/db/db_impl.cc:1156-1166 | over a sorted list of a faithful store the live pairs are, in key order, the map after the first `snapshot` writes |
| `DbIterators.NewInternalIterator` | AppChat/Pods/leveldb-library/db/db_impl.cc:1067-1096 | in every valid state the merged iterator ranges over exactly what the database stores, so at every live snapshot the keys shown are the map after that many writes |
| `TwoLevel.TwoLevelIterator.Shows` | AppChat/Pods/leveldb-library/table/two_level_iterator.cc:34-44 | valid and current entry are those of a cursor over the concatenated blocks |
| `TwoLevel.TwoLevelIterator.Seek` | AppChat/Pods/leveldb-library/table/two_level_iterator.cc:91-96 | the first entry at or after the target in the concatenation of all blocks |
| `TwoLevel.TwoLevelIterator.SeekToFirst` | AppChat/Pods/leveldb-library/table/two_level_iterator.cc:98-103 | the first entry, past any empty blocks |
| `TwoLevel.TwoLevelIterator.SeekToLast` | AppChat/Pods/leveldb-library/table/two_level_iterator.cc:105-110 | the last entry, before any empty blocks |
| `TwoLevel.TwoLevelIterator.Next` | AppChat/Pods/leveldb-library/table/two_level_iterator.cc:112-116 | one entry further, across block ends and empty blocks |
| `TwoLevel.TwoLevelIterator.Prev` | AppChat/Pods/leveldb-library/table/two_level_iterator.cc:118-122 | one entry back, across block starts and empty blocks |
| `TwoLevel.TwoLevelIterator.SkipEmptyDataBlocksForward` | AppChat/Pods/leveldb-library/table/two_level_iterator.cc:125-136 | terminates at the first entry at or after the current place, or at the end |
| `TwoLevel.TwoLevelIterator.SkipEmptyDataBlocksBackward` | AppChat/Pods/leveldb-library/table/two_level_iterator.cc:138-149 | terminates at the last entry before the given place, or nowhere |
| `TwoLevel.SeekLands` | AppChat/Pods/leveldb-library/table/two_level_iterator.cc:91-96 | seeking in the index and then in one block is seeking in the concatenation, for any index that separates its blocks |
| `GroupCommit.BuildBatchGroup` | AppChat/Pods/leveldb-library/db/db_impl.cc:1269-1314 | the group is all waiting calls up to the first that cannot join, and its updates are their writes in order |
| `GroupCommit.StepKeeps` | AppChat/Pods/leveldb-library/db/db_impl.cc:1194-1265 | every step of every caller keeps the queue, log and store invariants |
| `GroupCommit.InvariantOverRuns` | AppChat/Pods/leveldb-library/db/db_impl.cc:1194-1265 | the invariants hold in every state of every interleaving of calls, switches and flushes |
| `GroupCommit.LoggedOnceInOrder` | AppChat/Pods/leveldb-library/db/db_impl.cc:1217-1230 | the log holds the writes of the calls taken so far, each once, in queue order, numbered without gap or overlap |
| `GroupCommit.InsertedOnceInOrder` | AppChat/Pods/leveldb-library/db/write_batch.cc:111-134 | memtables and flushed files hold exactly the first versions of that sequence, each once |
| `GroupCommit.SnapshotSeesWholeGroups` | AppChat/Pods/leveldb-library/db/db_impl.cc:1244-1247 | the published last sequence number has all writes of a call behind it if the call has returned and none otherwise |
| `GroupCommit.SnapshotIsStable` | AppChat/Pods/leveldb-library/db/db_impl.cc:1244-1247 | what is visible at a sequence number once published never changes later |
| `GroupCommit.OnlyFrontIsUnlocked` | AppChat/Pods/leveldb-library/db/db_impl.cc:1200-1211 | only the call at the front of the queue is ever past waiting |
| `GroupCommit.NoSwitchDuringGroup` | AppChat/Pods/leveldb-library/db/db_impl.cc:1318-1379 | while a group is being logged or inserted no step switches the memtable |
| `GroupCommit.SyncedBeforeReturn` | AppChat/Pods/leveldb-library/db/db_impl.cc:1229-1237 | a call that asked for a sync has returned only after a synced record holds its writes, so it never rides in a group whose leader did not ask |
| `GroupCommit.GroupsAreBounded` | AppChat/Pods/leveldb-library/db/db_impl.cc:1278-1312 | no group outgrows its limit unless its first batch alone does |
| `GroupCommitDb.Follow` | AppChat/Pods/leveldb-library/db/db_impl.cc:1194-1265 | each step of the callers is one operation of the database or none: the last step of a group is one ApplyBatch of the group's writes, and switches and flushes are the database's own |
| `GroupCommitDb.FollowRun` | AppChat/Pods/leveldb-library/db/db_impl.cc:1194-1265 | in every interleaving of callers the database that takes their steps stays valid and recoverable, and its history is the batches of the calls that have returned, in queue order |
| `Coding.EncodeVarint32` | AppChat/Pods/leveldb-library/util/coding.cc:47-73 | the five unrolled cases write the base-128 varint of the number |
| `Coding.GetVarint` | AppChat/Pods/leveldb-library/util/coding.cc:112-170 | the decoding loop computes the specified reading, including truncation to the word and failure on short input |
| `Coding.VarintLength` | AppChat/Pods/leveldb-library/util/coding.cc:103-110 | counts the bytes that the varint takes |
| `Coding.Varint32RoundTrip` | AppChat/Pods/leveldb-library/util/coding.cc:112-141 | reading what was written gives the number back and leaves the rest, for every 32-bit number |
| `Coding.Varint64RoundTrip` | AppChat/Pods/leveldb-library/util/coding.cc:143-170 | the same for every 64-bit number |
| `Coding.PrefixedRoundTrip` | AppChat/Pods/leveldb-library/util/coding.cc:182-192 | a length-prefixed string is read back and the rest left |
| `Coding.Fixed32RoundTrip` | AppChat/Pods/leveldb-library/util/coding.cc:9-18 | little-endian 32-bit integers round-trip |
| `Coding.Fixed64RoundTrip` | AppChat/Pods/leveldb-library/util/coding.cc:20-33 | little-endian 64-bit integers round-trip |
| `LogFormat.UnmaskMask` | AppChat/Pods/leveldb-library/util/crc32c.h:25-37 | unmasking undoes masking of a checksum |
| `LogWriter.Writer.AddRecord` | AppChat/Pods/leveldb-library/db/log_writer.cc:36-82 | appends exactly the record's fragments, cut where the current block ends, with trailers filled, and the file stays a well-placed log |
| `LogWriter.Writer.EmitPhysicalRecord` | AppChat/Pods/leveldb-library/db/log_writer.cc:84-109 | one fragment: header with masked checksum, length and type, then the data |
| `LogWriter.Writer.Reopen` | AppChat/Pods/leveldb-library/db/log_writer.cc:28-31 | a writer that knows only the file's length stands where the writer before it stood |
| `LogReader.Reader.ReadPhysicalRecord` | AppChat/Pods/leveldb-library/db/log_reader.cc:199-281 | on any prefix of a log: the next fragment if it lies wholly inside, otherwise end of file without a report |
| `LogReader.Reader.ReadRecord` | AppChat/Pods/leveldb-library/db/log_reader.cc:60-182 | on any prefix of a log: the next record iff its last fragment lies inside, with its data whole and nothing reported |
| `LogRecovery.CutWhole` | AppChat/Pods/leveldb-library/db/log_writer.cc:36-82 | cutting loses no byte, marks first, middle and last fragments, and fits every fragment into its block |
| `LogRecovery.WriteInTwoRuns` | AppChat/Pods/leveldb-library/db/log_writer.cc:28-31 | a log continued by a second writer has the bytes one uninterrupted writer would have written |
| `LogRecovery.ReadAll` | AppChat/Pods/leveldb-library/db/log_reader.cc:60-182 | a log truncated at any byte yields exactly the records whose last fragment survived, and no corruption is reported |
| `LogRecovery.RecoverLogFile` | AppChat/Pods/leveldb-library/db/db_impl.cc:407-449 | replaying a truncated log stores exactly the versions of the surviving batches and finds their highest sequence number, wherever full memtables are written out |
| `LogRecovery.RecoversAPrefix` | AppChat/Pods/leveldb-library/db/db_impl.cc:407-449 | with batches numbered as group commit numbers them, what is recovered is the versions 1 to the recovered maximum: a prefix of the history with no batch torn |
| `CrashRecovery.LogStores` | AppChat/Pods/leveldb-library/db/db_impl.cc:407-435 | the first records of a live log store exactly the versions of the batches it was written for, and the highest sequence number found is that of the last write |
| `CrashRecovery.WriteTables` | AppChat/Pods/leveldb-library/db/db_impl.cc:488-530 | replayed memtables become level-0 tables with rising numbers and older versions first; an empty one leaves no file |
| `CrashRecovery.RecoverLog` | AppChat/Pods/leveldb-library/db/db_impl.cc:365-486 | a live log cut at any byte becomes tables of exactly the batches whose records are whole |
| `CrashRecovery.TablesKeepTree` | AppChat/Pods/leveldb-library/db/db_impl.cc:488-530 | the replayed tables go on top of level 0, the levels stay in order, and exactly their versions are added |
| `CrashRecovery.ReplayLogs` | AppChat/Pods/leveldb-library/db/db_impl.cc:341-360 | the older log and then the newer one are replayed into one run of tables, and the highest sequence number covers all of it |
| `CrashRecovery.SurvivorsServed` | AppChat/Pods/leveldb-library/db/db_impl.cc:405-449 | files and replayed versions together serve the history with the lost writes blanked out |
| `CrashRecovery.SurvivorsArePrefix` | AppChat/Pods/leveldb-library/db/db_impl.cc:405-449 | if nothing survives behind a lost write, every read is a read of a prefix of the history |
| `CrashRecovery.PrefixExact` | AppChat/Pods/leveldb-library/db/db_impl.cc:341-360 | what survives of the two live logs is a prefix of the history iff the older log is whole or the newer one yields nothing |
| `CrashRecovery.GapIsSeen` | AppChat/Pods/leveldb-library/db/db_impl.cc:341-360 | otherwise it need not read like any prefix: two writes of which only the second survives |
| `CrashRecovery.InstallTables` | AppChat/Pods/leveldb-library/db/db_impl.cc:1497-1522 | one descriptor record enters the tables and a new log; the database is valid and recoverable again |
| `CrashRecovery.Open` | AppChat/Pods/leveldb-library/db/db_impl.cc:1490-1530 | from the descriptor log and the live logs, each cut at any byte, a valid and recoverable database is opened whose history is the old one with the lost writes blanked out; no write that was in a table file is lost, and without a gap the result reads as after a prefix |
| `WriteBatches.WriteBatch.Put` | AppChat/Pods/leveldb-library/db/write_batch.cc:98-103 | appends one write record and counts it |
| `WriteBatches.WriteBatch.Delete` | AppChat/Pods/leveldb-library/db/write_batch.cc:105-109 | appends one deletion record and counts it |
| `WriteBatches.WriteBatch.Append` | AppChat/Pods/leveldb-library/db/write_batch.cc:141-146 | appends the other batch's records and adds the counts, keeping this batch's sequence number |
| `WriteBatches.WriteBatch.SetSequence` | AppChat/Pods/leveldb-library/db/write_batch.cc:94-96 | the sequence number is replaced and nothing else changes |
| `WriteBatches.ReadOpsBack` | AppChat/Pods/leveldb-library/db/write_batch.cc:42-80 | iterating over the bytes of a batch gives its writes back in order |
| `WriteBatches.InsertInto` | AppChat/Pods/leveldb-library/db/write_batch.cc:42-134 | for every byte string: stores the well-formed records with sequence numbers counting up from the header's, and accepts iff all was well formed and the count agrees |
| `WriteBatches.ReplayIsExact` | AppChat/Pods/leveldb-library/db/write_batch.cc:128-134 | replaying an encoded batch yields exactly its writes, its sequence number and its count |
| `Crc.CarriedIsBits` | AppChat/Pods/leveldb-library/util/crc32c.cc:308-311 | a table lookup and a shift by eight are eight bit steps of the reflected polynomial division |
| `Crc.FourSteps` | AppChat/Pods/leveldb-library/util/crc32c.cc:312-319 | the four-byte step through four tables equals four one-byte steps |
| `Crc.Extend` | AppChat/Pods/leveldb-library/util/crc32c.cc:299-347 | for every buffer, length and alignment the mixed loops compute the byte-at-a-time checksum |
| `Crc.ExtendSplits` | AppChat/Pods/leveldb-library/db/log_writer.cc:94-97 | extending over two pieces is extending over their concatenation, which the checksum split into type and payload relies on |
| `Table.SeparatorSeparates` | AppChat/Pods/leveldb-library/util/comparator.cc:29-51 | the shortened separator is no longer than the left string and lies strictly between the two unless it is the left string |
| `Table.SuccessorFollows` | AppChat/Pods/leveldb-library/util/comparator.cc:53-65 | the short successor is no longer and strictly greater unless the key is a run of 0xff bytes |
| `Table.FindShortestSeparator` | AppChat/Pods/leveldb-library/util/comparator.cc:29-51 | computes that separator: the first differing byte increased if that stays below the limit's |
| `Table.FindShortSuccessor` | AppChat/Pods/leveldb-library/util/comparator.cc:53-65 | computes that successor |
| `Table.FindShortestInternalSeparator` | AppChat/Pods/leveldb-library/db/dbformat.cc:68-85 | a key at or after the left one and before the right one's user key; if shortened it sorts before every version of its user key |
| `Table.FindShortInternalSuccessor` | AppChat/Pods/leveldb-library/db/dbformat.cc:87-99 | the same with no right end |
| `TableBuilders.TableBuilder.Add` | AppChat/Pods/leveldb-library/table/table_builder.cc:92-121 | in strictly increasing order: the entry is in the table and the index key of the block before it, delayed until now, fits between the two |
| `TableBuilders.TableBuilder.Flush` | AppChat/Pods/leveldb-library/table/table_builder.cc:123-137 | the block is filed at a new offset and its index key left pending |
| `TableBuilders.TableBuilder.Finish` | AppChat/Pods/leveldb-library/table/table_builder.cc:199-239 | the blocks hold exactly the added entries and the index separates them, is tight and strictly increases |
| `TableBuilders.IndexPromises` | AppChat/Pods/leveldb-library/table/table_builder.cc:95-108 | index keys that fit between neighbouring blocks separate all blocks and strictly increase |
| `Table.OneBlockAnswers` | AppChat/Pods/leveldb-library/table/table.cc:226-255 | the one block the index leads to decides the lookup for the whole table |
| `TableFile.LessIsLess` | AppChat/Pods/leveldb-library/db/dbformat.cc:50-66 | internal keys encoded as user key and eight-byte tag compare as the keys do |
| `TableFile.HandleBack` | AppChat/Pods/leveldb-library/table/format.cc:15-30 | a block handle reads back from its two varints |
| `TableFile.SeekBlock` | AppChat/Pods/leveldb-library/table/block.cc:165-199 | seeking in the bytes of a block finds the first entry not before the target |
| `TableFile.WriteTable` | AppChat/Pods/leveldb-library/table/table_builder.cc:139-197 | every data block is found at its handle, the index block holds the index keys with the handles, and the filter block lets the keys of every block through |
| `TableFile.InternalGet` | AppChat/Pods/leveldb-library/table/table.cc:226-255 | on the bytes alone: an entry of the looked-up key is passed on iff the table has a version at or below the snapshot, and then the newest with its value, with the filter or without |
| `TableFile.BuildAndGet` | AppChat/Pods/leveldb-library/table/table_builder.cc:92-240 | a table built from any sorted entries, of any block sizes and restart interval, answers every lookup from its bytes with the newest visible version |
| `Block.BlockBuilder.Add` | AppChat/Pods/leveldb-library/table/block_builder.cc:73-107 | the entry follows the others, leaving out the longest prefix shared with the previous key except at every interval-th entry, which starts afresh |
| `Block.BlockBuilder.Finish` | AppChat/Pods/leveldb-library/table/block_builder.cc:63-71 | the bytes are the entries, the restart offsets and their number |
| `Block.DecodeEntry` | AppChat/Pods/leveldb-library/table/block.cc:53-72 | both the one-byte fast path and the general path read back an entry's three lengths |
| `BlockIter.Iter.Shows` | AppChat/Pods/leveldb-library/table/block.cc:128-137 | valid, key and value are those of a cursor over the entries added |
| `BlockIter.Iter.ParseNextKey` | AppChat/Pods/leveldb-library/table/block.cc:226-253 | rebuilds the next entry's key from the previous one and keeps the restart index at or before it |
| `BlockIter.Iter.Next` | AppChat/Pods/leveldb-library/table/block.cc:139-142 | one entry further |
| `BlockIter.Iter.Prev` | AppChat/Pods/leveldb-library/table/block.cc:144-163 | one entry back, so it undoes Next, or off the block before its first entry |
| `BlockIter.Iter.Seek` | AppChat/Pods/leveldb-library/table/block.cc:165-203 | binary search over restart points and a linear scan land on the first key at or after the target |
| `BlockIter.Iter.SeekToFirst` | AppChat/Pods/leveldb-library/table/block.cc:205-208 | the first entry |
| `BlockIter.Iter.SeekToLast` | AppChat/Pods/leveldb-library/table/block.cc:210-215 | the last entry |
| `BlockIter.ReadBack` | AppChat/Pods/leveldb-library/table/block.cc:226-253 | building a block with any restart interval and iterating over it returns exactly what was added |
| `Bloom.KeyMayMatch` | AppChat/Pods/leveldb-library/util/bloom.cc:63-83 | true iff all probed bits are set, or the filter uses a reserved encoding; false for filters too short |
| `Bloom.CreateFilter` | AppChat/Pods/leveldb-library/util/bloom.cc:35-61 | the set bits are exactly the probes of the keys, so every key matches, for an arbitrary hash function |
| `FilterBlock.FilterBlockBuilder.StartBlock` | AppChat/Pods/leveldb-library/table/filter_block.cc:22-28 | filters for all slots before the offset are generated, empty ones included |
| `FilterBlock.FilterBlockBuilder.AddKey` | AppChat/Pods/leveldb-library/table/filter_block.cc:30-34 | the key is pending for the current slot |
| `FilterBlock.FilterBlockBuilder.GenerateFilter` | AppChat/Pods/leveldb-library/table/filter_block.cc:52-76 | one more filter, which matches every pending key; none for an empty slot |
| `FilterBlock.FilterBlockBuilder.Finish` | AppChat/Pods/leveldb-library/table/filter_block.cc:36-50 | in the finished block the filter of each key's slot matches the key |
| `FilterBlock.FilterBlockReader.KeyMayMatch` | AppChat/Pods/leveldb-library/table/filter_block.cc:95-109 | for every byte string: the slot's filter decides, an empty one says no, an unreadable one says maybe |
| `FilterBlock.NoFalseNegatives` | AppChat/Pods/leveldb-library/table/filter_block.cc:78-109 | any run of blocks and keys, several blocks to a slot or slots left empty: the finished block says maybe for every key at its block's offset |
| `HandleTables.HandleTable.Lookup` | AppChat/Pods/leveldb-library/util/cache.cc:76-78 | the entry with the key and hash iff there is one |
| `HandleTables.HandleTable.Insert` | AppChat/Pods/leveldb-library/util/cache.cc:80-94 | the entry replaces the one with its key, which is returned, also across a resize |
| `HandleTables.HandleTable.Remove` | AppChat/Pods/leveldb-library/util/cache.cc:96-104 | exactly the entry with the key leaves the table and is returned |
| `HandleTables.HandleTable.Resize` | AppChat/Pods/leveldb-library/util/cache.cc:125-150 | the new table is at least as long as there are entries and holds the same entries, each in its bucket |
| `LruCache.LRUCache.Ref` | AppChat/Pods/leveldb-library/util/cache.cc:221-227 | one more handle; an idle cached entry moves to the in-use list |
| `LruCache.LRUCache.Unref` | AppChat/Pods/leveldb-library/util/cache.cc:229-240 | one handle less; the last one frees the entry, the last but the cache's own makes it the newest idle one |
| `LruCache.LRUCache.Lookup` | AppChat/Pods/leveldb-library/util/cache.cc:255-262 | returns a counted handle of the entry with the key iff it is cached |
| `LruCache.LRUCache.Release` | AppChat/Pods/leveldb-library/util/cache.cc:264-267 | gives back one handle; order of last release is the order of the idle list |
| `LruCache.LRUCache.Insert` | AppChat/Pods/leveldb-library/util/cache.cc:269-303 | the new entry takes the place of the one with its key; then entries leave the idle list oldest first and no more than needed; exactly these leave the cache, and the deleters that run are those of the idle ones among them, in that order |
| `LruCache.LRUCache.EvictToCapacity` | AppChat/Pods/leveldb-library/util/cache.cc:293-300 | evicts idle entries in order of release and no more than needed |
| `LruCache.LRUCache.Erase` | AppChat/Pods/leveldb-library/util/cache.cc:318-321 | exactly the entry with the key leaves the cache and the idle list; its deleter runs now iff it was idle |
| `LruCache.LRUCache.Prune` | AppChat/Pods/leveldb-library/util/cache.cc:323-333 | every idle entry is freed, oldest first, and every entry in use stays cached |
| `LruCache.LRUCache.Destroy` | AppChat/Pods/leveldb-library/util/cache.cc:209-219 | with no cached entry in use everything idle is freed; once no handle is out, every entry ever made has been freed exactly once |
| `LruCache.AllFreed` | AppChat/Pods/leveldb-library/util/cache.cc:229-240 | reference counts that equal outstanding handles plus the cache's own let each deleter run exactly once |
| `NanopbEncode.OStream.Write` | AppChat/Pods/nanopb/pb_encode.c:101-124 | writes or only counts; fails exactly when the limit would be passed |
| `NanopbEncode.OStream.EncodeVarint` | AppChat/Pods/nanopb/pb_encode.c:574-594 | the base-128 varint of the number, least significant group first |
| `NanopbEncode.OStream.EncodeSVarint` | AppChat/Pods/nanopb/pb_encode.c:596-605 | the varint of the zigzag value, computed with unsigned shifts and complement |
| `NanopbEncode.OStream.EncodeSubmessage` | AppChat/Pods/nanopb/pb_encode.c:682-730 | size by a counting pass, then length prefix and content through a substream, equal to the prefixed encoding of the message |
| `NanopbEncode.OStream.EncodeArray` | AppChat/Pods/nanopb/pb_encode.c:126-211 | packed fields as one length-prefixed run whose size was found in advance, others as tagged items |
| `NanopbEncode.OStream.EncodeBasicField` | AppChat/Pods/nanopb/pb_encode.c:307-392 | required, optional, repeated and oneof fields each write what the wire format asks for |
| `NanopbEncode.OStream.Encode` | AppChat/Pods/nanopb/pb_encode.c:494-516 | counting or writing, the stream gets the message's encoding in field order, and fails iff there is none or it does not fit |
| `NanopbDecode.IStream.DecodeVarint` | AppChat/Pods/nanopb/pb_decode.c:250-271 | for every input: the specified reading of up to ten bytes |
| `NanopbDecode.IStream.DecodeVarint32` | AppChat/Pods/nanopb/pb_decode.c:182-242 | the fast path reads back every 32-bit value an encoder writes |
| `NanopbDecode.IStream.DecodeInt` | AppChat/Pods/nanopb/pb_decode.c:1289-1372 | integers come back through sign extension, zigzag and the field's width |
| `NanopbDecode.IStream.DecodeBlob` | AppChat/Pods/nanopb/pb_decode.c:1391-1461 | byte and string fields come back whole when they fit their array, and a string is refused iff it leaves no room for its terminator |
| `NanopbDecode.IStream.DecodeSubmessage` | AppChat/Pods/nanopb/pb_decode.c:1463-1485 | a nested message comes back and its substream is used up, or is refused iff a string in it is not terminated |
| `NanopbDecode.IStream.DecodePacked` | AppChat/Pods/nanopb/pb_decode.c:425-450 | a packed run appends its items to the array |
| `NanopbDecode.IStream.DecodeStaticField` | AppChat/Pods/nanopb/pb_decode.c:401-475 | one field occurrence has the effect its place in the message's encoding calls for, or is refused iff it brings a string without room for its terminator |
| `NanopbDecode.IStream.DecodeNoInit` | AppChat/Pods/nanopb/pb_decode.c:901-1049 | an encoded message is decoded field by field with every required field seen, iff its strings are terminated |
| `NanopbDecode.IStream.Decode` | AppChat/Pods/nanopb/pb_decode.c:1051-1063 | the same into a struct with any earlier content |
| `NanopbDecode.FieldIterFind` | AppChat/Pods/nanopb/pb_common.c:78-95 | the cyclic search finds the tag iff some field has it, wherever it starts |
| `NanopbDecode.CountRequired` | AppChat/Pods/nanopb/pb_decode.c:1006-1022 | stepping on from the current field to the last one counts the required fields |
| `NanopbDecode.SignExtensionBack` | AppChat/Pods/nanopb/pb_decode.c:1289-1324 | a negative number sign-extended to 64 bits comes back, also by way of 32 bits |
| `NanopbRecords.RecordsTerminated` | AppChat/Pods/nanopb/pb_decode.c:1427-1461 | the fields on the wire bring no unterminated string iff the message has none, at any nesting depth |
| `NanopbDecode.UnZigZagBack` | AppChat/Pods/nanopb/pb_decode.c:1240-1252 | zigzag decoding undoes zigzag encoding on all 64-bit numbers |
| `NanopbRoundTrip.SameMessage` | AppChat/Pods/nanopb/pb_encode.c:307-392 | what is not set does not show in the encoding |
| `NanopbRoundTrip.GetEncodedSize` | AppChat/Pods/nanopb/pb_encode.c:533-542 | the sizing pass succeeds iff the message has an encoding and gives its length |
| `NanopbRoundTrip.EncodeIntoBuffer` | AppChat/Pods/nanopb/pb_encode.c:494-542 | encoding into a buffer succeeds iff the sizing pass does and its size fits, and then writes exactly that many bytes |
| `NanopbRoundTrip.EncodeThenDecode` | AppChat/Pods/nanopb/pb_decode.c:1051-1063 | decoding what was encoded restores every set field, nested ones included, and defaults elsewhere, whatever the struct held before, iff every string that is set is terminated |

## Left out

- DbImpl.DB.RunCompaction: the merge itself is computed when it starts and its files are numbered then, which other steps cannot observe before the installation; running out of order with another compaction does not occur, because there is one background thread.
- DbImpl.DB.CompactMemTable: writing the table and installing it are one step; what is written to the new memtable in between is a step before or after it.
- DbImpl.DB.SwitchMemtable: reusing the file number when the new log cannot be created, slowing down and waiting for compactions are not modelled.
- Compactions.DoCompactionWork: when outputs are cut (output size, overlap with grandparents) is an arbitrary policy; corrupted keys do not occur.
- GroupCommit.StepKeeps: I/O errors and the forced error state after a failed sync are not modelled; a flush is one step.
- SkipListRuns.StepKeeps: stores become visible in program order; allocating a node and raising the maximum height are one step, because nobody can reach the node yet; random heights are arbitrary.
- Merger.MergingIterator.Next: children are cursors over lists, the specification that the block and two-level iterators are proved to meet.
- DbIter.DBIter.Next: keys that fail to parse and the sampling of reads do not occur.
- TwoLevel.TwoLevelIterator.Seek: blocks that cannot be read, and their error status, do not occur.
- BlockIter.Iter.Seek: the corruption branches, which no built block reaches, are left out; the comparator is any order for which keys before the target form a prefix.
- LogReader.Reader.ReadPhysicalRecord: what is returned on damaged logs is not specified.
- LogReader.Reader.ReadRecord: reading from an initial offset above zero, and the reports for damaged logs beyond never reporting on undamaged ones, are left out; the checksum is any function.
- LogRecovery.RecoverLogFile: going on with a log that was cut in the middle of a record is not covered; when a memtable is full is arbitrary.
- CrashRecovery.Open: a crash falls between two operations; a record logged but not published counts as committed and a torn descriptor record as never written; which log files are live is given; reusing logs, missing table files and paranoid checks are left out.
- CrashRecovery.RecoverLog: tables are written once a log has been read, in the order in which the source writes them while reading.
- Crc.Extend: the tables are defined by their recurrence and the source's literals taken to agree with it; the hardware-accelerated path is left out.
- VersionEditCodec.VersionEdit.EncodeTo: each has_ flag and its field are one optional value, and the ordered set of deletions is the list of its elements in order.
- Manifest.Builder.Apply: an edit that adds a number again to a level that once held it is outside the contract; the database never writes one.
- Manifest.VersionSet.Recover: the same holds for the edits of a foreign log; file names, the CURRENT file and reuse of an old descriptor log are left out; the edits there carry keys as ranks, not bytes.
- Bloom.CreateFilter: the multiplication by 0.69 is exact; the hash function is arbitrary.
- TableBuilders.TableBuilder.Add: a block is the list of its entries and its encoded size an arbitrary function; compression and file I/O are left out.
- TableFile.WriteTable: blocks are encoded once all entries are known, which gives the bytes the source writes as it goes; the metaindex block and the footer are left out, so the places of index and filter block are given.
- TableFile.InternalGet: a data block, the index block and the filter block stay below 4 GB, as their 32-bit offsets demand.
- LruCache.LRUCache.Insert: the circular lists and the hash chains are sequences, and a handle is a value with a unique number, so relinking of pointers is not captured; sharding is left out.
- LruCache.LRUCache.Destroy: the destructor also leaves the hash table behind; here the entries leave it first.
- NanopbEncode.OStream.Encode: callbacks, extensions, pointer fields, fixed-count arrays and proto3 presence are left out; descriptors are abstract, without offsets.
- NanopbDecode.IStream.DecodeVarint32: on bytes no encoder writes only that it makes progress and stays in the buffer is stated; overlong varints are outside the round trip.
- NanopbDecode.IStream.DecodeInt: for bytes that are not an encoding only progress, bounds and typing are stated.
- NanopbDecode.IStream.DecodeBlob: as for DecodeInt.
- NanopbDecode.IStream.DecodeSubmessage: as for DecodeInt.
- NanopbDecode.IStream.DecodePacked: as for DecodeInt.
- NanopbDecode.IStream.DecodeStaticField: as for DecodeInt.
- NanopbDecode.IStream.DecodeNoInit: unknown fields are skipped and fields may come in any order, but only encodings in field order have their result stated; other input gives a well-typed struct.
- NanopbDecode.IStream.Decode: as for DecodeNoInit.
- NanopbRoundTrip.EncodeThenDecode: no length-delimited part reaches 4 GB, as the 32-bit lengths demand.
- GroupCommitDb.Follow: the callers' model knows only that the memtable was flushed; the level and the file are the database's.
- HandleTables.HandleTable.Resize: the chain pointers inside a bucket are a sequence, new elements in front.
- DbImpl.DB.GetSnapshot: the circular list of snapshots is a sequence, oldest first.
- Snapshot reads during a compaction see the version they started with, which immutable file lists give for free; version reference counts and deletion of obsolete files are left out.
- Repair, dump tools, statistics, compaction scores, seek budgets, option clipping, logging, environment and C bindings are left out.
- The application's Swift code is user interface and calls into Firebase; it has no logic of this kind.
