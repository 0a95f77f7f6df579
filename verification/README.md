# A verified model of the storage engine, scheduler and message codec

Rock-YOU ships four C and C++ components under `app/Pods`: LevelDB (a log-structured merge
tree), libuv's timers and thread pool, and nanopb (a table-driven Protocol Buffers codec).
This project models them in Dafny and proves what they are for. `dafny verify dfyconfig.toml`
checks everything.

## What is modelled

**The flat store** (`Store`). A database is a set of entries (user key, sequence number, type,
value). A read of a key at a snapshot returns the newest entry of the key with a sequence
number up to the snapshot, and nothing if that entry is a deletion marker. Everything else in
LevelDB is measured against this.

**Reading.** `VersionGet` proves the level-by-level search of a version, and the memtables in
front of it, equal to the flat lookup. `Merger` proves the merging iterator to be one cursor
over the sorted sequence of all its children's entries, and `DBIter` the user-visible iterator on
top of it to be a cursor over the sorted sequence of visible values, both across every change of
direction. `DBScan` opens it over the memtables and all files of a version: it shows exactly what
lookups find, in key order.

**Changing the tree.** `CompactionWork` is the compaction loop with its two drop rules and the
forward-only cursors of the base-level test; `CompactionReads` says exactly when it changes a
read. `InputSelection` is the choice of files, `SelectionReads` joins the choice to the loop,
`VersionStep` carries a whole compaction (or a trivial move) from one version to the next.
`FlushStep` does the same for a memtable's table, `FlushRace` for memtables flushed while a
compaction runs. `CompactionRun` is the compaction end to end: selection, merge, drop rules,
output files and the edit that installs them (`EntryStreams` are the streams files are read as).
`Manifest` says exactly when replaying version edits through one builder gives the version that
was live.

**Not losing anything.** `GroupCommit` is the writer queue with its shared log records, waiting
and waking included. `Durability` is the state machine of logs, memtables, tables, manifest
commits, file deletion, crashes at any step and recovery, which brings back exactly what reads
found and the record being written. `LogFormat` proves that any byte prefix
of a log gives back exactly the records wholly inside it.

**Formats and indexes.** `SkipList`, `Block` and `BlockBuilder`, `Separators`, `Bloom`,
`FilterBlock`, `Table` and `TableBuilder`, `HandleTable` and `LruCache` are each proved against
what they stand for: a sorted list, a list of rows, a map, a cache with exact reference counts.
`SkipListReads` interleaves lock-free searches with the stores of an insertion. `Format` is the
table file's handles, footer and block trailers, and `TableFile` builds a file from rows, opens
it from its bytes and searches it. `KeyRank` embeds the byte orders of keys in the reals.
`Coding` holds words and varints, and `FormatBytes` tells the formats byte by byte without the
functions that write them.

**libuv.** `HeapInl` is the binary heap on linked nodes, `Timer` the timer calls and run loop on
it, `ThreadPool` the worker, cancel and done protocol as interleaved critical sections.
`ThreadProgress` shows that the pool comes to rest, `ThreadOrder` that requests start in the order
of their submission and are delivered in the order in which they finish.

**nanopb.** `PbMessage` gives descriptor trees, message contents and their bytes. `PbEncode` and
`PbDecode`, `PbStream`, `PbDecodeMessage` are the two directions, `PbRoundTrip` their meeting.
`PbParse` parses any bytes into fields, which says what the decoder demands of them, and
`PbForward` reads messages under a descriptor that lacks some of their fields.

Code that changes state is modelled as classes and methods with loops; each is proved against
specification functions, and the properties are lemmas about those functions or invariants
every method keeps.

## What the proofs found

- Compaction is safe for reads if and only if no dropped deletion marker stands over a value
  outside the input (`CompactionPreservesReads`). The input choice rules that out for every user
  key but one: the key at which the selected lower files end while the level goes on with it.
  Boundary files are added for the upper level alone (`db/version_set.cc:1407-1411`), and
  `SplitResurrects` is a well-formed tree in which a deleted value comes back.
- The comment at `db/db_impl.cc:952-958` argues that a dropped marker has nothing below it; the
  argument fails for that one key.
- Memtables are flushed in the middle of a compaction (`db/db_impl.cc:908-918`), and their tables
  get levels from versions that still hold the compaction's inputs. A table in a gap between input
  files may be given the very level the compaction writes to, where an output file can reach
  across it. `EveryCut` proves what the flush could have tested: the version stays well formed,
  however the outputs are cut, exactly if all entries the compaction keeps lie to one side of each
  such table. `GapHappens` and `FlushedTableIsLost` are a case where they do not: the flushed key
  is in the tree, and the search stops at a file without it.
- Replaying a manifest through one builder gives what applying its edits one by one gave, file by
  file, exactly if no edit adds the number of a deleted file that the builder still has (in its
  base or, unless that very file is added again, among those added before), and none adds a file
  with the smallest key and number of an added file that is not deleted (`ReplayIsLive`).
  `ReusedNumberRevives` and `SharedKeyDiverges` are inputs of either kind. The database always
  takes fresh numbers, and for those the condition holds (`FreshNeverDiverges`).
- A repeating timer is re-armed strictly later than loop time exactly if loop time is below
  2^64 - 1, where the due time saturates (`RearmsLater`).
- nanopb's encoder accepts a text that fills its array without a terminator; its decoder refuses
  the bytes. That is the only message that does not come back (`RoundTrip`). A fixed-length bytes
  field in a proto3 message counts as zero only if its length is zero, and so is always sent.
- nanopb's 32-bit varint reader checks the fifth digit only if it is the last one: bytes 80 80 80
  80 F0 00 write 7 * 2^32 and are read as 0 (`LargeIsReadAsZero`). `WhatIsAccepted` gives the
  strings it accepts; it reads the number that is written exactly if that is below 2^32
  (`WhatIsRead`). Its bit counter has eight bits and wraps after 37 digits (`CounterWraps`). No
  encoder here writes such strings.
- The block reader adds two lengths in 32 bits before it compares them with what is left
  (`table/block.cc:71`). Entry 00 FF FF FF FF 0F 01 passes, and its key would reach past the block
  (`WildEntryExists`); `DecodeEntry` states the exact condition.
- The sequence number of a database advances even when appending a log record fails
  (`db/db_impl.cc:1204-1236`); ranges stay disjoint all the same.
- Three branches are never taken: the re-entry test of `DBIter::Next` at `db/db_iter.cc:154-158`,
  the `child == heap->min` case of `heap_remove`, and nanopb's "submsg size changed".
- In the filter reader, `start == limit` is also what an out-of-range block would give; a window
  without keys matches nothing, an unknown window everything.
- In the log reader a physical record whose type byte is 5 or 6 with a valid checksum is taken for
  the reader's own end-of-file and bad-record marks: type 5 ends the file, type 6 is passed over,
  both without a call of the reporter, where any other unknown type makes one (`ReadAll`).
- A request for a new memtable (a write without a batch) that stands behind a leader with a batch
  may join its group, and then returns that group's status without having had any effect:
  `RequestIsMet` and `RequestJoins` say exactly when. Earlier writes are done by then, which is
  what `db/db_impl.cc:625` asks for; the memtable that a manual compaction means to flush this way
  (`db/db_impl.cc:579`) may stay as it is.
- A reader that takes no lock misses no key of the skip list that was published before its search
  began, and finds none that is not there (`SearchIsExact`, `KeyIsFound`).

## Model

| member | source | states |
|---|---|---|
| `Store.LookupIs` | app/Pods/leveldb-library/db/dbformat.cc:51-67 | The flat specification has one answer: when no two entries of a key share a sequence number, the newest visible entry decides a read, a deletion marker meaning "not found". |
| `Store.SameVisible` | app/Pods/leveldb-library/db/dbformat.cc:51-67 | Reads depend only on the visible entries of their key: two stores that agree on those answer alike, even at different snapshots. |
| `VersionGet.Probe` | app/Pods/leveldb-library/db/version_set.cc:263-276 | The entry a seek for (key, snapshot) lands on is the newest visible one of its key, or there is none. |
| `VersionGet.FindFile` | app/Pods/leveldb-library/db/version_set.cc:88-106 | Binary search splits the level at the first file whose largest key is at or after the target. |
| `VersionGet.OneFileSuffices` | app/Pods/leveldb-library/db/version_set.cc:326-421 | In a sorted, disjoint level only the file the search picks can hold the answer. |
| `VersionGet.SortNewestFirst` | app/Pods/leveldb-library/db/version_set.cc:278-304 | Level-0 candidates come out in decreasing file number, none lost and none invented. |
| `VersionGet.GetFromLevel0` | app/Pods/leveldb-library/db/version_set.cc:326-421 | Reading candidates newest file first finds the newest visible entry of the whole level, or there is none. |
| `VersionGet.GetFromLevel` | app/Pods/leveldb-library/db/version_set.cc:326-421 | One file of a deeper level answers for the whole level. |
| `VersionGet.FirstLevelWins` | app/Pods/leveldb-library/db/version_set.cc:326-421 | A hit in a level is newer than everything visible further down. |
| `VersionGet.Get` | app/Pods/leveldb-library/db/version_set.cc:326-421 | The level-by-level search returns exactly the flat lookup over all files, for every key and snapshot. |
| `VersionGet.DBGet` | app/Pods/leveldb-library/db/db_impl.cc:1100-1145 | Memtable, immutable memtable and version, asked in this order, refine the flat lookup over all three. |
| `DBIter.ViewIsLookup` | app/Pods/leveldb-library/db/db_iter.cc:141-299 | The visible sequence holds a key with a value exactly if a read of the key finds that value. |
| `DBIter.ViewSorted` | app/Pods/leveldb-library/db/db_iter.cc:141-299 | The visible sequence is strictly increasing in user key. |
| `DBIter.DBIter.Next` | app/Pods/leveldb-library/db/db_iter.cc:141-166 | Moves exactly one step forward in the visible sequence, also just after moving backward; invalid exactly past the end. |
| `DBIter.DBIter.FindNextUserEntry` | app/Pods/leveldb-library/db/db_iter.cc:168-198 | Stops at the first live entry from a given place on, whatever markers and hidden entries lie between. |
| `DBIter.DBIter.Prev` | app/Pods/leveldb-library/db/db_iter.cc:200-225 | Moves exactly one step backward, also just after moving forward; invalid exactly before the first. |
| `DBIter.DBIter.FindPrevUserEntry` | app/Pods/leveldb-library/db/db_iter.cc:227-267 | Stops at the last live entry at or before the internal position and skips no live one. |
| `DBIter.DBIter.Seek` | app/Pods/leveldb-library/db/db_iter.cc:269-281 | Stands at the first visible key at or after the target, in either direction beforehand. |
| `DBIter.DBIter.SeekToFirst` | app/Pods/leveldb-library/db/db_iter.cc:283-292 | Position 0 of the visible sequence, or invalid if it is empty. |
| `DBIter.DBIter.SeekToLast` | app/Pods/leveldb-library/db/db_iter.cc:294-299 | The last position of the visible sequence, or invalid if it is empty. |
| `DBIter.DBIter.Key` | app/Pods/leveldb-library/db/db_iter.cc:64-67 | The key shown is that of the visible sequence at the cursor, in both directions. |
| `DBIter.DBIter.Value` | app/Pods/leveldb-library/db/db_iter.cc:68-71 | The value shown is that of the visible sequence at the cursor, in both directions. |
| `DBScan.AddIterators` | app/Pods/leveldb-library/db/version_set.cc:230-246 | One stream for each level-0 file and one for each deeper level that has files. |
| `DBScan.LevelsAreStreams` | app/Pods/leveldb-library/db/version_set.cc:230-246 | Those streams are sorted, no two share a key, and together they hold exactly the entries of the version. |
| `DBScan.NewInternalIterator` | app/Pods/leveldb-library/db/db_impl.cc:1062-1092 | The merging iterator over the memtables and a version walks exactly all their entries in key order. |
| `DBScan.NewIterator` | app/Pods/leveldb-library/db/db_impl.cc:1147-1157 | The user's cursor over that merge walks, in strictly increasing key order, exactly the values that the flat lookup (DBGet's) finds at the snapshot. |
| `DBScan.ScanForward` | app/Pods/leveldb-library/db/db_iter.cc:141-198 | A scan from the first key on lists exactly the pairs that point lookups at the snapshot find. |
| `DBScan.ScanBackward` | app/Pods/leveldb-library/db/db_iter.cc:200-267 | So does a scan from the last key backwards. |
| `DBScan.ListingIsUnique` | app/Pods/leveldb-library/db/db_iter.cc:141-299 | There is one such list, so both scans give the same. |
| `Merger.MergeExists` | app/Pods/leveldb-library/table/merger.cc:148-161 | Sorted streams without a key in common have one sorted sequence of all their entries. |
| `Merger.MergingIterator.SeekToFirst` | app/Pods/leveldb-library/table/merger.cc:31-37 | Stands at place 0 of the merged sequence, which is its end if all children are empty. |
| `Merger.MergingIterator.SeekToLast` | app/Pods/leveldb-library/table/merger.cc:39-45 | Stands at the last place of the merged sequence. |
| `Merger.MergingIterator.Seek` | app/Pods/leveldb-library/table/merger.cc:47-53 | Stands at the first place of the merged sequence at or after the target. |
| `Merger.MergingIterator.Next` | app/Pods/leveldb-library/table/merger.cc:55-79 | Exactly one place forward in the merged sequence, also just after moving backward, when every other child has to be placed again. |
| `Merger.MergingIterator.Prev` | app/Pods/leveldb-library/table/merger.cc:81-108 | Exactly one place backward, also just after moving forward; not valid before the first. |
| `Merger.MergingIterator.FindSmallest` | app/Pods/leveldb-library/table/merger.cc:148-161 | With every child at its share of the first p entries, the scan stops at the one child that shows entry p. |
| `Merger.MergingIterator.FindLargest` | app/Pods/leveldb-library/table/merger.cc:163-176 | With every child on the last of its share of the first p entries, the scan stops at the one child that shows entry p - 1. |
| `CompactionWork.Compaction.IsBaseLevelForKey` | app/Pods/leveldb-library/db/version_set.cc:1533-1552 | For keys asked in order, the cursors that never move back answer exactly whether no deeper file range includes the key. |
| `CompactionWork.DoCompactionWork` | app/Pods/leveldb-library/db/db_impl.cc:905-999 | The output files together hold exactly the entries that neither drop rule removes, in order, and are cut where one of the size tests says so and nowhere else. |
| `CompactionReads.KeptSorted` | app/Pods/leveldb-library/db/db_impl.cc:929-999 | The kept entries are in key order, as a table builder needs them. |
| `CompactionReads.KeptIsLean` | app/Pods/leveldb-library/db/db_impl.cc:941-963 | No more is kept than snapshots need: of two entries kept for one user key the newer is behind the oldest snapshot, and a marker that every snapshot sees is kept only if the range of a deeper file includes its key. |
| `CompactionReads.CompactionPreservesReads` | app/Pods/leveldb-library/db/db_impl.cc:929-963 | All reads at snapshots in use are unchanged if and only if no dropped deletion marker stands over a value outside the input. |
| `CompactionReads.ClosedInputsPreserveReads` | app/Pods/leveldb-library/db/db_impl.cc:929-963 | Reads are unchanged when everything outside the input is newer than it or lies in the levels the base-level test looks at. |
| `InputSelection.GetOverlappingInputs` | app/Pods/leveldb-library/db/version_set.cc:519-559 | At level 0 the restarting scan ends, with the least range around the one asked for that no file straddles; deeper levels get the plain overlap. |
| `InputSelection.FindSmallestBoundaryFile` | app/Pods/leveldb-library/db/version_set.cc:1342-1362 | Finds the boundary file with the smallest key, or there is no boundary file. |
| `InputSelection.AddBoundaryInputs` | app/Pods/leveldb-library/db/version_set.cc:1364-1401 | Adds one next boundary file after another and ends with no file of the level starting inside the inputs' last user key. |
| `InputSelection.GetRange` | app/Pods/leveldb-library/db/version_set.cc:1205-1221 | The smallest and largest keys over all the inputs. |
| `InputSelection.ClusterStays` | app/Pods/leveldb-library/db/version_set.cc:1364-1401 | At level 0 the picked files never have boundary files to add. |
| `InputSelection.OverlappingRun` | app/Pods/leveldb-library/db/version_set.cc:519-559 | In a sorted level the overlapping files are one contiguous run, with everything before ending before the range and everything after starting after it. |
| `InputSelection.WiderPicksMore` | app/Pods/leveldb-library/db/version_set.cc:1419-1447 | A wider range that picks as many files picks the same files: comparing counts is enough for the expansion test. |
| `InputSelection.SetupOtherInputs` | app/Pods/leveldb-library/db/version_set.cc:1403-1462 | The upper inputs are boundary-closed and keep their shape, and the lower inputs are exactly what overlaps them. The upper inputs are expanded exactly if that takes in more files, keeps the sum of sizes below the limit and picks no further lower file. |
| `InputSelection.Widen` | app/Pods/leveldb-library/db/version_set.cc:1419-1447 | The expansion that is tried: everything of the upper level that overlaps the whole range, with its boundary files. |
| `SelectionReads.LeftBehindIsNewer` | app/Pods/leveldb-library/db/version_set.cc:1403-1462 | Every file a selection leaves at or above its lower level is newer than the files it takes wherever they share a user key; in the lower level itself the one exception is the key at which the chosen files end while the level goes on with it (the split key). |
| `SelectionReads.OneSplitKey` | app/Pods/leveldb-library/db/version_set.cc:1403-1462 | There is at most one split key, and none exactly if the lower inputs are boundary-closed. |
| `SelectionReads.SelectionPreservesReads` | app/Pods/leveldb-library/db/db_impl.cc:929-963 | With the files really selected, every read at a snapshot in use of any key but the split one is unchanged; all reads are unchanged if and only if the split key's newest entry is not an input marker that is dropped over a value left out. |
| `SelectionReads.SplitSelection` | app/Pods/leveldb-library/db/version_set.cc:1407-1411 | A selection the code makes that has a split key: only the upper level gets its boundary files. |
| `SelectionReads.SplitResurrects` | app/Pods/leveldb-library/db/db_impl.cc:929-963 | Compacting that selection brings a deleted value back, in a tree that is well formed and gives each entry of a key its own sequence number. |
| `VersionStep.StaysSorted` | app/Pods/leveldb-library/db/version_set.cc:695-754 | After a compaction is installed every level below the first is sorted and disjoint again. |
| `VersionStep.StaysWellFormed` | app/Pods/leveldb-library/db/version_set.cc:695-754 | A compaction keeps everything the level-by-level read relies on, whatever the lower inputs end with: sorted levels, newer above older, level 0 aged by number. |
| `VersionStep.CompactionStep` | app/Pods/leveldb-library/db/db_impl.cc:860-876 | From selected files to installed version: the next version is well formed, reads at snapshots in use of all keys but the split one answer as before, and all do if and only if the split key loses no marker over a value left out. |
| `VersionStep.TrivialMove` | app/Pods/leveldb-library/db/db_impl.cc:719-738 | Moving a lone file down unchanged keeps the version well formed and its entries the same. |
| `CompactionRun.InputsMerge` | app/Pods/leveldb-library/db/version_set.cc:1237-1268 | The streams made for the chosen files, one for each level-0 file and one for each deeper level, merge into all their entries in key order. |
| `CompactionRun.ReadInputs` | app/Pods/leveldb-library/db/db_impl.cc:899-969 | What the compaction loop reads from the merging iterator is exactly that sorted sequence. |
| `CompactionRun.EditInstalls` | app/Pods/leveldb-library/db/db_impl.cc:860-876 | The edit, which deletes by number, takes exactly the inputs out of their levels and puts exactly the outputs into the lower one, with numbers fresh for the builder. |
| `CompactionRun.InstallResults` | app/Pods/leveldb-library/db/db_impl.cc:860-876 | LogAndApply on that edit installs the outputs for the inputs, and file numbers still tell files apart. |
| `CompactionRun.RunCompaction` | app/Pods/leveldb-library/db/db_impl.cc:878-1036 | End to end, from the files a picker starts with: selection, merge, drop rules, output files, edit, new version, with any number of memtables flushed meanwhile. The version is well formed if and only if no output reaches across a table flushed to the lower level; reads are unchanged but for the split key, and all are if and only if it loses no marker over a value left out. |
| `FlushStep.SomeFileOverlapsRange` | app/Pods/leveldb-library/db/version_set.cc:124-155 | Both the full scan and the binary search answer exactly whether some file overlaps the range. |
| `FlushStep.PickLevelForMemTableOutput` | app/Pods/leveldb-library/db/version_set.cc:491-516 | The table goes as deep as it can, at most to level 2, past levels it does not overlap and within its share of the level after. |
| `FlushStep.EnterKeepsWellFormed` | app/Pods/leveldb-library/db/db_impl.cc:491-533 | A newest file keeps a version well formed if and only if it is apart from its level and shares no user key with the levels above it. |
| `FlushStep.FlushKeepsReads` | app/Pods/leveldb-library/db/db_impl.cc:535-566 | A flush between compactions leaves a well-formed version in which every read answers as with the memtable. |
| `FlushRace.FlushesDuringCompaction` | app/Pods/leveldb-library/db/db_impl.cc:905-917 | Any number of memtables flushed while a compaction runs, each to a level picked from the version before it: the version installed in the end is well formed if and only if no output reaches across a table that went to the compaction's lower level. |
| `FlushRace.EveryCut` | app/Pods/leveldb-library/db/db_impl.cc:905-917 | What can be told when the flushes pick their levels: the version is well formed for every way of cutting the kept entries into output files if and only if, for each table flushed to the lower level, all kept entries lie to one side of it. |
| `FlushRace.FlushesKeepReads` | app/Pods/leveldb-library/db/db_impl.cc:905-917 | Flat reads of the flushed entries do not change, nor any others but the split key's, and all are unchanged if and only if it loses no marker over a value left out. |
| `FlushRace.GapSelection` | app/Pods/leveldb-library/db/version_set.cc:1464-1495 | Two upper files with a gap between them and nothing below form a legal selection, written as one output file. |
| `FlushRace.GapLevelPicked` | app/Pods/leveldb-library/db/version_set.cc:491-516 | The program's own level test gives a memtable's table in that gap level 2, where the compaction writes. |
| `FlushRace.GapKept` | app/Pods/leveldb-library/db/db_impl.cc:929-969 | The compaction keeps both entries around the gap, so they do not lie to one side of the flushed table. |
| `FlushRace.GapHappens` | app/Pods/leveldb-library/db/db_impl.cc:905-917 | Such a flush and a version installed after it exist. |
| `FlushRace.FlushedTableIsLost` | app/Pods/leveldb-library/db/version_set.cc:741-754 | Then level 2 is out of order in every version the compaction makes with its one output, and the search for the flushed key stops at a file without it. |
| `Manifest.OrderedIsUnique` | app/Pods/leveldb-library/db/version_set.cc:592-605 | A set of files can be arranged by smallest key and number in one way only. |
| `Manifest.ReplayIsLive` | app/Pods/leveldb-library/db/version_set.cc:650-754 | One builder over all edits gives, at every point of the manifest, the very sequence of files that saving after each edit gave, if and only if no edit adds (a) the number of a deleted file that the builder still has, in its base or, unless that very file is added again, among those added before, or (b) a file whose smallest key and number an added file has that is not deleted. |
| `Manifest.FreshNeverDiverges` | app/Pods/leveldb-library/db/version_set.cc:650-754 | File numbers that never enter a level twice meet that condition. |
| `Manifest.ReusedNumberRevives` | app/Pods/leveldb-library/db/version_set.cc:650-754 | A number that comes back under another file brings the deleted file back with it. |
| `Manifest.SharedKeyDiverges` | app/Pods/leveldb-library/db/version_set.cc:592-612 | Two files with one smallest key and number, added by two edits: one builder keeps the first alone, saving after each edit keeps both, be they different or the same. |
| `Manifest.InsertFile` | app/Pods/leveldb-library/db/version_set.cc:592-612 | The file enters in order, unless one with its smallest key and number is there: then nothing changes. |
| `Manifest.Builder.Apply` | app/Pods/leveldb-library/db/version_set.cc:650-692 | The deleted numbers and the added files of each level are, after any edits, what Masked and Held say. |
| `Manifest.Merge` | app/Pods/leveldb-library/db/version_set.cc:695-754 | The walk with upper_bound gives the ordered merge of base and added files, base first among equals, without the deleted ones, for any sequences it can be given. |
| `Manifest.Builder.SaveTo` | app/Pods/leveldb-library/db/version_set.cc:695-754 | Each level is the merge of the base with all files ever added, less the numbers deleted and not added again. |
| `Manifest.OneEdit` | app/Pods/leveldb-library/db/version_set.cc:650-754 | Of one edit with fresh numbers that is, as a set, (base + added) minus deleted, in strict order. |
| `Manifest.LogAndApply` | app/Pods/leveldb-library/db/version_set.cc:801-884 | The new version is what one builder makes of the current one and the edit, file by file. |
| `Manifest.Recover` | app/Pods/leveldb-library/db/version_set.cc:886-1011 | The version is what one builder makes of all edits together. |
| `Manifest.ApplyAll` | app/Pods/leveldb-library/db/version_set.cc:801-884 | The chain of LogAndApply gives Live: each edit applied to the version before it. |
| `Manifest.RecoverCurrent` | app/Pods/leveldb-library/db/version_set.cc:886-1011 | Recovery rebuilds, file by file and in the same order, the version that was current when the manifest was written, whenever no edit makes the two diverge, and so for fresh numbers; then each level is in strict order and holds the files added and not deleted. |
| `Durability.CommitKeeps` | app/Pods/leveldb-library/db/db_impl.cc:550-555 | Moving the log number forward changes nothing that a crash would bring back when the record also adds tables covering the logs left behind. |
| `Durability.DeleteKeeps` | app/Pods/leveldb-library/db/db_impl.cc:223-278 | Deleting logs below the log number and tables outside the manifest changes nothing that a crash would bring back. |
| `Durability.Database.Append` | app/Pods/leveldb-library/db/db_impl.cc:1209-1226 | A record reaches the current log; everything acknowledged stays recoverable. |
| `Durability.Database.Acknowledge` | app/Pods/leveldb-library/db/db_impl.cc:1223-1255 | Writes are acknowledged only when they are recoverable from disk as it is. |
| `Durability.Database.SwitchMemtable` | app/Pods/leveldb-library/db/db_impl.cc:1345-1367 | A new log and memtable; the invariant ties the immutable memtable to the logs that still hold it. |
| `Durability.Database.StartFlush` | app/Pods/leveldb-library/db/db_impl.cc:535-543 | The number of the table to be written is protected from deletion from the start. |
| `Durability.Database.WriteTablePart` | app/Pods/leveldb-library/db/db_impl.cc:491-533 | Any part of the memtable's table on disk leaves every acknowledged write recoverable. |
| `Durability.Database.WriteTable` | app/Pods/leveldb-library/db/db_impl.cc:491-533 | A partly written table endangers nothing, in a flush or in recovery. |
| `Durability.Database.FinishTable` | app/Pods/leveldb-library/db/db_impl.cc:535-552 | The edit covers exactly the immutable memtable, which holds everything in the logs it leaves behind. |
| `Durability.Database.CommitManifest` | app/Pods/leveldb-library/db/db_impl.cc:550-555 | The commit point of a flush keeps every acknowledged write recoverable. |
| `Durability.Database.Install` | app/Pods/leveldb-library/db/db_impl.cc:557-563 | The immutable memtable is dropped only when its writes are in tables of the current version. |
| `Durability.Database.DeleteObsolete` | app/Pods/leveldb-library/db/db_impl.cc:223-278 | Removes exactly the logs behind the version's log number and the tables neither in the version nor being written; nothing acknowledged is lost. |
| `Durability.Database.RemoveFiles` | app/Pods/leveldb-library/db/db_impl.cc:223-278 | Nor is it when a crash leaves only some of those files removed: the disk would bring back exactly the same writes. |
| `Durability.Database.Crash` | app/Pods/leveldb-library/db/db_impl.cc:535-566 | At any step: every acknowledged write is in a table of the manifest or in a log it keeps; and while the database runs those hold exactly what reads find, besides the record being written. |
| `Durability.Database.Reopen` | app/Pods/leveldb-library/db/db_impl.cc:280-369 | Every log at or above the manifest's log number is to be replayed, and no other. |
| `Durability.Database.RecoversNoMore` | app/Pods/leveldb-library/db/db_impl.cc:331-369 | In every state of a recovery each write of a recovered table is in a log of the disk numbered at or above the manifest's log number, and the disk would bring back exactly what it would have when it was reopened. |
| `Durability.Database.LaterLogsWin` | app/Pods/leveldb-library/db/db_impl.cc:350-365 | In every state of a recovery each recovered table holds writes of one such log, and a table with a larger number, which wins a read at level 0, those of the same log or a later one. |
| `Durability.Database.ReplayLog` | app/Pods/leveldb-library/db/db_impl.cc:371-489 | Oldest log first, cut into tables of any size: the recovered tables gain exactly the writes of that log. |
| `Durability.Database.OpenLog` | app/Pods/leveldb-library/db/db_impl.cc:1483-1497 | A fresh log, numbered above every old one, once all are replayed. |
| `Durability.Database.CommitRecovery` | app/Pods/leveldb-library/db/db_impl.cc:1498-1515 | After recovery the tables of the version that serves reads hold exactly the writes that the reopened disk would bring back, and so every write ever acknowledged. |
| `GroupCommit.GroupIsUnique` | app/Pods/leveldb-library/db/db_impl.cc:1260-1306 | The size and sync rules leave exactly one group for a queue. |
| `GroupCommit.BuildBatchGroup` | app/Pods/leveldb-library/db/db_impl.cc:1260-1306 | The longest prefix nobody is excluded from, merged in order; a sync write never joins a group led by a non-sync one. In bytes: a group of several batches holds at most 1048576, or 131072 more than its leader if the leader has no more than 131072, and the writer behind the group asks for a sync or would exceed that. |
| `GroupCommit.BatchInGroup` | app/Pods/leveldb-library/db/db_impl.cc:1285-1303 | A batch stands in the merged one behind those of the writers before it and in front of the others, and counts with its whole size. |
| `GroupCommit.RequestJoins` | app/Pods/leveldb-library/db/db_impl.cc:1280-1306 | A request without a batch joins the group in front of it exactly if all writers before it do and it does not ask for a sync that the leader does not make. |
| `GroupCommit.WritePath.Enqueue` | app/Pods/leveldb-library/db/db_impl.cc:1185-1198 | Writers join at the back at any time; history, queue and threads stay in step. |
| `GroupCommit.WritePath.Check` | app/Pods/leveldb-library/db/db_impl.cc:1193-1199 | The waiting loop's test: a writer that is done returns its status, the one at the front leads, any other goes to sleep. |
| `GroupCommit.WritePath.WakeSpuriously` | app/Pods/leveldb-library/db/db_impl.cc:1193-1195 | Waking up without a signal disturbs nothing. |
| `GroupCommit.WritePath.NoneIsLost` | app/Pods/leveldb-library/db/db_impl.cc:1193-1255 | No wake-up is lost: in every reachable state the front writer and every writer that is done are awake, and every queued writer is asleep, awake or leading. |
| `GroupCommit.WritePath.OneLeader` | app/Pods/leveldb-library/db/db_impl.cc:1193-1199 | Two threads are never past the test at once, and the one that is stands at the front. |
| `GroupCommit.WritePath.EachIsTold` | app/Pods/leveldb-library/db/db_impl.cc:1239-1255 | Every finished writer has returned its group's status or is about to, not both. |
| `GroupCommit.WritePath.RequestIsMet` | app/Pods/leveldb-library/db/db_impl.cc:1200-1204 | In every reachable state: a request for a new memtable (a null batch) was met exactly if it led and MakeRoomForWrite let it through. One that joined another's group was told that group's status, and no memtable was switched for it. |
| `GroupCommit.WritePath.Begin` | app/Pods/leveldb-library/db/db_impl.cc:1200-1208 | The leader, back from making room: without room or batch it leaves alone and wakes the next, otherwise it takes its unique group, whose merged batch gets the next sequence numbers. A memtable is switched for it by force exactly if it has no batch and is let through. |
| `GroupCommit.WritePath.Log` | app/Pods/leveldb-library/db/db_impl.cc:1209-1233 | The group becomes at most one log record with its own sequence range. |
| `GroupCommit.WritePath.Complete` | app/Pods/leveldb-library/db/db_impl.cc:1227-1256 | Exactly the group finishes, once, in queue order and with the leader's status, is woken together with the new front, and the leader returns; nothing is done for a request in the group. The invariant keeps the successful log equal to the successful batches in order, with disjoint increasing ranges. |
| `GroupCommit.WritePath.PopGroup` | app/Pods/leveldb-library/db/db_impl.cc:1239-1248 | The loop pops exactly the writers up to the last of the group, marks all but the leader done and signals them. |
| `LogFormat.LayoutAppend` | app/Pods/leveldb-library/db/log_writer.cc:34-80 | Adding records one at a time builds the layout of the list. |
| `LogFormat.WholeIsLongest` | app/Pods/leveldb-library/db/log_reader.cc:56-271 | The records "wholly inside" a prefix are the longest run of records whose bytes fit in it. |
| `LogFormat.LayoutOffset` | app/Pods/leveldb-library/db/log_writer.cc:27-30 | The length of the file alone tells the writer's place in its block. |
| `LogFormat.AddsRecord` | app/Pods/leveldb-library/db/log_writer.cc:27-80 | A writer opened on an existing file and appending lays out one more record. |
| `LogFormat.Writer.AddRecord` | app/Pods/leveldb-library/db/log_writer.cc:34-80 | Appends exactly the fragments of the record, with block trailers and possibly an empty first fragment. |
| `LogFormat.Writer.EmitPhysicalRecord` | app/Pods/leveldb-library/db/log_writer.cc:82-108 | Header, masked checksum and payload, and the new block offset. |
| `LogFormat.Reader.ReadPhysicalRecord` | app/Pods/leveldb-library/db/log_reader.cc:189-271 | Next fragment if it is wholly there, otherwise end of file without a report; on any bytes at all the reader makes progress. |
| `LogFormat.Reader.ReadRecord` | app/Pods/leveldb-library/db/log_reader.cc:56-174 | The next record if it is wholly there, otherwise the end of the file, and no report is made. A whole physical record of type 5 in front of it ends the file and one of type 6 is passed over, both without a report; one of any other unknown type is passed over with exactly one report, of the size of its payload. |
| `LogFormat.ReadAll` | app/Pods/leveldb-library/db/log_reader.cc:56-271 | For any record list and any byte prefix of its file: exactly the records wholly inside, in order, and the reporter is never called. With one whole record of unknown type in front: nothing is read if its type is 5, everything otherwise; the reporter is called once, with the size of the payload, if its type is neither 5 nor 6, and not at all if it is. |
| `Coding.Fixed32RoundTrip` | app/Pods/leveldb-library/util/coding.cc:9-18 | Little-endian words read back. |
| `Coding.Fixed64RoundTrip` | app/Pods/leveldb-library/util/coding.cc:20-33 | Little-endian double words read back. |
| `Coding.UnmaskInverts` | app/Pods/leveldb-library/util/crc32c.h:22-38 | Unmasking a masked checksum gives the checksum. |
| `Coding.MaskRotates` | app/Pods/leveldb-library/util/crc32c.h:22-38 | Less the constant, the mask moves each bit of the checksum down 15 places, the lowest to the top. |
| `Coding.EncodeVarint32` | app/Pods/leveldb-library/util/coding.cc:47-73 | The unrolled encoder writes the base-128 digits, at most five bytes. |
| `Coding.GetVarint32` | app/Pods/leveldb-library/util/coding.cc:112-140 | Succeeds exactly if a varint of at most five bytes ends before the limit, and gives its value modulo 2^32 and the place behind it. |
| `Coding.GetVarint64` | app/Pods/leveldb-library/util/coding.cc:142-169 | Gives the value modulo 2^64 of a varint of at most ten bytes that ends before the limit, fails exactly if there is none, and reads back any encoded double word in front of any bytes. |
| `SkipList.LevelFollowsLinks` | app/Pods/leveldb-library/db/skiplist.h:262-281 | A level is what following its links visits. |
| `SkipList.LevelsNest` | app/Pods/leveldb-library/db/skiplist.h:337-368 | For every choice of heights each level is a sublist of the one below. |
| `SkipList.LevelIsSorted` | app/Pods/leveldb-library/db/skiplist.h:337-368 | Each level is in key order, and level 0 is the whole list. |
| `SkipList.List.FindGreaterOrEqual` | app/Pods/leveldb-library/db/skiplist.h:262-281 | Searching the towers gives what scanning level 0 gives, with the right predecessor at every level. |
| `SkipList.List.FindLessThan` | app/Pods/leveldb-library/db/skiplist.h:283-302 | The last node below the key, or the head. |
| `SkipList.List.FindLast` | app/Pods/leveldb-library/db/skiplist.h:304-322 | The last node, or the head of an empty list. |
| `SkipList.List.Contains` | app/Pods/leveldb-library/db/skiplist.h:370-378 | Exactly membership. |
| `SkipList.List.Insert` | app/Pods/leveldb-library/db/skiplist.h:336-368 | Adds exactly one key at its place, with the chosen height, and leaves a valid list. What readers can see of it is height + 1 stores: the node appears in the order, unlinked, and its levels are linked one by one. |
| `SkipList.List.Link` | app/Pods/leveldb-library/db/skiplist.h:362-368 | Each turn of the linking loop takes a valid list to a valid list with one more level linked. |
| `SkipList.List.PointAhead` | app/Pods/leveldb-library/db/skiplist.h:362-368 | The first store of a turn sets one link of the new node, at a level no link reaches: all links a search can follow are as before. |
| `SkipList.List.Publish` | app/Pods/leveldb-library/db/skiplist.h:362-368 | The second store makes the node reachable at exactly that level. |
| `SkipListReads.LoadsLink` | app/Pods/leveldb-library/db/skiplist.h:153-158 | A load from a node of a wired list follows the link that the interleaving below takes. |
| `SkipListReads.StoreKeepsTrack` | app/Pods/leveldb-library/db/skiplist.h:262-302 | Whatever store the writer makes between two loads, the reader still stands before its target on a node that reaches its level. |
| `SkipListReads.SearchIsExact` | app/Pods/leveldb-library/db/skiplist.h:262-322 | A search interleaved with any number of the writer's stores ends with the last published node before the target and the first that is not, in the list of its last load; it misses no node published before it began. |
| `SkipListReads.KeyIsFound` | app/Pods/leveldb-library/db/skiplist.h:370-378 | A key that was there before the search is found, and a key that is found is there. |
| `SkipListReads.NextIsExact` | app/Pods/leveldb-library/db/skiplist.h:206-210 | An iterator's step, at any time, leads to the first published node behind the one it is on. |
| `SkipListReads.StoresAreRun` | app/Pods/leveldb-library/db/skiplist.h:336-368 | The stores Insert makes are steps of the interleaving that the searches are proved against. |
| `SkipListReads.NewKeyIsFound` | app/Pods/leveldb-library/db/skiplist.h:370-378 | The key being inserted is found by every search that starts once its lowest level is linked, whatever is stored meanwhile. |
| `Block.DecodeEntry` | app/Pods/leveldb-library/table/block.cc:50-74 | Succeeds exactly if three varints are there and the sum of the last two lengths, taken in 32 bits, fits what is left; key and value lie within the limit if and only if that sum does not wrap. |
| `Block.EntryOrWild` | app/Pods/leveldb-library/table/block.cc:50-74 | At any bytes there is one whole entry, or one that passes the 32-bit test but reaches past the block, or neither, told apart by the lengths. |
| `Block.WildEntryExists` | app/Pods/leveldb-library/table/block.cc:71-73 | Bytes 00 FF FF FF FF 0F 01 are such an entry: their sum wraps to zero. |
| `Block.Iter.ParseNextKey` | app/Pods/leveldb-library/table/block.cc:224-251 | Rebuilds the next row from the previous key; on any bytes it gives the entry that is there, stops as corrupt if there is none, and says so if the entry reaches past the block. |
| `Block.Iter.Next` | app/Pods/leveldb-library/table/block.cc:137-140 | From a row to the next one, or past the end. |
| `Block.Iter.Prev` | app/Pods/leveldb-library/table/block.cc:142-161 | Lands on the immediate predecessor, found from a restart point; from the first row past the end. |
| `Block.Iter.Seek` | app/Pods/leveldb-library/table/block.cc:163-201 | Lands on the first row at or after the target although only restart points are searched by bisection. |
| `Block.Iter.SeekToFirst` | app/Pods/leveldb-library/table/block.cc:203-206 | Stands at the first row. |
| `Block.Iter.SeekToLast` | app/Pods/leveldb-library/table/block.cc:208-213 | Stands at the last row. |
| `BlockBuilder.Builder.Add` | app/Pods/leveldb-library/table/block_builder.cc:72-106 | One more row, sharing the longest common prefix or starting a restart point exactly every interval rows. |
| `BlockBuilder.Builder.Finish` | app/Pods/leveldb-library/table/block_builder.cc:62-70 | The bytes encode the rows, their restart offsets and the restart count. |
| `BlockBuilder.Open` | app/Pods/leveldb-library/table/block.cc:19-39 | The restart array is found from the end, its offset taken in 32 bits as the source does; any bytes are handled. |
| `BlockBuilder.NewIterator` | app/Pods/leveldb-library/table/block.cc:254-265 | An iterator over a finished block starts on sound ground. |
| `BlockBuilder.ReadBack` | app/Pods/leveldb-library/table/block.cc:76-252 | For every restart interval, reading a finished block gives the added rows in order. |
| `Separators.BytesTotal` | app/Pods/leveldb-library/util/comparator.cc:25-27 | The byte order is total and antisymmetric. |
| `Separators.FindShortestSeparator` | app/Pods/leveldb-library/util/comparator.cc:29-50 | Strictly between and as short as any string in the interval when the first difference leaves room, otherwise unchanged. |
| `Separators.FindShortSuccessor` | app/Pods/leveldb-library/util/comparator.cc:52-64 | A shortest string at or after the key, unchanged only if all its bytes are 0xff. |
| `Separators.FindShortestKeySeparator` | app/Pods/leveldb-library/db/dbformat.cc:69-86 | For internal keys: the start itself or a key strictly between whose user key differs from both. |
| `Separators.FindShortKeySuccessor` | app/Pods/leveldb-library/db/dbformat.cc:88-101 | For internal keys: the key itself or a later, not longer one. |
| `Separators.KeyTotal` | app/Pods/leveldb-library/db/dbformat.cc:51-67 | The order on encoded internal keys is total up to equal user key and tag. |
| `KeyRank.ByteRankOrders` | app/Pods/leveldb-library/util/comparator.cc:25-27 | Byte strings embed in the reals in their order: the place exists that the model of the tree gives to user keys. |
| `KeyRank.KeyRankOrders` | app/Pods/leveldb-library/db/dbformat.cc:51-67 | Encoded internal keys embed in the reals in their order. |
| `Separators.NoKeyInGap` | app/Pods/leveldb-library/table/table_builder.cc:102-109 | A seek key between a block's last key and its separator never looks for the next block's first user key. |
| `Bloom.SetsOneBit` | app/Pods/leveldb-library/util/bloom.cc:48-52 | Or-ing one bit into a byte sets that bit and no other. |
| `Bloom.CreateFilter` | app/Pods/leveldb-library/util/bloom.cc:28-54 | Exactly the probed bits of exactly the added keys are set, in an array of the right size, followed by the probe count. |
| `Bloom.DeltaRotates` | app/Pods/leveldb-library/util/bloom.cc:47 | The second hash is the first with each bit moved down 17 places, the lowest to the top. |
| `FormatBytes.ProbeSum` | app/Pods/leveldb-library/util/bloom.cc:46-52 | Probe j of a key adds the second hash j times. |
| `Bloom.KeyMayMatch` | app/Pods/leveldb-library/util/bloom.cc:56-80 | Exactly whether all probes hit, reserved encodings matching everything. |
| `Bloom.KeysPass` | app/Pods/leveldb-library/util/bloom.cc:28-80 | No false negatives. |
| `FilterBlock.Builder.StartBlock` | app/Pods/leveldb-library/table/filter_block.cc:21-27 | Keys so far close the filter of their 2 KB window; skipped windows get empty filters. |
| `FilterBlock.Builder.GenerateFilter` | app/Pods/leveldb-library/table/filter_block.cc:51-75 | The keys waiting become one filter at the next offset. |
| `FilterBlock.Builder.Finish` | app/Pods/leveldb-library/table/filter_block.cc:35-49 | Filters, their offsets and the place of the offset array. |
| `FilterBlock.Reader.KeyMayMatch` | app/Pods/leveldb-library/table/filter_block.cc:77-104 | False only for keys not added for the window of the block's offset; an empty window matches nothing, an unknown one everything. |
| `Format.DecodeHandle` | app/Pods/leveldb-library/table/format.cc:23-29 | Block handles read back, and what follows them is left. |
| `Format.DecodeFooter` | app/Pods/leveldb-library/table/format.cc:31-62 | The footer gives back both handles; without the magic number it is refused. |
| `Format.ReadBlock` | app/Pods/leveldb-library/table/format.cc:64-139 | Succeeds exactly if the file holds the block and its trailer, uncompressed and with the right checksum if that is looked at, and gives its bytes. |
| `Table.AnswerIsInSection` | app/Pods/leveldb-library/table/table.cc:216-244 | The first entry at or after the seek key is in the block the index names or the next one, and has the sought user key only in the former. |
| `Table.Table.BlockReader` | app/Pods/leveldb-library/table/table.cc:155-208 | The block an index entry names is found with its rows. |
| `Table.Table.InternalGet` | app/Pods/leveldb-library/table/table.cc:216-244 | Reports an entry whenever the first entry at or after the key in the whole table has its user key, and only ever that first entry. |
| `TableBuilder.Builder.Add` | app/Pods/leveldb-library/table/table_builder.cc:94-123 | One more row in key order; index, filters and stored blocks stay in step, the separator written when the next key is known. The open block is written out exactly when its bytes reach the block size. |
| `TableBuilder.Builder.Flush` | app/Pods/leveldb-library/table/table_builder.cc:125-139 | The open block becomes a stored section whose index entry waits. |
| `TableBuilder.Builder.WriteRawBlock` | app/Pods/leveldb-library/table/table_builder.cc:177-194 | Contents, type and masked checksum at the handle returned. |
| `TableBuilder.Builder.Finish` | app/Pods/leveldb-library/table/table_builder.cc:198-253 | The file holds all rows added in stored blocks with a complete index, a metaindex that names the filters if there are any, every key covered by its window's filter, and a footer that leads to both. |
| `TableBuilder.Builder.WriteMetaindex` | app/Pods/leveldb-library/table/table_builder.cc:216-230 | One row says where the filter block is, under the policy's name, or none. |
| `TableFile.Open` | app/Pods/leveldb-library/table/table.cc:38-134 | From the bytes of a file alone: a finished table opens as one on which InternalGet is exact, with the filters its metaindex names under the reader's policy or without; any bytes are handled. |
| `TableFile.FirstIsFirst` | app/Pods/leveldb-library/table/table.cc:216-244 | The first row at or after a key in the blocks is the first in the flat list of rows. |
| `TableFile.KeyOrderRepresents` | app/Pods/leveldb-library/db/dbformat.cc:51-67 | The comparator's order on encoded keys is an order of places as the table model asks for. |
| `TableFile.Build` | app/Pods/leveldb-library/table/table_builder.cc:94-253 | Rows in key order become a finished file that holds exactly them. |
| `TableFile.BuildAndGet` | app/Pods/leveldb-library/table/table.cc:38-244 | Built, opened and searched: what InternalGet reports is the first row of the list at or after the key, and that row is reported if it has the user key sought, with filters or without, whatever the options. |
| `HandleTable.Table.FindPointer` | app/Pods/leveldb-library/util/cache.cc:114-120 | The link to the handle with this key and hash, or the trailing link of its bucket. |
| `HandleTable.Table.Lookup` | app/Pods/leveldb-library/util/cache.cc:74-76 | The one handle with this key and hash, or none exists. |
| `HandleTable.Table.Insert` | app/Pods/leveldb-library/util/cache.cc:78-92 | Adds the handle, returning the one it replaces; the table grows exactly when there would be more handles than buckets, which keeps the contents. |
| `HandleTable.Table.Remove` | app/Pods/leveldb-library/util/cache.cc:94-102 | Takes out exactly the handle with this key and hash. |
| `HandleTable.Table.Resize` | app/Pods/leveldb-library/util/cache.cc:122-147 | Every handle is relinked into a fresh power-of-two array; the contents are the same. |
| `HandleTable.NewLength` | app/Pods/leveldb-library/util/cache.cc:123-126 | The smallest power of two from 4 on that is not below the element count. |
| `LruCache.LRU_Remove` | app/Pods/leveldb-library/util/cache.cc:239-242 | Takes one handle out of its ring; order and the other ring are untouched. |
| `LruCache.LRU_Append` | app/Pods/leveldb-library/util/cache.cc:244-250 | The handle becomes the newest of the ring; the other ring is untouched. |
| `LruCache.Cache.Ref` | app/Pods/leveldb-library/util/cache.cc:217-223 | The first client reference moves the handle from the LRU list to the in-use list; counts stay exact. |
| `LruCache.Cache.Unref` | app/Pods/leveldb-library/util/cache.cc:225-237 | The deleter runs once and only when no reference is left; a cached handle without clients goes to the newest end of the LRU list. |
| `LruCache.Cache.FinishErase` | app/Pods/leveldb-library/util/cache.cc:305-316 | Takes a handle out of the cache: lists, usage, membership flag and the cache's reference. |
| `LruCache.Cache.Lookup` | app/Pods/leveldb-library/util/cache.cc:252-259 | A hit gives the client a reference and protects the handle from eviction; a miss means no such entry. |
| `LruCache.Cache.Release` | app/Pods/leveldb-library/util/cache.cc:261-264 | Drops one client reference; only an erased handle's last one runs the deleter. |
| `LruCache.Cache.Erase` | app/Pods/leveldb-library/util/cache.cc:318-321 | Exactly the entries with this key and hash leave; clients keep what they hold. |
| `LruCache.Cache.EvictWhileFull` | app/Pods/leveldb-library/util/cache.cc:293-300 | Evicts the least recently used unheld handles, oldest first, no more than needed, until usage fits or nothing is evictable. |
| `LruCache.Cache.Insert` | app/Pods/leveldb-library/util/cache.cc:266-303 | The new entry replaces its key's old one; afterwards usage is within capacity or nothing is evictable; the whole reference, list and usage invariant holds. |
| `LruCache.Cache.Prune` | app/Pods/leveldb-library/util/cache.cc:323-333 | Exactly the unheld entries leave. |
| `HeapInl.PathTo` | app/Pods/Libuv-gRPC/src/heap-inl.h:119-124 | Following the bits taken from a node number leads from the root to that node. |
| `HeapInl.Heap.Min` | app/Pods/Libuv-gRPC/src/heap-inl.h:67-69 | A node no other is less than, for any strict weak order. |
| `HeapInl.Heap.NodeSwap` | app/Pods/Libuv-gRPC/src/heap-inl.h:72-104 | The pointer surgery exchanges parent and child in level order and nothing else. |
| `HeapInl.Heap.Walk` | app/Pods/Libuv-gRPC/src/heap-inl.h:119-136 | The bit path reaches the link of the first free or last node. |
| `HeapInl.Heap.SiftUp` | app/Pods/Libuv-gRPC/src/heap-inl.h:143-147 | Restores heap order upwards with the same nodes. |
| `HeapInl.Heap.SiftDown` | app/Pods/Libuv-gRPC/src/heap-inl.h:216-229 | Restores heap order downwards with the same nodes. |
| `HeapInl.Heap.Insert` | app/Pods/Libuv-gRPC/src/heap-inl.h:106-148 | A complete, consistently linked, ordered tree of exactly the old nodes and the new one. |
| `HeapInl.Heap.Remove` | app/Pods/Libuv-gRPC/src/heap-inl.h:150-237 | Any node can go: a complete, consistently linked, ordered tree of exactly the others. |
| `HeapInl.Heap.Dequeue` | app/Pods/Libuv-gRPC/src/heap-inl.h:239-241 | Removes the least node. |
| `HeapInl.TotalIsWeak` | app/Pods/Libuv-gRPC/src/heap-inl.h:44-48 | Every strict total order is a comparison the heap can be used with. |
| `Timer.RearmsLater` | app/Pods/Libuv-gRPC/src/timer.c:66-94 | A repeating timer is re-armed strictly later than loop time if and only if the loop time is below the largest 64-bit value. |
| `Timer.Loop.Start` | app/Pods/Libuv-gRPC/src/timer.c:66-94 | Armed at the clamped due time with the next start number, or refused without effect. |
| `Timer.Loop.Stop` | app/Pods/Libuv-gRPC/src/timer.c:97-107 | Out of the heap, wherever it was. |
| `Timer.Loop.Close` | app/Pods/Libuv-gRPC/src/timer.c:174-176 | Out of the heap, and never started again. |
| `Timer.Loop.Again` | app/Pods/Libuv-gRPC/src/timer.c:110-120 | Restarts a repeating timer from now; otherwise changes nothing. A closing timer is not restarted, and that is no error. |
| `Timer.Loop.NextTimeout` | app/Pods/Libuv-gRPC/src/timer.c:133-151 | The exact wait to the earliest timer, clamped; 0 if one is due, -1 if there is none. |
| `Timer.Loop.RunTimers` | app/Pods/Libuv-gRPC/src/timer.c:154-171 | Each due timer fires exactly once, earlier due times first and among equal ones the timer started earlier; repeating ones are pending strictly later, others untouched, none due is left. |
| `Timer.Loop.StartBoth` | app/Pods/Libuv-gRPC/src/timer.c:66-171 | Two timers started one after the other for the same time fire in that order, whenever the loop gets to them and whatever else is pending. |
| `ThreadPool.StepKeepsInv` | app/Pods/Libuv-gRPC/src/threadpool.c:57-160 | Every critical section keeps the invariant: one place per request, marker queued while slow work waits, slow work within its share, no lost wake-up. |
| `ThreadPool.RunKeepsInv` | app/Pods/Libuv-gRPC/src/threadpool.c:57-315 | The invariant holds after every interleaving of any length. |
| `ThreadPool.Delivery` | app/Pods/Libuv-gRPC/src/threadpool.c:295-315 | In every run a request is delivered at most once, cancelled if and only if its work never ran; twice the number of threads on slow work never exceeds the number of threads plus one; pending slow work implies a queued marker. (That each is delivered in the end is EveryRequestIsDelivered.) |
| `ThreadPool.SlowGetsItsShare` | app/Pods/Libuv-gRPC/src/threadpool.c:77-107 | With the marker in front and slow work pending, a free worker starts slow work exactly if twice the number of busy slow threads, with its own, is at most the number of threads plus one. |
| `ThreadOrder.FirstComeFirstStarted` | app/Pods/Libuv-gRPC/src/threadpool.c:57-160 | In every run: the fast requests started so far followed by those queued are the fast requests submitted, in that order, less the cancelled; the same for slow requests; and the queue as a whole, marker included, is first in, first out. |
| `ThreadOrder.FirstFinishedFirstDelivered` | app/Pods/Libuv-gRPC/src/threadpool.c:119-129 | In every run the requests that ran are delivered, or stand to be delivered, in the order in which their work finished. |
| `ThreadPool.QuietMeansDelivered` | app/Pods/Libuv-gRPC/src/threadpool.c:57-139 | When all workers sleep and the loop has nothing left, every submitted request has been delivered. |
| `ThreadProgress.StepComesCloser` | app/Pods/Libuv-gRPC/src/threadpool.c:57-139 | Every step of the workers and the loop leaves strictly less to do. |
| `ThreadProgress.NotStuck` | app/Pods/Libuv-gRPC/src/threadpool.c:57-139 | A pool that is not quiet has a step to take. |
| `ThreadProgress.ComesToRest` | app/Pods/Libuv-gRPC/src/threadpool.c:57-139 | From every state of the invariant its own steps lead the pool to rest: such a run exists. |
| `ThreadProgress.EveryRequestIsDelivered` | app/Pods/Libuv-gRPC/src/threadpool.c:57-315 | After any submissions and cancellations, the pool left to itself takes finitely many steps, and when it can take none every request has been delivered. |
| `ThreadPool.GuardsHold` | app/Pods/Libuv-gRPC/src/threadpool.c:57-139 | The conditions that make a step well defined hold whenever the program takes it. |
| `ThreadPool.CancelSucceeds` | app/Pods/Libuv-gRPC/src/threadpool.c:269-292 | When a cancellation succeeds, told from where the request is. |
| `ThreadPool.Pool.Submit` | app/Pods/Libuv-gRPC/src/threadpool.c:142-160 | The program's submission is the step of the protocol. |
| `ThreadPool.Pool.Take` | app/Pods/Libuv-gRPC/src/threadpool.c:57-117 | The top of the worker loop is the step of the protocol, with every branch of the throttle. |
| `ThreadPool.Pool.Finish` | app/Pods/Libuv-gRPC/src/threadpool.c:119-129 | Handing a result to the loop is the step of the protocol. |
| `ThreadPool.Pool.Relock` | app/Pods/Libuv-gRPC/src/threadpool.c:131-138 | Returning to the loop gives up the slow-work share. |
| `ThreadPool.Pool.Cancel` | app/Pods/Libuv-gRPC/src/threadpool.c:269-292 | Cancellation takes both its steps or fails without effect, with the documented status. |
| `ThreadPool.Pool.WorkDone` | app/Pods/Libuv-gRPC/src/threadpool.c:295-315 | The whole queue is delivered front to back, each with the cancelled status its work field tells. |
| `PbEncode.OStream.EncodeVarint` | app/Pods/nanopb/pb_encode.c:608-628 | Writes the base-128 digits, or only counts them. |
| `PbEncode.EncodeItem` | app/Pods/nanopb/pb_encode.c:769-910 | Each type's encoder writes the item's bytes, and fails exactly on an oversized byte array or a full stream. |
| `PbEncode.EncodeArray` | app/Pods/nanopb/pb_encode.c:147-236 | Packed behind the right size or one tagged value each; fails exactly on too many entries, an entry that does not fit or a full stream. |
| `PbEncode.EncodeField` | app/Pods/nanopb/pb_encode.c:341-426 | Sends exactly the values present by the field's rule, proto3 zero test included. |
| `PbEncode.EncodeSubmessage` | app/Pods/nanopb/pb_encode.c:717-765 | The sizing pass agrees with the writing pass: the "submsg size changed" error cannot happen. |
| `PbEncode.Encode` | app/Pods/nanopb/pb_encode.c:528-550 | Succeeds if and only if the contents fit their arrays and the bytes fit the stream, and then writes exactly the message's bytes. |
| `PbRoundTrip.GetEncodedSize` | app/Pods/nanopb/pb_encode.c:567-576 | The sizing stream gives exactly the number of bytes the writing stream writes. |
| `PbStream.IStream.DecodeVarint` | app/Pods/nanopb/pb_decode.c:255-275 | Reads exactly the varints of at most ten bytes, as their value modulo 2^64, and reads back any 64-bit value. |
| `PbStream.IStream.DecodeVarint32` | app/Pods/nanopb/pb_decode.c:187-252 | Succeeds exactly on the byte strings that Accepts describes and gives the value that Taken describes, on every input; reads back any 32-bit value. |
| `PbStream.WhatIsAccepted` | app/Pods/nanopb/pb_decode.c:187-247 | Which strings are accepted, up to where the 8-bit counter wraps: a varint whose fifth byte holds four bits and whose later bytes are empty or a sign extension, whatever bits 4 to 6 of the fifth byte say when more follow. |
| `PbStream.WhatIsRead` | app/Pods/nanopb/pb_decode.c:187-247 | An accepted string is read as the number it writes if and only if that is below 2^32; until the counter wraps any other is read modulo 2^32. |
| `PbStream.SmallIsTaken` | app/Pods/nanopb/pb_decode.c:187-247 | Any number below 2^32 is accepted and read as itself, however far it is padded. |
| `PbStream.LargeIsReadAsZero` | app/Pods/nanopb/pb_decode.c:205-236 | Bytes 80 80 80 80 F0 00 write 7 * 2^32 and are read as 0. |
| `PbStream.CounterWraps` | app/Pods/nanopb/pb_decode.c:192-236 | Behind 37 padding digits the counter has wrapped: a string that writes 2^259 is read as 8. |
| `PbDecode.CastComplement` | app/Pods/nanopb/pb_decode.c:1345-1380 | A value in its field's range survives 64-bit complement and the casts through 32 bits. |
| `PbDecode.DecodeScalar` | app/Pods/nanopb/pb_decode.c:1334-1523 | Each type's decoder gives back what was encoded, refusing exactly a text that fills its array. |
| `PbDecode.MakeSubstream` | app/Pods/nanopb/pb_decode.c:372-385 | A window on exactly the string that comes next, the stream waiting behind it. |
| `PbDecode.ZeroIsClean` | app/Pods/nanopb/pb_encode.c:240-337 | A value the proto3 test counts as zero, looking into submessages, is the decoder's default up to what is not set. |
| `PbDecodeMessage.DecodePacked` | app/Pods/nanopb/pb_decode.c:425-452 | A packed array comes back whole. |
| `PbDecodeMessage.DecodeStaticField` | app/Pods/nanopb/pb_decode.c:406-483 | One more unit of a field takes its slot one step further, by rule and wire type; of any bytes, what it accepts is the span of a field of that wire type, and its array grows by the entries in it. |
| `PbDecodeMessage.Find` | app/Pods/nanopb/pb_common.c:87-104 | The circular search finds the field with the number if there is one, from any starting place. |
| `PbDecodeMessage.SkipField` | app/Pods/nanopb/pb_decode.c:278-331 | On any bytes: passes over exactly the value that the wire type tells, and fails exactly if there is none. |
| `PbDecodeMessage.RequiredAt` | app/Pods/nanopb/pb_common.c:29-85 | Required fields are numbered without gaps, so the final check misses none of those tracked. |
| `PbDecodeMessage.Settle` | app/Pods/nanopb/pb_decode.c:934-1082 | What is left of a message, its own fields and any the descriptor does not know between them, and what the struct holds stay in step across fields with nothing to send. |
| `PbDecodeMessage.Finish` | app/Pods/nanopb/pb_decode.c:1032-1079 | At the end of a message every required field was seen, fixed-count arrays are complete and the struct holds the message. |
| `PbDecodeMessage.DecodeNoinit` | app/Pods/nanopb/pb_decode.c:934-1082 | Whatever the bytes: success means that they have a parse in which each of the first 64 required fields occurs and fixed-count arrays are complete. A message with any unknown fields between its own is decoded into a default struct if and only if every text sent is terminated, and gives the message up to what is not set. |
| `PbParse.ParseIsUnique` | app/Pods/nanopb/pb_decode.c:934-1082 | Bytes have at most one parse into fields, known or unknown. |
| `PbParse.LackingIsUnsound` | app/Pods/nanopb/pb_decode.c:1032-1079 | Bytes whose parse lacks one of those fields, or entries of an array, are therefore refused. |
| `PbDecodeMessage.Decode` | app/Pods/nanopb/pb_decode.c:1084-1096 | The same from any struct, defaults set first. |
| `PbRoundTrip.RoundTrip` | app/Pods/nanopb/pb_decode.c:934-1096 | For every well-formed descriptor tree and message: what the encoder accepts the decoder gives back, except exactly when a text fills its array without a terminator. |
| `PbForward.ReadOlder` | app/Pods/nanopb/pb_decode.c:934-1082 | Written under a descriptor and read under any subset of its fields: the reader gets the fields it knows, exactly if the texts among them are terminated; those it does not know are passed over. |
| `PbForward.NewerIsWoven` | app/Pods/nanopb/pb_decode.c:984-1004 | Under the smaller descriptor the bytes of the whole message are those of its known part with unknown fields woven in. |
| `PbRoundTrip.FullTextIsRefused` | app/Pods/nanopb/pb_encode.c:873-897 | Such a message exists and is accepted by the encoder. |
| `PbRoundTrip.CleanBytes` | app/Pods/nanopb/pb_encode.c:528-550 | What is not set is not sent: decoding and encoding again gives the same bytes. |
| `FormatBytes.LittleEndian32` | app/Pods/leveldb-library/util/coding.cc:9-18 | A word is written lowest byte first. |
| `FormatBytes.LittleEndian64` | app/Pods/leveldb-library/util/coding.cc:20-33 | So is a double word. |
| `FormatBytes.SmallVarints` | app/Pods/leveldb-library/util/coding.cc:47-73 | Varints of one to three bytes, digit by digit. |
| `FormatBytes.LogHeader` | app/Pods/leveldb-library/db/log_writer.cc:82-108 | A physical record: masked checksum of type and payload, two bytes of length, type, payload. |
| `FormatBytes.LogParts` | app/Pods/leveldb-library/db/log_writer.cc:34-80 | A record in an empty log is written whole (type 1) up to 32761 bytes, in two parts (2, 4) up to 65522 and in three (2, 3, 4) up to 98283, every part but the last filling its block of 32768 bytes. |
| `FormatBytes.LogBlockEnd` | app/Pods/leveldb-library/db/log_writer.cc:42-55 | With less than seven bytes left the block is filled with zeros; with just seven the first part is empty. |
| `FormatBytes.TwoRows` | app/Pods/leveldb-library/table/block_builder.cc:72-106 | A block of two rows byte for byte: shared, added and value lengths, added bytes, value; restart offsets and their number. |
| `FormatBytes.BlockTrailer` | app/Pods/leveldb-library/table/table_builder.cc:177-194 | Type 0 and the masked checksum of contents and type. |
| `FormatBytes.FooterBytes` | app/Pods/leveldb-library/table/format.cc:31-42 | Forty-eight bytes: both handles, zeros, and the bytes of the magic number. |
| `FormatBytes.FilterBlockEnd` | app/Pods/leveldb-library/table/filter_block.cc:35-49 | A filter block ends in the offset of its offset array and the number 11, and there is one filter for every 2^11 bytes of file. |
| `FormatBytes.NumberFields` | app/Pods/nanopb/pb_encode.c:608-706 | A field number up to 15 and its wire type share one byte; small numbers, plain and folded, follow in one or two. |
| `FormatBytes.NegativeNumber` | app/Pods/nanopb/pb_encode.c:776-797 | -2 takes ten bytes unless it is folded. |
| `FormatBytes.WordField` | app/Pods/nanopb/pb_encode.c:641-706 | A fixed word has wire type 5 and is written lowest byte first. |
| `FormatBytes.LongWordField` | app/Pods/nanopb/pb_encode.c:653-706 | A fixed double word has wire type 1 and is written lowest byte first. |
| `FormatBytes.TextField` | app/Pods/nanopb/pb_encode.c:669-715 | A text has wire type 2 and is prefixed by its length. |
| `FormatBytes.InnerField` | app/Pods/nanopb/pb_encode.c:717-765 | So is a message inside another. |
| `FormatBytes.FlagField` | app/Pods/nanopb/pb_encode.c:769-774 | A flag is the number 0 or 1. |
| `FormatBytes.ArrayFields` | app/Pods/nanopb/pb_encode.c:147-236 | An array of numbers goes behind one tag of wire type 2, one of texts repeats the tag. |
| `FormatBytes.FieldsInOrder` | app/Pods/nanopb/pb_encode.c:528-550 | Field i of a message stands behind the bytes of the fields before it. |
| `FormatBytes.DefaultsSendNothing` | app/Pods/nanopb/pb_encode.c:240-337 | A struct as it is initialised has nothing to send but required fields and fixed-count arrays. |

## Left out

- DoCompactionWork: unparseable internal keys, I/O errors and shutdown in the loop are not modelled.
- Merger.MergingIterator.Next: children are sorted streams without a key in common, as the files of a database are; their errors are not modelled, and TwoLevelIterator enters as the concatenation of its files.
- RunCompaction: the size tests that cut outputs are parameters, a file's size is its number of entries, and snapshots enter as the smallest one in use.
- SelectionPreservesReads: the code does not rule out that the split key loses a marker over a value left out.
- FlushesDuringCompaction: says when the resulting version is well formed; the code does not make sure of it.
- Manifest.Merge: the debug assertions on overlap in SaveTo and MaybeAddFile are not modelled; files of a base with one key may stand in any order among themselves.
- Manifest.ReplayIsLive: edits carry file sets only; compaction pointers and counters in the manifest are not modelled.
- RoundTrip: buffers below 4 GB, since length prefixes are read as 32-bit numbers, and descriptors as a generator writes them, with distinct field numbers below 2^29 and no non-zero default for a field that is left out when zero. Callbacks, extensions, oneof fields, pointer fields and unpacked encoding of packable arrays are not modelled.
- PbForward.ReadOlder: the fields left out are those of the outermost message; a message inside it is read under the descriptor it was written with.
- PbDecodeMessage.Decode: struct memory is replaced by typed contents, so a repeated array holds only the entries received, and a fixed-count array starts from zeros; the bit set of required fields is a set of indices; a zero field number in a message without fields is treated as unknown.
- PbStream.WhatIsAccepted: speaks of strings up to 37 bytes; from there on the 8-bit counter has wrapped, and `DecodeVarint32` still says exactly what is accepted, by Accepts and Taken.
- EncodeVarint: takes numbers of any size, since sizes are unbounded naturals rather than size_t throughout the encoder.
- InternalGet: the comparator's order enters as places on the real line (`Represents`; `KeyOrderRepresents` shows that there are such places). The checksum is an uninterpreted function.
- Format.ReadBlock: Snappy-compressed blocks count as unreadable, and handle sizes within five of 2^64 are refused, where the source's size computation would wrap.
- Block.Iter.ParseNextKey: at an entry that reaches past the block the model stops and says so (`wild`); what lies behind the block is not part of it. Blocks of 4 GB and more are not modelled.
- TableBuilder.Builder.Add: block and table builders are given rows and files whose offsets fit their 32-bit and 64-bit fields, as are the rows of TableFile.Build.
- LogFormat.Reader.ReadRecord: the reader's initial offset is 0, which is what every caller passes, and a reporter is given.
- DBScan.NewInternalIterator: table and memtable iterators enter as sorted streams; references held by the iterator are not modelled.
- SkipListReads.SearchIsExact: loads and stores are sequentially consistent, and there is one writer.
- SkipList.List.Insert: the skip list's random height is a parameter; arena allocation is not modelled.
- LruCache.Cache.Insert: one shard with its lock held; the choice of shard by hash and the destructor are not modelled. Hash values are parameters.
- Durability.Database.Append: level compactions change no recoverable write and are left to VersionStep; log reuse on open (off by default), I/O failures and the repair tool are not modelled. A log record is either durable or not; what a torn one reads as is LogFormat's subject.
- GroupCommit.WritePath.Begin: MakeRoomForWrite enters as its outcome, its memtable switch as a step of Durability. That the mutex is granted in the end, and that a log write ends, is taken for granted.
- Delivery: the exit message, start-up and clean-up of the pool are not modelled; the mutexes give atomic steps, and a wake-up may be spurious.
- EveryRequestIsDelivered: each work function is taken to return; further submissions are taken to stop.
- RunTimers: callbacks touch no timers; start numbers are unbounded, where the source's 64-bit counter could wrap.
- DBIter.DBIter.Next: read sampling and the status of a corrupted iterator are not modelled.
- PickLevelForMemTableOutput: sequence numbers are at most the largest 56-bit one; the byte limit is a parameter.
- User keys in the tree are real numbers, standing for any order of keys; values are strings. The byte-level order is the subject of Separators, and KeyRank embeds it.
- PickCompaction's scores, seek-triggered compaction and statistics are heuristics that change no result.
- Snappy, the CRC polynomial and the Bloom hash function appear only as parameters.
- The Swift application and the remaining C sources (fs-poll.c, uv-common.c, TinyGPSPlus) hold no algorithm that this model needs.
