# LevelDB and nanopb, modelled and verified

The application keeps its data with two engines that come with it as source: LevelDB, a log-structured store, and
nanopb, an encoder and decoder for Protocol Buffers that is driven by field descriptors. This project models both and
proves what they promise. `dafny verify dfyconfig.toml` checks all of it.

**The store.** A `Db` holds multi-version entries `(user key, sequence number, type) -> value` in a memtable, an
immutable memtable and seven levels of files. Steps are batched writes, memtable switches, flushes, trivial moves,
compactions and snapshots. The simple thing it must agree with is `Replay(history)`, a plain map, taken at the current
sequence number or at any snapshot held (`Contents`, `Store`, `StoreCompaction`, `StoreRuns`, `SnapshotRuns`, and for what goes wrong
`OpenPicks` and `MoveReads`). The objects with state are classes whose methods take those steps (`DbImpl`,
`Compactions`, `VersionBuilder`), and `DbScan` joins the merging iterator and the database iterator to the same map.

**Crashes.** `Recovery` is a machine with a disk (logs and manifest) and a process that can go down between any two
steps, also while it is opening the store; `RecoveryRuns` has the runs that need no hypothesis on what compactions
pick. `RecoveryImpl` and `Manifests` are the loops that read the disk back, and `DiskBytes` joins them to the bytes of
the manifest and of the logs, which may be torn at the end.

**What makes it fast** is shown to change nothing: a skip list under concurrent readers (`SkipLists`),
prefix-compressed blocks with restart points (`BlockFormat`, `BlockBuilders`, `BlockReader`, `BlockIters`), shortened
index keys and Bloom filters (`Separators`, `Bloom`, `FilterBlocks`, `TableFormat`, `Tables`, `TableFiles`,
`TableBuilders`, joined from builder to lookup in `TableBuilding`), merging, two-level and database iterators
(`Merger`, `TwoLevel`, `DbIter`), an LRU cache over a resizing hash table (`HandleTables`, `LruCache`), a log framed
in blocks (`LogWriter`, `LogLayout`, `LogReader`), group commit (`WriteBatches`, `GroupCommit`, joined to the store in
`CommitHistory`), and a checksum that takes four bytes at a time (`Crc32c`; CRC32C as named in section 12.1 of RFC
3720).

**nanopb.** `ProtoTypes` has descriptors, messages and their bytes, and `ProtoDecode` the plain account of decoding.
`ProtoValues` has the laws of single values, `ProtoParts` and `ProtoStreams` those of streams of parts in any order into
any message, `ProtoRoundTrip` and `ProtoZero` what comes back and what the encoder leaves out, and `ProtoBounds` what holds
of any bytes. `ProtoEncoder` (measure, then write) and `ProtoDecoder` (circular field iterator, bounded substreams, bitmap
of required fields) are the imperative forms, each proved to do just that. The wire format is that of the Protocol Buffers
Encoding guide, sections "Base 128 Varints", "Signed Integers" and "Length-Delimited Records".

**Formats.** That reader and writer agree does not say what is written. `KnownBytes` has the bytes of particular values and
the sizes and types of log fragments, `CrcPolynomial` what the checksum is, by the exponents of its polynomial, and
`CrcKnownAnswers` its published values.

## Hypotheses

- An output file may be cut between two versions of one user key, and inputs at level 1 and above are not extended to a
  neighbour that shares the key. `RunKeepsInv` and `RunSafe` therefore ask that picks be closed under user key (`Closed`).
  `SnapshotFreeRunKeepsInv` and `SnapshotFreeRunSafe` need no such thing for runs that merge only while no snapshot is
  held. `MoveKeepsInvIff` and `CompactKeepsInvIff` say exactly when a step is harmless.
- Flushes and compactions are single steps. Sequence numbers stay below 2^56 - 1.
- Keys differ between the children of a merging iterator; `ChildrenDistinct` and `MergeInputs` show that those of the
  database do.
- The check for required fields is defined when their number is zero, or below 64 and no multiple of 32.
- Appends that succeed are durable, and table files once written stay. In `CommitHistory` all appends to the log succeed.

## Where the code does not do what it is for

- A snapshot can keep a value and the deletion marker over it apart in two output files. A trivial move of the marker's
  file then leaves the value above the marker (`MoveReturnsDeleted`, with the exact condition in `MoveKeepsInvIff`, and for
  the reads alone in `MoveReadsIff`). A merge that takes in the marker's file only drops the marker, and the deleted key is
  back for good (`MergeReturnsDeleted`, with the exact condition in `CompactKeepsInvIff`). Both are runs from the empty
  store in which memtables go as deep as the placement rule says and whatever can be moved trivially is. They hold for all
  keys in order, all values and every size of the files: an output is cut only when it reaches the largest size of a file
  (1 MB at the least), so the values before the cuts have to be that large.
- `VersionEdit::Clear` leaves the compaction pointers, so decoding into a used object adds to them
  (`ReusedEditRoundTrip`).
- `pb_check_proto3_default_value` looks only at the first element of an array and not at presence flags or sizes, so a
  submessage without a presence flag can be left out although it holds something (`ArrayBehindZeroLost`, with the exact
  condition for a message to come back unchanged in `RoundTripExact`).
- A log reader that starts inside a record can report a drop for a log that is intact: a fragment of the record that was
  skipped ends the resynchronising too soon. What it returns is right all the same (`IntactLogDrops`, with the exact
  condition in `ReadLog`).

## Model

| member | source | states |
|---|---|---|
| `Contents.CompactionPreservesReads` | Unplug/Pods/leveldb-library/db/db_impl.cc:900-1005 | At every sequence number from the smallest snapshot on, and for every user key, a read over the inputs plus everything else finds the same value before and after the merge-and-drop loop, provided nothing else holds an older entry for a key the loop takes to be at its base level. |
| `Contents.CompactionPreservesReadsIff` | Unplug/Pods/leveldb-library/db/db_impl.cc:900-1005 | All these reads stay the same if and only if there is no user key at its base level of which the smallest snapshot sees a deletion marker among the inputs while the newest entry elsewhere is a value. |
| `Contents.OneKeptPerUser` | Unplug/Pods/leveldb-library/db/db_impl.cc:939-976 | When the smallest snapshot is at or above every input sequence number, two surviving entries of one user key are the same entry. |
| `Contents.KeptExactly` | Unplug/Pods/leveldb-library/db/db_impl.cc:955-969 | An entry is left out if and only if a newer entry for its user key is at or below the smallest snapshot, or it is a deletion marker at or below it with nothing deeper to cover; what stands next to it does not matter. |
| `Contents.KeptSorted` | Unplug/Pods/leveldb-library/db/db_impl.cc:900-1005 | What survives the merge is still in internal-key order. |
| `Store.WriteKeepsInv` | Unplug/Pods/leveldb-library/db/db_impl.cc:1194-1266 | Writing a batch keeps the whole invariant: layering by age, shape of the levels, and agreement of every permitted read with the plain map of the history extended by the batch. |
| `Store.SwitchKeepsInv` | Unplug/Pods/leveldb-library/db/db_impl.cc:1355-1375 | Turning the memtable into the immutable one keeps the invariant. |
| `Store.FlushKeepsInv` | Unplug/Pods/leveldb-library/db/db_impl.cc:488-565 | Writing the immutable memtable to the level the placement rule allows keeps the invariant, although the file may skip levels. |
| `StoreCompaction.EditReplaces` | Unplug/Pods/leveldb-library/db/version_set.cc:1476-1482 | Deleting the inputs by level and number takes away exactly the inputs, and the outputs come in at the next level and nowhere else. |
| `StoreCompaction.LeftBehindOneSided` | Unplug/Pods/leveldb-library/db/version_set.cc:1345-1389 | A file of the output level that was not an input lies wholly before or wholly after all inputs, so the outputs fit between the files left behind. |
| `StoreCompaction.MergeShape` | Unplug/Pods/leveldb-library/db/db_impl.cc:866-885 | Installing the outputs keeps every level from 1 on sorted and disjoint in internal keys, with file numbers unique. |
| `StoreCompaction.CompactKeepsInv` | Unplug/Pods/leveldb-library/db/db_impl.cc:887-1008 | A merging compaction of a pick closed under user key keeps the invariant, for every way of cutting its outputs. |
| `StoreCompaction.CompactKeepsInvIff` | Unplug/Pods/leveldb-library/db/db_impl.cc:887-1008 | A merging compaction keeps the invariant if and only if no file left behind in its level holds an entry older than a kept one of the same user key, and no dropped deletion marker returns a value left behind in its level or the next. |
| `StoreCompaction.MoveKeepsInv` | Unplug/Pods/leveldb-library/db/db_impl.cc:716-733 | A trivial move of a closed pick keeps the invariant. |
| `StoreCompaction.StepKeepsInv` | Unplug/Pods/leveldb-library/db/db_impl.cc:686-769 | Every step of the store, taking and dropping snapshots included, keeps the invariant. |
| `StoreRuns.RunKeepsInv` | Unplug/Pods/leveldb-library/db/db_impl.cc:1109-1154 | After any run in which picks are closed under user key, the store agrees with the plain map of the run's writes. |
| `StoreRuns.ReadersAgree` | Unplug/Pods/leveldb-library/db/db_impl.cc:1109-1154 | Under the invariant, a read at the last sequence number or at any snapshot held finds exactly what the map of the operations up to there holds. |
| `SnapshotRuns.StillHeld` | Unplug/Pods/leveldb-library/db/snapshot.h:31-60 | Over every run, a snapshot that was taken and not itself released is held, with the sequence number it was taken at. |
| `SnapshotRuns.HeldWasTaken` | Unplug/Pods/leveldb-library/db/snapshot.h:31-60 | And only such are held: releasing takes out one snapshot and no other. |
| `SnapshotRuns.SnapshotReads` | Unplug/Pods/leveldb-library/db/db_impl.cc:1109-1154 | Repeatable reads: as long as the snapshot taken at a step is not itself released, a read at it gives what the map of the operations before that step holds, whatever flushes, moves and merges come between. |
| `SnapshotRuns.MergeWritesExactly` | Unplug/Pods/leveldb-library/db/db_impl.cc:887-985 | A merge writes all entries of its inputs but those that a newer one hides from every snapshot held, or from the last sequence number when none is, and the deletion markers all of them are past that no deeper level has a use for. |
| `StoreRuns.UserDisjointClosed` | Unplug/Pods/leveldb-library/db/version_set.cc:1291-1389 | If no two files of a level share a user key, every pick is closed under user key by itself. |
| `StoreRuns.SnapshotFreeRunKeepsInv` | Unplug/Pods/leveldb-library/db/db_impl.cc:887-1008 | Over every run that merges only while no snapshot is held, picks need no hypothesis: files of a level from 1 on never share a user key, and the store agrees with the map. |
| `StoreRuns.MoveKeepsInvIff` | Unplug/Pods/leveldb-library/db/db_impl.cc:716-733 | A trivial move keeps the invariant if and only if no file left behind in its level holds an older entry for one of the moved file's user keys. |
| `MoveReads.MoveReadsIff` | Unplug/Pods/leveldb-library/db/db_impl.cc:716-733 | After a trivial move every permitted read of the level-by-level search is right if and only if there is no key and permitted sequence number for which the newest visible entry of all is in the moved file while the newest one left behind in its level gives another answer. |
| `OpenPicks.MoveReturnsDeleted` | Unplug/Pods/leveldb-library/db/version_set.cc:1305-1313 | For any three keys in order, any values, any file size and overlap limit: a run from the empty store (writes with a snapshot between them, flushes as deep as the placement rule says, a merge whose output is cut between a value and the deletion marker over it, and a trivial move, due by the rule, of the marker's file) after which the search of the levels finds the value, and nothing else, for a key the map does not have. |
| `OpenPicks.MergeReturnsDeleted` | Unplug/Pods/leveldb-library/db/version_set.cc:1345-1350 | For all of these, the run goes on: the snapshot is released, a flush overlaps the marker's file, and the merge of the two, no trivial move by the rule, takes in the marker's file but not the value's. The marker is dropped, and the search of the levels finds the value for a key the map does not have, for every reader. |
| `OpenPicks.InvLost` | Unplug/Pods/leveldb-library/db/db_impl.cc:929-936 | Neither state keeps the invariant, for any keys and values. |
| `Versions.FindFile` | Unplug/Pods/leveldb-library/db/version_set.cc:86-105 | The index found parts the files: all before it end before the key, none from it on does. |
| `Versions.ProbeFindsNewest` | Unplug/Pods/leveldb-library/db/memtable.cc:108-145 | The first entry at or after the lookup key, if it has the user key, is the newest visible one; otherwise there is none. |
| `Versions.GetLevel0` | Unplug/Pods/leveldb-library/db/version_set.cc:357-371 | Searching the overlapping level-0 files by descending number and stopping at the first hit finds the newest visible entry of the level. |
| `Versions.GetDeeper` | Unplug/Pods/leveldb-library/db/version_set.cc:372-389 | Looking into the one file the binary search names finds the newest visible entry of a level from 1 on, even when the key's versions are spread over two files. |
| `Versions.VersionGet` | Unplug/Pods/leveldb-library/db/version_set.cc:332-429 | Searching level by level and stopping at the first hit gives the newest visible entry of the first level that has one; where every level is newer than those below it, it answers a read as all entries of all levels together would. |
| `Versions.FirstHitIsNewest` | Unplug/Pods/leveldb-library/db/version_set.cc:346-349 | Entries never being newer below, the first hit is the newest visible entry of all. |
| `Overlaps.SomeFileOverlapsRange` | Unplug/Pods/leveldb-library/db/version_set.cc:121-155 | True if and only if some file overlaps the range of user keys, by scan for overlapping files and by bisection for disjoint ones. |
| `Overlaps.InRangeMeets` | Unplug/Pods/leveldb-library/db/version_set.cc:107-119 | A file is in a range exactly when some user key lies between its bounds and in the range. |
| `Overlaps.GetOverlappingInputs` | Unplug/Pods/leveldb-library/db/version_set.cc:531-572 | Returns exactly the files overlapping a range; in level 0 the restarts end with a range closed under overlap that lies within every closed range containing the request, so it is the least one. |
| `Overlaps.OneAnswer` | Unplug/Pods/leveldb-library/db/version_set.cc:531-572 | There is only one such range, so the files returned are determined. |
| `Overlaps.WideningStaysWithin` | Unplug/Pods/leveldb-library/db/version_set.cc:547-569 | Each restart of the level-0 search widens the range only to a point every closed range must contain. |
| `Compactions.GetRange` | Unplug/Pods/leveldb-library/db/version_set.cc:1224-1245 | The smallest and largest keys are those of some inputs and bound all of them. |
| `Compactions.SetupOtherInputs` | Unplug/Pods/leveldb-library/db/version_set.cc:1345-1411 | The second input is every file of the next level that overlaps the first; the first grows to the files overlapping the joint range exactly when that is more files, meets no further file of the next level, and the sizes together stay under the limit. |
| `Compactions.ExpansionIsPick` | Unplug/Pods/leveldb-library/db/version_set.cc:1358-1389 | The grown first input keeps the files picked and is again closed under overlap in level 0 and disjoint below. |
| `Compactions.PickCompaction` | Unplug/Pods/leveldb-library/db/version_set.cc:1291-1343 | The inputs begin with the chosen file alone, in level 0 with the files of the least closed range around it, and grow by that rule only. |
| `Compactions.OnePick` | Unplug/Pods/leveldb-library/db/version_set.cc:1344-1389 | Level, file and size limit determine both inputs. |
| `Compactions.TotalFileSizeAdds` | Unplug/Pods/leveldb-library/db/version_set.cc:58-64 | The total size of one file is its size, and of two lists together the sum of theirs. |
| `Compactions.PickLevelForMemTableOutput` | Unplug/Pods/leveldb-library/db/version_set.cc:502-528 | The level is 0 if the memtable's range overlaps level 0; else it is the deepest, up to the limit, that is reached without passing an overlapping level or overlapping too much of the level after the next. |
| `Compactions.IsTrivialMove` | Unplug/Pods/leveldb-library/db/version_set.cc:1466-1474 | Exactly when there is one input, none in the next level, and it overlaps no more of the level after that than the limit. |
| `Compactions.Compaction.IsBaseLevelForKey` | Unplug/Pods/leveldb-library/db/version_set.cc:1484-1503 | Asked for keys in non-decreasing order, the per-level cursors give the answer of a scan of every file of every level from level + 2 on. |
| `Compactions.DoCompactionWork` | Unplug/Pods/leveldb-library/db/db_impl.cc:887-1005 | The loop over the merged inputs with its last-sequence variable writes well-formed, ordered, consecutively numbered tables whose entries are exactly those the drop rule keeps. |
| `VersionBuilder.OneBuilderForAllEdits` | Unplug/Pods/leveldb-library/db/version_set.cc:625-772 | Feeding any list of edits to one builder and saving once leaves the files that saving after every edit would, if no number is added twice to a level. |
| `VersionBuilder.SortedUnique` | Unplug/Pods/leveldb-library/db/version_set.cc:711-757 | A list sorted by smallest key and number is determined by its set of files, so the two ways give the same lists. |
| `VersionBuilder.Builder.Apply` | Unplug/Pods/leveldb-library/db/version_set.cc:665-708 | Deletions and additions change the deleted and added files of each level as the edit says, an addition taking back a deletion. |
| `VersionBuilder.Builder.SaveTo` | Unplug/Pods/leveldb-library/db/version_set.cc:711-772 | Every saved level is sorted and holds exactly the base and added files that are not deleted. |
| `DbImpl.AddToMemTable` | Unplug/Pods/leveldb-library/db/memtable.cc:82-106 | The memtable gains the entry and stays sorted. |
| `DbImpl.ApplyEdit` | Unplug/Pods/leveldb-library/db/version_set.cc:835-841 | A builder on the current lists fed one edit gives exactly the edited lists, sorted. |
| `DbImpl.DBImpl.Get` | Unplug/Pods/leveldb-library/db/db_impl.cc:1109-1154 | A read at the last sequence number or at a snapshot held returns what the plain map of the operations up to there holds. |
| `DbImpl.DBImpl.Write` | Unplug/Pods/leveldb-library/db/db_impl.cc:1194-1266 | Takes the write step of the state machine, and the history grows by the batch. |
| `DbImpl.DBImpl.SwitchMemTable` | Unplug/Pods/leveldb-library/db/db_impl.cc:1355-1375 | Takes the switch step and keeps the history. |
| `DbImpl.DBImpl.CompactMemTable` | Unplug/Pods/leveldb-library/db/db_impl.cc:534-565 | Takes the flush step to the level the placement rule picks; the immutable memtable is gone and the history is kept. |
| `DbImpl.DBImpl.BackgroundCompaction` | Unplug/Pods/leveldb-library/db/db_impl.cc:686-769 | Takes a move of the inputs picked around the chosen file exactly when the rule for trivial moves says so, and else a compaction of them, and the invariant holds after it whenever the pick was closed under user key. |
| `DbImpl.DBImpl.GetSnapshot` | Unplug/Pods/leveldb-library/db/db_impl.cc:1175-1178 | Takes the step that pins the last sequence number, which is that of all operations so far, and returns it; one snapshot more is held. |
| `DbImpl.DBImpl.ReleaseSnapshot` | Unplug/Pods/leveldb-library/db/db_impl.cc:1180-1183 | Takes the step that lets one snapshot go; all others are still held. |
| `DbImpl.MergeInputs` | Unplug/Pods/leveldb-library/db/version_set.cc:1258-1289 | The merging iterator over one child per level-0 file and one per deeper level reads out the sorted merge of all inputs. |
| `DbScan.ChildrenDistinct` | Unplug/Pods/leveldb-library/db/db_impl.cc:1067-1083 | The children of a database iterator (memtables, level-0 files, concatenated levels) are sorted, share no internal key and hold exactly what the database holds. |
| `DbScan.ViewIsMap` | Unplug/Pods/leveldb-library/db/db_impl.cc:1156-1166 | What a reader that may still ask sees in the merge of all children lists, in order of user key, exactly the bindings of the plain map at its sequence number. |
| `DbScan.NewIterator` | Unplug/Pods/leveldb-library/db/db_impl.cc:1156-1166 | The iterator returned is over exactly that list. |
| `Recovery.StepKeepsSafe` | Unplug/Pods/leveldb-library/db/db_impl.cc:274-565 | Every step (log append, memtable insertion, switch, flush, move, compaction, deleting an obsolete log, crash, opening, committing the new manifest) keeps the disk able to rebuild the whole history. |
| `Recovery.RunSafe` | Unplug/Pods/leveldb-library/db/db_impl.cc:274-486 | After any run, wherever it crashed and however often opening was itself interrupted, the committed operations are all recoverable. |
| `Recovery.RunningDurable` | Unplug/Pods/leveldb-library/db/version_set.cc:820-903 | While the store runs, the manifest's version is the current one, the log number on disk is the current one, and the logs from it on hold exactly the entries of the immutable memtable, the memtable and the write in progress; so the disk determines the history. |
| `Recovery.RecoveredInv` | Unplug/Pods/leveldb-library/db/db_impl.cc:274-363 | What recovery builds satisfies the store's invariant for the whole history, with the last sequence number that of the last operation. |
| `Recovery.ReopenedReads` | Unplug/Pods/leveldb-library/db/db_impl.cc:1490-1532 | In every running state of every run with no write in progress, each read gives what the map of all committed operations holds. |
| `Recovery.OpeningAgain` | Unplug/Pods/leveldb-library/db/db_impl.cc:1490-1532 | Opening again after a crash inside opening gives the same contents and the same last sequence number. |
| `RecoveryRuns.StepKeepsSpread` | Unplug/Pods/leveldb-library/db/version_set.cc:1291-1389 | While merges happen only with no snapshot held, what compactions pick is closed under user key by itself, through crashes and openings too. |
| `RecoveryRuns.SnapshotFreeRunSafe` | Unplug/Pods/leveldb-library/db/db_impl.cc:274-486 | Over every run with crashes that merges only while no snapshot is held, picks need no hypothesis, and the committed operations are all recoverable. |
| `RecoveryRuns.SnapshotFreeReads` | Unplug/Pods/leveldb-library/db/db_impl.cc:1490-1532 | In every running state of such a run with no write in progress, each read gives what the map of all committed operations holds. |
| `DiskBytes.WholeLog` | Unplug/Pods/leveldb-library/db/log_writer.cc:36-82 | What the log writer appends to a whole file of records makes it the file of one more record. |
| `DiskBytes.ReadRecords` | Unplug/Pods/leveldb-library/db/log_reader.cc:36-281 | A file of records that may end in a part of one more reads back as the whole records. |
| `DiskBytes.DecodeManifest` | Unplug/Pods/leveldb-library/db/version_set.cc:939-990 | The bytes of a manifest give back its records, up to the order of the deletions of one edit, when file keys are parsed and the comparator is the bytewise one. |
| `DiskBytes.DecodeBatches` | Unplug/Pods/leveldb-library/db/db_impl.cc:405-432 | The bytes of a log give back its batches with their sequence numbers. |
| `DiskBytes.OpenImage` | Unplug/Pods/leveldb-library/db/db_impl.cc:274-363 | Opening from the bytes on disk, with any file torn at its end, does what recovery from the records they hold does: the invariant holds for the whole history. |
| `Manifests.RecordAppended` | Unplug/Pods/leveldb-library/db/version_set.cc:820-903 | Appending the record of an edit to a manifest that stands for the current lists gives one that stands for the edited lists. |
| `Manifests.MoveAppended` | Unplug/Pods/leveldb-library/db/db_impl.cc:716-733 | The record of a trivial move may be appended, although its file number has been added before in a level above. |
| `Manifests.SnapshotHolds` | Unplug/Pods/leveldb-library/db/version_set.cc:1102-1130 | A manifest that begins with a snapshot record stands for the lists the snapshot was made of. |
| `Manifests.FeedableNeverTwice` | Unplug/Pods/leveldb-library/db/version_set.cc:700-708 | In the manifests that arise no number is added twice to one level, so the hypothesis of the single pass holds. |
| `Manifests.ReadManifest` | Unplug/Pods/leveldb-library/db/version_set.cc:905-1025 | One builder fed every record and saved once gives the lists the manifest stands for, with the last numbers named. |
| `RecoveryImpl.InsertInto` | Unplug/Pods/leveldb-library/db/write_batch.cc:112-134 | The operations of a batch enter the memtable on consecutive sequence numbers. |
| `RecoveryImpl.WriteLevel0Table` | Unplug/Pods/leveldb-library/db/db_impl.cc:488-532 | A memtable becomes a table holding just its entries, unless it is empty; a number is used up either way. |
| `RecoveryImpl.RecoverLogFile` | Unplug/Pods/leveldb-library/db/db_impl.cc:365-486 | Wherever the memtable is written out, the tables together cover exactly the batches read, in order, and the largest sequence number seen is returned. |
| `RecoveryImpl.Open` | Unplug/Pods/leveldb-library/db/db_impl.cc:274-363 | Opening takes the opening step of the crash machine: version from the manifest, live logs in order, a new log after them. |
| `WriteBatches.OpsRoundTrip` | Unplug/Pods/leveldb-library/db/write_batch.cc:42-80 | Iterating over the bytes of any operations hands on exactly these operations. |
| `WriteBatches.LayoutRoundTrip` | Unplug/Pods/leveldb-library/db/write_batch.cc:82-110 | Sequence number, count and operations are read back from the layout of a batch. |
| `WriteBatches.DecodeOpRefuses` | Unplug/Pods/leveldb-library/db/write_batch.cc:42-79 | A tag that is neither, or a string that is cut short, is an error. |
| `KnownBytes.Batch` | Unplug/Pods/leveldb-library/db/write_batch.cc:5-14 | The bytes of a batch of a put and a deletion, to the last byte. |
| `WriteBatches.Iterate` | Unplug/Pods/leveldb-library/db/write_batch.cc:42-80 | Hands on the operations up to the first malformed one, and succeeds if and only if it got to the end and the count in the header is right. |
| `WriteBatches.WriteBatch.Put` | Unplug/Pods/leveldb-library/db/write_batch.cc:98-103 | The batch gains one put, the count goes up and the sequence number stays. |
| `WriteBatches.WriteBatch.Delete` | Unplug/Pods/leveldb-library/db/write_batch.cc:105-109 | The batch gains one deletion, the count goes up and the sequence number stays. |
| `WriteBatches.WriteBatch.Append` | Unplug/Pods/leveldb-library/db/write_batch.cc:141-145 | The other batch's operations come after this one's, with the count the sum. |
| `WriteBatches.WriteBatch.SetSequence` | Unplug/Pods/leveldb-library/db/write_batch.cc:94-96 | The sequence number is set and the operations stay. |
| `GroupCommit.NoSyncUnderNonSync` | Unplug/Pods/leveldb-library/db/db_impl.cc:1294-1300 | In the group formed, a sync write is present only if the leader syncs. |
| `GroupCommit.BuildBatchGroup` | Unplug/Pods/leveldb-library/db/db_impl.cc:1269-1316 | The group is the longest front of the queue the size and sync rules admit, and the batch returned holds its operations in queue order, in the leader's own batch only if nobody joins. |
| `GroupCommit.GroupBounded` | Unplug/Pods/leveldb-library/db/db_impl.cc:1271-1320 | A group is no larger than its leader's batch, or than 128 KB more for a small leader and 1 MB for another. |
| `GroupCommit.WholeQueueJoins` | Unplug/Pods/leveldb-library/db/db_impl.cc:1271-1320 | If all batches together are within that limit, and none asks to be synced unless the leader does, the group is the whole queue. |
| `GroupCommit.StepKeepsInv` | Unplug/Pods/leveldb-library/db/db_impl.cc:1194-1266 | Every step of every thread (arrive, become leader, get room, finish the log and memtable writes, wake) keeps the invariant. |
| `GroupCommit.RunInv` | Unplug/Pods/leveldb-library/db/db_impl.cc:1194-1266 | Over every interleaving there is one leader at a time, at the front of the queue; commits are in queue order on consecutive sequence numbers; every writer taken off the queue has its leader's status. |
| `GroupCommit.CommittedOnce` | Unplug/Pods/leveldb-library/db/db_impl.cc:1213-1262 | A writer told its batch is in had it committed in exactly one group, and its operations stand in the history on consecutive sequence numbers. |
| `CommitHistory.JointRunInv` | Unplug/Pods/leveldb-library/db/db_impl.cc:1194-1266 | Over every interleaving of writer threads with the store's own steps, while log writes succeed and picks are closed, each group committed is one write step, and the store agrees with the plain map of all commits in order. |
| `CommitHistory.AcknowledgedWritesRead` | Unplug/Pods/leveldb-library/db/db_impl.cc:1194-1266 | In every state so reached, a writer told its batch is in has it in the history of the store once, on its own sequence numbers, and every read gives what the map of that history holds. |
| `GroupCommit.BatchesInOrder` | Unplug/Pods/leveldb-library/db/db_impl.cc:1213-1262 | Of two committed batches, the one queued first has all its sequence numbers before the other's. |
| `GroupCommit.SyncUnderSync` | Unplug/Pods/leveldb-library/db/db_impl.cc:1294-1300 | In every reachable state a sync write was carried by a leader that synced. |
| `SkipLists.LoadAnswers` | Unplug/Pods/leveldb-library/db/skiplist.h:261-322 | A load never meets a missing link, keeps a search on its way, and ends it only with the right answer for the list as it is at that load. |
| `SkipLists.PublishKeeps` | Unplug/Pods/leveldb-library/db/skiplist.h:360-369 | The one store that links a node in keeps every level sorted and a sublist of the one below, and loses no node. |
| `SkipLists.StepGood` | Unplug/Pods/leveldb-library/db/skiplist.h:336-370 | Between any two stores of an insertion every level is sorted and a sublist of the one below, whatever the readers do. |
| `SkipLists.RunSound` | Unplug/Pods/leveldb-library/db/skiplist.h:336-370 | So it is in every state of every interleaved run. |
| `SkipLists.SearchAnswers` | Unplug/Pods/leveldb-library/db/skiplist.h:261-322 | A search interleaved arbitrarily with insertions ends with the least node at or after the key (or the last before it, or the last) of the list at its last load. |
| `SkipLists.SeesWhatWasThere` | Unplug/Pods/leveldb-library/db/skiplist.h:261-281 | Its result comes no later than any node at or after the key that was in the list when it began. |
| `SkipLists.NodesStay` | Unplug/Pods/leveldb-library/db/skiplist.h:336-370 | A node once in the list stays there with its key. |
| `SkipLists.NeverStuck` | Unplug/Pods/leveldb-library/db/skiplist.h:261-370 | Neither an insertion nor a search ever waits: each has a next step in every state. |
| `SkipLists.SkipList.FindGreaterOrEqual` | Unplug/Pods/leveldb-library/db/skiplist.h:261-281 | Returns the first node at or after the key, in the list or not, and for every level the last node before it; for a key not in the list this is how an insertion begins, load by load. |
| `SkipLists.SkipList.FindLessThan` | Unplug/Pods/leveldb-library/db/skiplist.h:284-302 | Returns the last node before the key, or the head. |
| `SkipLists.SkipList.FindLast` | Unplug/Pods/leveldb-library/db/skiplist.h:304-322 | Returns the last node of the lowest level, or the head. |
| `SkipLists.SkipList.Insert` | Unplug/Pods/leveldb-library/db/skiplist.h:336-370 | Adds the key by single stores that are steps of the machine, on as many levels as the height drawn says and on no other. |
| `Merger.RankStep` | Unplug/Pods/leveldb-library/table/merger.cc:155-168 | Going one entry on in the merge moves exactly the child that holds the entry. |
| `Merger.SwitchedForward` | Unplug/Pods/leveldb-library/table/merger.cc:60-79 | After the switch to forward every other child stands at its first entry after the current key. |
| `Merger.SwitchedReverse` | Unplug/Pods/leveldb-library/table/merger.cc:86-106 | After the switch to reverse every other child stands at its last entry before the current key, or nowhere. |
| `Merger.MergingIterator.Next` | Unplug/Pods/leveldb-library/table/merger.cc:59-83 | Stays in step with a cursor on the one sorted merge, in either direction before the call. |
| `Merger.MergingIterator.Prev` | Unplug/Pods/leveldb-library/table/merger.cc:85-112 | Likewise, stepping back from the first entry making it invalid. |
| `Merger.MergingIterator.Seek` | Unplug/Pods/leveldb-library/table/merger.cc:51-57 | Stands where a cursor on the merge would after seeking. |
| `Merger.MergingIterator.SeekToFirst` | Unplug/Pods/leveldb-library/table/merger.cc:35-41 | Stands at the first entry of the merge. |
| `Merger.MergingIterator.SeekToLast` | Unplug/Pods/leveldb-library/table/merger.cc:43-49 | Stands at the last entry of the merge. |
| `DbIter.ViewIsWhatReadsFind` | Unplug/Pods/leveldb-library/db/db_iter.cc:146-304 | The list the iterator walks has a user key with a value if and only if a read at the iterator's sequence number finds that value; keys are in order and occur once. |
| `DbIter.DBIter.CurrentIsListed` | Unplug/Pods/leveldb-library/db/db_iter.cc:66-73 | While valid, key and value are those of the current position of that list, from the underlying iterator going forward and from the saved copies going back. |
| `DbIter.DBIter.Next` | Unplug/Pods/leveldb-library/db/db_iter.cc:146-203 | Goes one position on in the list, also right after going back. |
| `DbIter.DBIter.Prev` | Unplug/Pods/leveldb-library/db/db_iter.cc:205-272 | Goes one position back, also right after going forward. |
| `DbIter.DBIter.Seek` | Unplug/Pods/leveldb-library/db/db_iter.cc:274-286 | Stands at the first listed user key at or after the target. |
| `DbIter.DBIter.SeekToFirst` | Unplug/Pods/leveldb-library/db/db_iter.cc:288-297 | Stands at the first position of the list. |
| `DbIter.DBIter.SeekToLast` | Unplug/Pods/leveldb-library/db/db_iter.cc:299-304 | Stands at the last position of the list. |
| `TwoLevel.SeekBound` | Unplug/Pods/leveldb-library/table/two_level_iterator.cc:91-96 | Seeking in the index and then in the block it names leads to the first entry at or after the target in all blocks together. |
| `TwoLevel.TwoLevelIterator.Seek` | Unplug/Pods/leveldb-library/table/two_level_iterator.cc:91-96 | Stands at the first entry at or after the target of the concatenation. |
| `TwoLevel.TwoLevelIterator.SeekToFirst` | Unplug/Pods/leveldb-library/table/two_level_iterator.cc:98-103 | Stands at the first entry, empty blocks skipped. |
| `TwoLevel.TwoLevelIterator.SeekToLast` | Unplug/Pods/leveldb-library/table/two_level_iterator.cc:105-110 | Stands at the last entry, empty blocks skipped. |
| `TwoLevel.TwoLevelIterator.Next` | Unplug/Pods/leveldb-library/table/two_level_iterator.cc:112-136 | One entry on in the concatenation of all blocks, whichever are empty. |
| `TwoLevel.TwoLevelIterator.Prev` | Unplug/Pods/leveldb-library/table/two_level_iterator.cc:118-149 | One entry back in the concatenation of all blocks. |
| `LogWriter.Writer.AddRecord` | Unplug/Pods/leveldb-library/db/log_writer.cc:36-82 | Appends exactly the fragments of the record, wherever in a block the file ends. |
| `LogWriter.Writer.EmitPhysicalRecord` | Unplug/Pods/leveldb-library/db/log_writer.cc:84-109 | Appends header and payload with the masked checksum of type and payload. |
| `LogWriter.EncodedConcat` | Unplug/Pods/leveldb-library/db/log_writer.cc:28-31 | A writer reopened at the end of a file goes on as one writer would have. |
| `LogLayout.LogExtends` | Unplug/Pods/leveldb-library/db/log_writer.cc:36-82 | What is appended for one more record makes the log of one more record. |
| `KnownBytes.LogRecord` | Unplug/Pods/leveldb-library/db/log_format.h:14-31 | A record of up to 32761 bytes is one full fragment, a longer one a first, middle and last ones of 32 KB blocks; a fragment is a checksum of type and payload, a length, a type from 1 to 4, and the payload. |
| `KnownBytes.LogTrailer` | Unplug/Pods/leveldb-library/db/log_writer.cc:45-56 | Where fewer than seven bytes are left in a block they are zeros, and the record begins with the next block. |
| `LogLayout.BoundaryAt` | Unplug/Pods/leveldb-library/db/log_reader.cc:36-58 | Every block boundary of a log lies at a fragment, so reading may begin there. |
| `LogLayout.PrefixReadable` | Unplug/Pods/leveldb-library/db/log_reader.cc:60-182 | Read from the start, a cut log holds a prefix of the records: those wholly inside the cut and no others. |
| `LogLayout.CleanStarts` | Unplug/Pods/leveldb-library/db/log_reader.cc:72-80 | An initial offset of zero, or at which a record starts, splits no record. |
| `LogReader.Reader.ReadPhysicalRecord` | Unplug/Pods/leveldb-library/db/log_reader.cc:199-281 | A fragment is read back, and one cut off reads as the end; of any file, with checksums on, what is returned as a fragment stands there with the right checksum. |
| `LogReader.Reader.ReadRecord` | Unplug/Pods/leveldb-library/db/log_reader.cc:60-182 | Returns the next readable record with its offset, and fails only when none is left; of any file, damaged or not, with checksums on, a record returned is put together from a first, middle and last fragments, or is a full one, that stand there in order with the right checksums. |
| `LogReader.ReadLog` | Unplug/Pods/leveldb-library/db/log_reader.cc:36-281 | Of any log cut at any point and any initial offset, reading returns exactly the records wholly inside the cut that start at or after the offset, in order and with their offsets; a drop is reported if and only if the offset splits a record, past the start of its block, that goes on in the next block within the cut. |
| `LogReader.IntactLogDrops` | Unplug/Pods/leveldb-library/db/log_reader.cc:80-93 | The log of one record of 40000 bytes, whole and undamaged, read from offset 1, is one for which a drop is reported. |
| `LogReader.CleanIsQuiet` | Unplug/Pods/leveldb-library/db/log_reader.cc:80-93 | An initial offset that splits no record is none of these. |
| `BlockBuilders.ExtendsRegularly` | Unplug/Pods/leveldb-library/table/block_builder.cc:73-107 | Sharing a prefix with the last key and restarting every so many entries keeps the layout one whose entries, restart points and offsets agree. |
| `BlockBuilders.BlockBuilder.Add` | Unplug/Pods/leveldb-library/table/block_builder.cc:73-107 | The block under construction gains the pair at its end. |
| `BlockBuilders.BlockBuilder.Finish` | Unplug/Pods/leveldb-library/table/block_builder.cc:63-71 | The finished block is the bytes of all pairs added followed by the offsets of the restart points and their number. |
| `KnownBytes.RestartsAt` | Unplug/Pods/leveldb-library/table/block_builder.cc:10-14 | In a block built with some interval the entries at its multiples share nothing, and all others share all they have in common with the one before. |
| `KnownBytes.Block` | Unplug/Pods/leveldb-library/table/block_builder.cc:16-27 | The bytes of a block of two entries that share a prefix. |
| `BlockBuilders.BlockBuilder.CurrentSizeEstimate` | Unplug/Pods/leveldb-library/table/block_builder.cc:57-61 | The estimate is the exact size of the finished block. |
| `BlockReader.DecodeEntry` | Unplug/Pods/leveldb-library/table/block.cc:53-82 | The fast path for three lengths of one byte gives what decoding three varints gives, errors included. |
| `BlockReader.NextEntry` | Unplug/Pods/leveldb-library/table/block.cc:226-253 | Parsing the entry at the end of the one before it, with the key of that one, gives back the pair added. |
| `BlockIters.BlockIter.Next` | Unplug/Pods/leveldb-library/table/block.cc:139-142 | One pair on. |
| `BlockIters.BlockIter.Prev` | Unplug/Pods/leveldb-library/table/block.cc:144-163 | One pair back, by going to an earlier restart point and parsing up to the entry that ends where the current one begins; from the first pair, to no pair. |
| `BlockIters.BlockIter.Seek` | Unplug/Pods/leveldb-library/table/block.cc:165-203 | Stands at the first pair not before the target, found by a search of the restart points for the last one before it and entry by entry from there. |
| `BlockIters.InStep` | Unplug/Pods/leveldb-library/table/block.cc:125-137 | The iterator has an entry exactly when its position is one of the pairs added, and key and value are that pair's. |
| `BlockIters.NewIterator` | Unplug/Pods/leveldb-library/table/block.cc:256-267 | A finished block is always accepted, and the iterator starts with no entry. |
| `Separators.EncodedOrder` | Unplug/Pods/leveldb-library/db/dbformat.cc:50-66 | Comparing encoded internal keys is comparing user keys, then sequence number and type downwards. |
| `Separators.ParseEncoded` | Unplug/Pods/leveldb-library/db/dbformat.h:176-186 | An internal key is parsed back from its bytes. |
| `KnownBytes.InternalKeyBytes` | Unplug/Pods/leveldb-library/db/dbformat.cc:14-24 | The bytes of an internal key: the user key, the type, and the sequence number. |
| `Separators.SeparatorBetween` | Unplug/Pods/leveldb-library/util/comparator.cc:29-51 | The shortened key comes at or after the first key and before the second, and is no longer than the first. |
| `Separators.SeparatorIs` | Unplug/Pods/leveldb-library/util/comparator.cc:29-51 | The first string is shortened after its first difference from the second exactly when the bytes there are two or more apart, and that byte is then increased. |
| `Separators.ShortestSeparator` | Unplug/Pods/leveldb-library/util/comparator.cc:29-51 | When it is shortened, no string from the first up to the second is shorter than the result. |
| `Separators.ShortestSuccessor` | Unplug/Pods/leveldb-library/util/comparator.cc:53-65 | No string from the key on is shorter than its successor. |
| `Separators.FindShortestSeparator` | Unplug/Pods/leveldb-library/util/comparator.cc:29-51 | The search for the common prefix and the byte to increase give that separator, for keys in any order. |
| `Separators.InternalSeparatorBetween` | Unplug/Pods/leveldb-library/db/dbformat.cc:68-85 | With sequence number and type put back the same holds of internal keys. |
| `Separators.InternalKeysShortened` | Unplug/Pods/leveldb-library/db/dbformat.cc:68-99 | Internal keys are shortened as much as their user keys are. |
| `Separators.InternalSuccessorAfter` | Unplug/Pods/leveldb-library/db/dbformat.cc:87-99 | The short successor of an internal key does not come before it. |
| `Bloom.CreateFilter` | Unplug/Pods/leveldb-library/util/bloom.cc:35-61 | The filter has the size asked for, all bits of every key are set, every bit set is one of some key's hashes, and the number of hashes stands behind them. |
| `Bloom.ProbeIs` | Unplug/Pods/leveldb-library/util/bloom.cc:53-59 | The j-th probe of a key is its hash and j times the delta, modulo 2^32. |
| `Bloom.DeltaBits` | Unplug/Pods/leveldb-library/util/bloom.cc:54-54 | The delta has the bits of the hash, rotated right by 17. |
| `Bloom.OtherFilters` | Unplug/Pods/leveldb-library/util/bloom.cc:63-77 | A filter too short matches nothing and one of more than thirty probes everything. |
| `Bloom.KeyMayMatch` | Unplug/Pods/leveldb-library/util/bloom.cc:63-86 | True if and only if all bits of the key are set, with the answers for filters too short and of unknown kind; so a key that went in is never denied. |
| `FilterBlocks.FilterBlockBuilder.StartBlock` | Unplug/Pods/leveldb-library/table/filter_block.cc:22-28 | Afterwards there is one filter for every 2 KB before the block, and the keys so far are in the first of the new ones. |
| `FilterBlocks.FilterBlockBuilder.Finish` | Unplug/Pods/leveldb-library/table/filter_block.cc:36-50 | The contents are a filter block in which every group of keys is admitted by its filter, of a size bounded by the number of keys added and of filters. |
| `FilterBlocks.MayMatchBlock` | Unplug/Pods/leveldb-library/table/filter_block.cc:78-109 | On a filter block the answer is exactly that of the filter for the part of the file the block begins in, and a match if there is none; a key of the block is so never denied, and a block that does not parse always matches. |
| `TableFormat.HandleRoundTrip` | Unplug/Pods/leveldb-library/table/format.cc:15-30 | A block handle is read back as written. |
| `TableFormat.ReadBlock` | Unplug/Pods/leveldb-library/table/format.cc:65-142 | A block stored with its trailer is read back; of any file, a block returned lies where the handle says, and with verification it is stored there with the right checksum. |
| `TableFormat.OneBlockIsEnough` | Unplug/Pods/leveldb-library/table/table.cc:226-255 | The one block the separators name has the entry a search of all blocks would find, or there is none. |
| `Tables.InternalGet` | Unplug/Pods/leveldb-library/table/table.cc:226-255 | On every file that is a table, with a filter or without, what is handed on decides the read: it is the newest entry of the user key at or below the sequence number, or the table has none. |
| `TableBuilders.TableBuilder.Add` | Unplug/Pods/leveldb-library/table/table_builder.cc:92-121 | The table under construction gains the entry, and the index entry held back is given the separator between the blocks; a block ends with the entry with which it reaches the block size, and not before. |
| `TableBuilders.TableBuilder.Flush` | Unplug/Pods/leveldb-library/table/table_builder.cc:123-137 | The current block goes into the file, its index entry waits, and no entry is lost. |
| `TableBuilders.TableBuilder.Finish` | Unplug/Pods/leveldb-library/table/table_builder.cc:199-254 | The file is a table file of exactly the entries added in order, no larger than SizeBound: it ends in a footer that names index and metaindex, the index names every block, and the filter the metaindex names denies none of their keys. It succeeds whenever SizeBound fits 32 bits. |
| `TableFormat.FooterRoundTrip` | Unplug/Pods/leveldb-library/table/format.cc:32-63 | A footer, padded and followed by the magic number, reads back as written. |
| `KnownBytes.FooterBytes` | Unplug/Pods/leveldb-library/table/format.cc:30-42 | The bytes of a footer, with padding and magic number. |
| `KnownBytes.Names` | Unplug/Pods/leveldb-library/table/table_builder.cc:214-222 | The key of the filter in the metaindex begins with its prefix, and the comparator has its name. |
| `TableFiles.Open` | Unplug/Pods/leveldb-library/table/table.cc:38-89 | From a table file the index is read, and the filter exactly when it was built by a policy of the name asked for. |
| `TableFiles.ReadMeta` | Unplug/Pods/leveldb-library/table/table.cc:91-141 | The metaindex is searched for the filter of the policy's name; whatever is amiss with it, the table is read without a filter. |
| `TableFiles.Get` | Unplug/Pods/leveldb-library/db/table_cache.cc:105-119 | Opening a table file and looking a key up decides the read as a search of all the entries it was built from would, whether writer or reader knows of a filter. |
| `TableBuilding.BuildTable` | Unplug/Pods/leveldb-library/db/builder.cc:17-47 | For sorted entries there is a file whenever there are entries and SizeBound of them (a sum of the sizes of keys and values, with a constant for each entry and the filter bits) fits 32 bits, and none for no entries; a file built is a table file of exactly these entries, no larger than that bound, with blocks cut where they reach the block size and restart points at the interval asked for. |
| `TableBuilding.ReadBack` | Unplug/Pods/leveldb-library/db/builder.cc:17-75 | From builder to lookup: for any entries in order, not none, whose SizeBound fits 32 bits, a file is built, and what is read from it decides the read as a search of the entries would, with a filter or without. |
| `HandleTables.OneForKey` | Unplug/Pods/leveldb-library/util/cache.cc:80-94 | A table never holds two entries with one key. |
| `HandleTables.HandleTable.Lookup` | Unplug/Pods/leveldb-library/util/cache.cc:76-78 | Finds the entry with the key if there is one. |
| `HandleTables.HandleTable.Insert` | Unplug/Pods/leveldb-library/util/cache.cc:80-94 | The new entry replaces the one with its key and all others stay; there are never more entries than buckets. |
| `HandleTables.HandleTable.Remove` | Unplug/Pods/leveldb-library/util/cache.cc:96-104 | Takes out exactly the entry with the key. |
| `HandleTables.HandleTable.Resize` | Unplug/Pods/leveldb-library/util/cache.cc:125-147 | Every entry is found in the grown table, which has at least as many buckets as entries. |
| `LruCache.LRUCache.Ref` | Unplug/Pods/leveldb-library/util/cache.cc:221-227 | A client gets a reference; an entry only the cache referred to leaves the list of those that may be evicted. |
| `LruCache.LRUCache.Unref` | Unplug/Pods/leveldb-library/util/cache.cc:229-240 | The deleter runs exactly when the last reference goes; with only the cache's left, the entry becomes the newest of those that may be evicted. |
| `LruCache.LRUCache.Lookup` | Unplug/Pods/leveldb-library/util/cache.cc:255-262 | Returns the cached entry with the key and one more reference to it. |
| `LruCache.LRUCache.Release` | Unplug/Pods/leveldb-library/util/cache.cc:264-267 | A client's reference goes; the entry is deleted if nobody else holds it. |
| `LruCache.LRUCache.Insert` | Unplug/Pods/leveldb-library/util/cache.cc:269-303 | The new entry displaces the one with its key, then the oldest unreferenced entries go and no more than needed; afterwards the usage is within the capacity or nothing may be evicted. The deleters that run are those of the displaced entry, if no client holds it, and of the evicted ones, in order. |
| `LruCache.LRUCache.Erase` | Unplug/Pods/leveldb-library/util/cache.cc:318-321 | Exactly the entry with the key leaves the cache; its deleter runs at once if no client holds it, and no other deleter runs. |
| `LruCache.LRUCache.Prune` | Unplug/Pods/leveldb-library/util/cache.cc:323-332 | Exactly the unreferenced entries go, and the deleter of each runs once. |
| `LruCache.LRUCache.DeletedExactlyOnce` | Unplug/Pods/leveldb-library/util/cache.cc:229-240 | In every reachable state, of the entries ever made exactly those have had their deleter run that neither the cache nor a client has, and each of them once. |
| `LruCache.LRUCache.Close` | Unplug/Pods/leveldb-library/util/cache.cc:209-219 | When the clients have released all they had, the end of the cache leaves every deleter run exactly once. |
| `Coding.FixedRoundTrip` | Unplug/Pods/leveldb-library/util/coding.cc:9-45 | Little-endian bytes of a number that fits read back as the number. |
| `Coding.VarintRoundTrip` | Unplug/Pods/leveldb-library/util/coding.cc:47-96 | A varint followed by anything reads back as the number, and what follows is left. |
| `Coding.VarintTooLong` | Unplug/Pods/leveldb-library/util/coding.cc:114-160 | A varint that goes on after five bytes, or ten, is an error. |
| `KnownBytes.Numbers` | Unplug/Pods/leveldb-library/util/coding.cc:11-88 | The bytes of particular varints and fixed numbers. |
| `Keys.LessIs` | Unplug/Pods/leveldb-library/include/leveldb/slice.h:96-104 | One key comes before another exactly when it has the smaller byte where they first differ, or ends there. |
| `Coding.EncodeVarint32` | Unplug/Pods/leveldb-library/util/coding.cc:47-73 | The five unrolled cases write the varint. |
| `Coding.EncodeVarint64` | Unplug/Pods/leveldb-library/util/coding.cc:81-90 | The loop writes the varint. |
| `Coding.VarintLength` | Unplug/Pods/leveldb-library/util/coding.cc:103-110 | The length is that of the varint. |
| `Coding.GetVarint32` | Unplug/Pods/leveldb-library/util/coding.cc:112-141 | The shift loop on 32-bit words gives the varint's value modulo 2^32, at most five bytes long. |
| `Coding.GetVarint64` | Unplug/Pods/leveldb-library/util/coding.cc:143-170 | The shift loop on 64-bit words gives the varint's value modulo 2^64, at most ten bytes long. |
| `Coding.LengthPrefixedRoundTrip` | Unplug/Pods/leveldb-library/util/coding.cc:98-101 | A string behind its length reads back, and what follows is left. |
| `VersionEdits.FieldRoundTrip` | Unplug/Pods/leveldb-library/db/version_edit.cc:109-205 | A field of an edit followed by anything reads back. |
| `VersionEdits.FieldsRefused` | Unplug/Pods/leveldb-library/db/version_edit.cc:98-200 | A level from 7 on, or a tag that there is not, is an error. |
| `KnownBytes.EditNumbers` | Unplug/Pods/leveldb-library/db/version_edit.cc:12-84 | The bytes of the name and number fields. |
| `KnownBytes.EditFiles` | Unplug/Pods/leveldb-library/db/version_edit.cc:12-84 | The bytes of a compaction pointer and of a deleted file. |
| `KnownBytes.EditNewFile` | Unplug/Pods/leveldb-library/db/version_edit.cc:12-84 | The bytes of a new file. |
| `KnownBytes.EditInOrder` | Unplug/Pods/leveldb-library/db/version_edit.cc:42-84 | The order in which an edit's fields are written. |
| `VersionEdits.EditRoundTrip` | Unplug/Pods/leveldb-library/db/version_edit.cc:41-210 | An edit written and read into a fresh object is the same edit. |
| `VersionEdits.ReusedEditRoundTrip` | Unplug/Pods/leveldb-library/db/version_edit.cc:26-39 | Into a used object it is the same edit if and only if the object had no compaction pointers: Clear leaves them. |
| `VersionEdits.VersionEdit.EncodeTo` | Unplug/Pods/leveldb-library/db/version_edit.cc:41-86 | Writes the fields that are set, then pointers, deletions in order and additions. |
| `VersionEdits.VersionEdit.DeleteFile` | Unplug/Pods/leveldb-library/db/version_edit.h:75-77 | The deletion joins the set of deletions, which stays in order. |
| `VersionEdits.VersionEdit.DecodeFrom` | Unplug/Pods/leveldb-library/db/version_edit.cc:109-210 | Takes in the well-formed fields one after another, and succeeds if and only if all are. |
| `Crc32c.TableRecurrence` | Unplug/Pods/leveldb-library/util/crc32c.cc:17-282 | Each of the three further tables follows from the one before it by shifting and one look-up in the first. |
| `Crc32c.Step4Absorbs` | Unplug/Pods/leveldb-library/util/crc32c.cc:313-320 | One step of four look-ups absorbs four bytes as four single-byte steps do. |
| `Crc32c.ExtendConcat` | Unplug/Pods/leveldb-library/util/crc32c.h:17-20 | Extending by one string and then another is extending by both. |
| `Crc32c.Extend` | Unplug/Pods/leveldb-library/util/crc32c.cc:299-347 | For every buffer, length and alignment the loops compute the bitwise definition. |
| `CrcPolynomial.ExtendIsRemainder` | Unplug/Pods/leveldb-library/util/crc32c.cc:299-347 | The checksum, inverted, is the remainder on division by the polynomial with the Castagnoli exponents of what the checksum before stood for, moved up by the bits of the message, and the message moved up by 32. |
| `CrcPolynomial.ValueIsRemainder` | Unplug/Pods/leveldb-library/util/crc32c.h:14-22 | So the checksum of a message is CRC32C: the remainder of the message times x^32 with its first 32 coefficients inverted, inverted again. |
| `CrcPolynomial.OneRemainder` | Unplug/Pods/leveldb-library/util/crc32c.cc:299-347 | Polynomials of degree below 32 that are congruent are equal, so there is only one such remainder. |
| `CrcKnownAnswers.TableEntries` | Unplug/Pods/leveldb-library/util/crc32c.cc:18-83 | The table's entries for the bytes of one bit are the numbers the source lists. |
| `CrcKnownAnswers.CheckValue` | Unplug/Pods/leveldb-library/util/crc32c.cc:299-347 | The checksum of the nine digits 123456789 is 0xe3069283, the published check value of CRC32C. |
| `Crc32c.UnmaskMask` | Unplug/Pods/leveldb-library/util/crc32c.h:31-40 | Unmask undoes Mask on every 32-bit word. |
| `Crc32c.MaskBits` | Unplug/Pods/leveldb-library/util/crc32c.h:31-34 | Less the constant, a masked checksum has the bits of the checksum, rotated right by 15. |
| `Crc32c.MaskUnmask` | Unplug/Pods/leveldb-library/util/crc32c.h:31-40 | Mask undoes Unmask on every 32-bit word. |
| `ProtoRoundTrip.RoundTrip` | Unplug/Pods/nanopb/pb_decode.c:852-967 | Decoding what was encoded gives back the message, with all that was not written at its default, for every descriptor tree and every message in range. |
| `ProtoZero.PlainRoundTrip` | Unplug/Pods/nanopb/pb_encode.c:205-268 | A message comes back unchanged if in its descriptor tree no submessage is without a has_ flag and no field without one has a default of its own, and fields flagged absent hold their defaults. |
| `ProtoZero.WritesNothingIff` | Unplug/Pods/nanopb/pb_encode.c:205-268 | A field without a has_ flag is left out if and only if its number is zero, its text or blob empty; one of fixed-length bytes never is, unless of no length. |
| `ProtoZero.LooksZeroIff` | Unplug/Pods/nanopb/pb_encode.c:205-268 | A submessage is taken for zero if and only if every single value whose memory is looked at is: all of them whatever flags and choices say, of an array the first, and zeros where none is held. |
| `ProtoRoundTrip.RoundTripExact` | Unplug/Pods/nanopb/pb_encode.c:205-268 | The message comes back unchanged if and only if everything its encoding leaves out is at its default. |
| `ProtoRoundTrip.ArrayBehindZeroLost` | Unplug/Pods/nanopb/pb_encode.c:219-226 | A submessage without has-flag whose array starts with a zero is taken for zero and left out: the array is lost. |
| `ProtoRoundTrip.ArrayBesideBlobsKept` | Unplug/Pods/nanopb/pb_encode.c:218-224 | Beside an empty array of blobs of fixed length, which is never taken for zero as its length is not, the same array is kept: a concrete message that comes back. |
| `ProtoStreams.UnknownFieldsIgnored` | Unplug/Pods/nanopb/pb_decode.c:231-290 | Well-formed unknown fields, wherever they stand among parts in any order, do not change what is decoded. |
| `ProtoParts.MessageMerged` | Unplug/Pods/nanopb/pb_decode.c:846-967 | The bytes of a message, decoded into any message with room, give the first merged into it: numbers and strings take the place of those there, submessages are merged in turn, elements are added to arrays, and a member of a oneof displaces the others. |
| `ProtoRoundTrip.MessagesMerge` | Unplug/Pods/nanopb/pb_decode.c:846-967 | Two encoded messages one after the other decode to the second merged into the first. |
| `ProtoStreams.DecodeStream` | Unplug/Pods/nanopb/pb_decode.c:846-967 | Parts in any order (slots as the encoder writes them, single elements of arrays, unknown fields) decode to what they make of the defaults one after another, if every required field is among them, and to an error if one is missing. |
| `ProtoStreams.LastWins` | Unplug/Pods/nanopb/pb_decode.c:346-424 | What nothing later touches is merged into what came before, and of the members of a oneof only the last to be received is left. |
| `ProtoStreams.ArrayInPieces` | Unplug/Pods/nanopb/pb_decode.c:366-413 | An array sent in any pieces, packed or not, in any message, is the elements of the pieces in order if there is room for all, and an error if not. |
| `ProtoStreams.ArraySplits` | Unplug/Pods/nanopb/pb_decode.c:366-413 | The same for a message that is one array. |
| `ProtoRoundTrip.UnpackedRoundTrip` | Unplug/Pods/nanopb/pb_decode.c:403-413 | Numbers of an array sent one by one read back like the packed array. |
| `ProtoStreams.NothingReceived` | Unplug/Pods/nanopb/pb_decode.c:762-842 | What nothing is received for holds its own default, or zero, or nothing. |
| `ProtoStreams.ZeroEnds` | Unplug/Pods/nanopb/pb_decode.c:251-275 | A zero where a tag is due ends the message, whatever comes after. |
| `ProtoStreams.CutTagEnds` | Unplug/Pods/nanopb/pb_decode.c:251-275 | A tag cut off by the end of the stream ends the message. |
| `ProtoStreams.BadTagFails` | Unplug/Pods/nanopb/pb_decode.c:251-275 | A tag of more than five bytes is an error. |
| `ProtoStreams.BadWireFails` | Unplug/Pods/nanopb/pb_decode.c:277-290 | An unknown field of a wire type there is not is an error. |
| `ProtoStreams.WireTypeIgnored` | Unplug/Pods/nanopb/pb_decode.c:346-424 | But for arrays that can be packed, the wire type a tag claims makes no difference. |
| `ProtoBounds.DecodedBounded` | Unplug/Pods/nanopb/pb_decode.c:970-980 | Whatever the bytes, a message that is decoded has its numbers within their width, strings within their buffers, arrays within their room, and one member of a oneof at most. |
| `ProtoValues.PackedRoundTrip` | Unplug/Pods/nanopb/pb_decode.c:366-392 | A packed array reads back item by item while there is room. |
| `ProtoValues.ZigZagBack` | Unplug/Pods/nanopb/pb_decode.c:1118-1130 | The zigzag form of every number of every width reads back. |
| `ProtoValues.SignedBack` | Unplug/Pods/nanopb/pb_decode.c:1165-1200 | Sign extension to 64 bits and the clamped cast back are the identity on numbers that fit. |
| `ProtoValues.NumberFromIff` | Unplug/Pods/nanopb/pb_decode.c:1165-1255 | A varint gives a signed field the number of its range that agrees in 64 bits, or in 32 for smaller fields, an unsigned field the number itself and a zigzag field the one of that form, and is an error if there is none. |
| `ProtoEncoder.VarintBuffer` | Unplug/Pods/nanopb/pb_encode.c:494-514 | The buffer loop, with its last byte corrected, writes the varint. |
| `ProtoEncoder.OStream.Write` | Unplug/Pods/nanopb/pb_encode.c:91-114 | Succeeds if and only if there is room, and then adds exactly the bytes. |
| `ProtoEncoder.EncodeSubmessage` | Unplug/Pods/nanopb/pb_encode.c:600-648 | Measuring first and writing then adds size and body, and fails only for want of room or for contents that cannot be encoded: the size never changes between the two passes. |
| `ProtoEncoder.EncodeArrayField` | Unplug/Pods/nanopb/pb_encode.c:116-201 | Writes the array packed or element by element, and succeeds if and only if it is within its bounds and there is room. |
| `ProtoEncoder.EncodeField` | Unplug/Pods/nanopb/pb_encode.c:271-351 | Writes a field exactly when it is required, flagged, chosen, or not taken for zero. |
| `KnownBytes.MessageNumber` | Unplug/Pods/nanopb/pb_encode.c:553-590 | Field 1 holding 150, as in the guide. |
| `KnownBytes.MessageText` | Unplug/Pods/nanopb/pb_encode.c:553-590 | Field 2 holding the text of the guide's example. |
| `KnownBytes.MessagePacked` | Unplug/Pods/nanopb/pb_encode.c:116-170 | Field 4 holding the packed numbers of the guide's example. |
| `KnownBytes.MessageFixed` | Unplug/Pods/nanopb/pb_encode.c:553-590 | Field 3 holding a number in four and in eight bytes. |
| `KnownBytes.ZigZags` | Unplug/Pods/nanopb/pb_encode.c:516-525 | The zigzag forms of the guide's table. |
| `ProtoEncoder.EncodeMessage` | Unplug/Pods/nanopb/pb_encode.c:451-473 | Adds exactly the bytes of the message, and succeeds if and only if it can be encoded and there is room. |
| `ProtoEncoder.GetEncodedSize` | Unplug/Pods/nanopb/pb_encode.c:480-489 | The size is that of the bytes pb_encode writes. |
| `ProtoEncoder.EncodeToBuffer` | Unplug/Pods/nanopb/pb_encode.c:451-473 | Encoding into a buffer succeeds if and only if it holds that size, and then writes exactly that many bytes. |
| `ProtoEncoder.AllInRangeEncodable` | Unplug/Pods/nanopb/pb_encode.c:116-201 | Every message in range can be encoded. |
| `ProtoDecoder.FieldIter.Next` | Unplug/Pods/nanopb/pb_common.c:20-76 | Goes once round the fields, counting the required ones passed, and says when it is back at the first. |
| `ProtoDecoder.FieldIter.Find` | Unplug/Pods/nanopb/pb_common.c:78-95 | Finds the field with a tag from wherever the iterator stands. |
| `ProtoDecoder.IStream.DecodeVarintOf` | Unplug/Pods/nanopb/pb_decode.c:173-229 | Reads a varint of bounded length into a word, in step with the plain reading. |
| `ProtoDecoder.IStream.Skip` | Unplug/Pods/nanopb/pb_decode.c:277-287 | Skips a value of any wire type, or fails. |
| `ProtoDecoder.IStream.MakeSubstream` | Unplug/Pods/nanopb/pb_decode.c:322-335 | The substream is exactly the string that follows, and the rest is what is left behind it. |
| `ProtoDecoder.IStream.CloseSubstream` | Unplug/Pods/nanopb/pb_decode.c:337-350 | The stream goes on where the substream ends, whatever of it was read. |
| `ProtoDecoder.DecodeFieldFrom` | Unplug/Pods/nanopb/pb_decode.c:356-429 | Makes of the bytes after a tag what the plain account of field decoding does, arrays, flags and unions included. |
| `ProtoDecoder.CheckRequired` | Unplug/Pods/nanopb/pb_decode.c:931-950 | The word-by-word check succeeds if and only if every required field has been seen, for counts that are zero, or below 64 and no multiple of 32. |
| `ProtoDecoder.CountRequired` | Unplug/Pods/nanopb/pb_decode.c:919-935 | Walking on to the end of the descriptor gives the number of required fields, also for an empty one. |
| `ProtoDecoder.DecodeNoInit` | Unplug/Pods/nanopb/pb_decode.c:852-953 | The loop with circular search, substreams and bitmap succeeds if and only if the plain decoder does, with the same message. |
| `ProtoDecoder.DecodeFrom` | Unplug/Pods/nanopb/pb_decode.c:955-967 | pb_decode is that on a message set to its defaults. |

## Left out

- Snappy compression, the SSE checksum path, statistics, info logging, sleeps, DebugString and the C binding: foreign calls or reporting only.
- Files, directories, fsync and errors from them: files are byte sequences, and an append either happens or the process goes down. Background-error modes, paranoid checks and repair are not modelled.
- The Objective-C headers of the application: declarations without bodies.
- Manual compactions, a flush in the middle of a merge, and reuse of logs and manifests.
- Memory ordering weaker than sequential consistency: every load and store of the skip list is one atomic step.
- User comparators other than the bytewise one.
- Compaction scores, seek counts, compaction pointers and grandparent overlap: which level and file are compacted, and where outputs are cut, is left open, so results hold for every choice.
- A file of the store's state is its list of entries. That a table file gives every read what its entries give is proved beside it, from builder to lookup; in the same way the memtable is a sorted list, which the skip list is proved to be.
- ShardedLRUCache, which sends a key to one of sixteen caches by its hash, and the cache of open tables.
- DiskBytes.OpenImage: the contents of the table files are given by number, and the CURRENT file and the listing of the directory are not modelled.
- Deletion of obsolete table files; of obsolete logs the deletion is a step of the crash machine.
- Recovery.RunSafe: the order in which a directory lists the logs is taken to be sorted already, as recovery sorts it.
- Writers with no batch (a forced memtable switch) inside a group: nothing is said of them beyond the order in which they leave.
- GroupCommit.BuildBatchGroup: the number of operations of the whole queue stays below 2^32, the width of the count field.
- Versions.VersionGet: the statistics of a seek that misses are not kept.
- HandleTables.HandleTable.Insert: chains are sequences; the pointers between entries and the order of two entries of one chain after growing are not modelled.
- LruCache.LRUCache.Insert: the two circular lists are sequences and reference counts a map; pointer links are not modelled.
- BlockReader.DecodeEntry: the sum of the two lengths is not wrapped at 32 bits before it is compared with what is left, as it could be in a corrupted block.
- BlockIters.BlockIter.Prev: nothing is said of a corrupted block but that the iterator stays within it.
- Bloom.CreateFilter: the number of hashes is a parameter from 1 to 30; the rounding by which it follows from the bits per key is floating point. The hash of a key is any function.
- TableBuilders.TableBuilder.Add: sizes are kept within 32 bits, the width of the offsets in blocks and filters; the caller makes sure of it.
- TableBuilders.TableBuilder.Flush: the same bound on sizes.
- TableBuilders.TableBuilder.Finish: a file that would outgrow 32 bits is given up, SizeBound counts a block for every entry, and no properties other than the filter are written to the metaindex.
- TableFormat.ReadBlock: compressed blocks are refused.
- VersionBuilder.Builder.Apply: an edit adds no number that the builder holds for the level already; the source would keep both files.
- VersionBuilder.Builder.SaveTo: no added file has the number of a base file of its level.
- ProtoDecoder.CheckRequired: of a number of required fields that is a positive multiple of 32, or 64 and more, nothing is said: the source shifts a word by its whole width, or reads behind its bitmap.
- LogReader.ReadLog: of logs damaged in other ways than by being cut, nothing is said of which drops are reported, nor of how much is still returned; what is returned is made of fragments with the right checksums, as ReadRecord says.
- LogReader.Reader.ReadRecord: with a non-zero initial offset, a further call after a first one that was ended by a damaged fragment of the type the reader uses for the end of the file.
- LogReader.Reader.ReadPhysicalRecord: the reasons given for what is dropped are not modelled, only the sizes.
- Crc32c.Extend: words are lists of 32 bits, and the first table is defined by the polynomial, the others by the same division carried on; the literal numbers of the four tables are not copied.
- VersionEdits.VersionEdit.DecodeFrom: which field an error message names is not modelled.
- nanopb callbacks, extensions, pointer fields, delimited messages and raw memory layout: a field is a typed value behind its descriptor, and a text is its characters before the terminating zero.
- ProtoDecoder.DecodeFieldFrom: memory that holds no value (array elements beyond the count, a member of a union that is not chosen) is taken to be zero; a union never shows one member's bytes as another's.
- ProtoDecoder.FieldIter.Find: descriptors have distinct tags below 2^29.
- ProtoDecoder.DecodeNoInit: after a failure nothing is said of the message decoded so far.
- ProtoEncoder.EncodeMessage: after a failure nothing is said of what has been written but that it is within the buffer.
