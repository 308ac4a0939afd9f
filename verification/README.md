# LevelDB and nanopb, modelled and verified

This project models the two libraries under `SkripsiSKW/Pods` that hold the hard code of
the repository, and proves what they are for.

**LevelDB** keeps a sorted map of user keys in layers: a memtable (a skip list with one
writer and lock-free readers), an immutable memtable, and table files in seven levels that
compactions merge downwards.  Module `Database` is the state machine of those layers; modules
`Runs`, `Reads`, `DropRules` and `Replacement` prove what every run of it keeps.  Module
`Engine` is the program: each of its methods is proved to be one step of the machine, and its
reads to return what the machine's contents mean.  `Inputs`, `Picks` and `Cuts` say what a
compaction takes and where its outputs end.  `Interruptions` lets flushes happen while a
compaction runs.  `GroupCommit` adds concurrent writers on top, and proves that every
interleaving is a run of single writes; `DataLog` recovers them from what a crash leaves of
their log.  Below are the parts the engine is built of, each proved to refine something
simple: iterators a plain cursor over a sorted sequence (`Merger`, `TwoLevel`, `DbIter`,
`SkipLists`, `Blocks`), tables with shortened index keys and filters a single sorted run
(`Tables`, `TableBuilders`, `Filters`, `Bytewise`), the log the sequence of its records
(`Log`), the manifest the sequence of its edits (`Manifest`, `VersionSets`, `VersionEdits`) up
to recovery from what a crash leaves of it (`ManifestLog`), the cache a map with reference
counts (`HandleTables`, `LruCaches`), and the interleaved CRC32C of section 12.1 of RFC 3720
one byte at a time (`Crc32c`, `Crc32cValues`, `Crc32cOfBytes`).  `KnownBytes` has examples of
the formats byte by byte.

**nanopb** encodes and decodes protobuf messages by walking over descriptors.  `PbEncode`
holds what the bytes of a message are and the streams that count or write them, `PbDecode`
what any input decodes to, `PbDecoder` the methods that compute it, and `PbRoundTrip`,
`PbRequired` and `PbAnyInput` the theorems.

Three promises turned out to hold only under a condition, which is proved to be exact:

* A compaction closes its upper inputs under boundary files but not its lower ones
  (`db/version_set.cc:1403-1416`).  A tombstone in the lower level can then be dropped while an
  older value of its key stays behind in the next file of that level.
  `Resurrection.DeletedKeyComesBack` is a run of fourteen legal steps from an empty database
  that writes a key, deletes it, and ends with a compaction after which the key reads as its
  old value.  `Reads.CompactionKeepsReadsExactly` states when a compaction keeps all reads: if
  and only if no left-out file of the lower level holds a value as its newest older entry under
  a removed topmost tombstone.  The whole-run theorems ask compactions for that, and
  `Runs.BoundaryClosedIsSafe` shows that closing the lower inputs is enough.
* While a compaction merges, a waiting memtable is written out, and its file may go to the
  compaction's output level (`db/db_impl.cc:908-918`).  A manual compaction may have taken two
  files with a gap between them; a file that falls into the gap is then overlapped by an output.
  `LostFlush.FlushedKeyIsLost` is a run in which a written key is lost to lookups that way.
  `Interruptions.InterruptionIsSafeExactly` states when an interrupted compaction keeps the
  invariant: if and only if no file that came to its output level overlaps an output.  Then it
  is the same as the uninterrupted one followed by the flushes, and
  `Interruptions.GapFreeInterruptionIsSafe` shows that automatic compactions are always safe.
* nanopb encodes a string that fills its storage without a terminator, but refuses to decode
  it: `PbRoundTrip.FullStringComesToNothing` is a message of one byte to which that happens.
  `PbRoundTrip.DecodeInvertsEncode` states that a message comes back if and only if every
  string it sends ends within its storage.

Three smaller differences between code and comments are followed as the code has them:
`VersionEdit::Clear` keeps compaction pointers, so decoding adds to those already there
(`VersionEdits.EditRoundTrip`); an edit with a level of seven or more encodes but does not
decode (`VersionEdits.MissingLevelIsRefused`); and a write without a batch that is taken along
by another writer's group does not switch memtables (`GroupCommit.CallWithoutBatch`, with an
instance in `GroupCommit.CallWithoutBatchTakenAlong`).

Checking everything: `dafny verify dfyconfig.toml`.

## Model

| member | source | states |
|---|---|---|
| Keys.Compare | SkripsiSKW/Pods/leveldb-library/db/dbformat.cc:51-67 | The internal order is by increasing user key and then decreasing tag, and is total: 0 only for equal keys. |
| Keys.LookupKeySplits | SkripsiSKW/Pods/leveldb-library/db/dbformat.cc:121-138 | The key a lookup seeks to lies exactly before the entries that its sequence number may see. |
| Keys.ReadIs | SkripsiSKW/Pods/leveldb-library/db/db_impl.cc:1100-1145 | A read is the value of the newest visible entry, or nothing if that entry is a deletion. |
| Files.FindFile | SkripsiSKW/Pods/leveldb-library/db/version_set.cc:88-106 | The binary search returns the first file whose largest key is not before the key: all before it end earlier, none from it on does. |
| Files.SomeFileOverlapsRange | SkripsiSKW/Pods/leveldb-library/db/version_set.cc:122-157 | True if and only if some file overlaps the user-key range, for overlapping and for disjoint file lists alike. |
| Files.GetOverlappingInputs | SkripsiSKW/Pods/leveldb-library/db/version_set.cc:519-559 | The restarting scan terminates; at level zero its result is exactly the files overlapping the least range that contains the given one and every file it touches, elsewhere the files overlapping the given range. |
| Files.RestartsDecrease | SkripsiSKW/Pods/leveldb-library/db/version_set.cc:543-556 | Each restart strictly shrinks the set of files that start before, or end after, the range: the loop terminates. |
| Inputs.GetRange | SkripsiSKW/Pods/leveldb-library/db/version_set.cc:1205-1224 | The least range covering the inputs. |
| Inputs.FindSmallestBoundaryFile | SkripsiSKW/Pods/leveldb-library/db/version_set.cc:1344-1362 | The boundary file with the smallest key, or none exactly when no file continues the user key. |
| Inputs.AddBoundaryInputs | SkripsiSKW/Pods/leveldb-library/db/version_set.cc:1378-1401 | Terminates with the inputs followed by boundary files: each one the first file that continues the user key at which the files before it end, until there is none. |
| Inputs.ClosureIsUnique | SkripsiSKW/Pods/leveldb-library/db/version_set.cc:1378-1401 | Unless two files of the level begin with the same key, there is only one such list. |
| Inputs.OverlappingIsSlice | SkripsiSKW/Pods/leveldb-library/db/version_set.cc:519-559 | In an ordered level the files overlapping a range stand side by side. |
| Inputs.RunIsNewer | SkripsiSKW/Pods/leveldb-library/db/version_set.cc:1364-1377 | Once a run of files is closed under boundary files, what is left behind in its level is newer than what was taken, for every shared user key. |
| Inputs.GrowthKeepsLowerInputs | SkripsiSKW/Pods/leveldb-library/db/version_set.cc:1418-1447 | Growing the upper inputs is accepted only if the lower inputs stay the same set. |
| Covers.ClosureIsGapFree | SkripsiSKW/Pods/leveldb-library/db/version_set.cc:519-559 | The least closed range around files without a gap brings in no gap: every user key between two of its files lies in the range of one. |
| Inputs.SetupOtherInputs | SkripsiSKW/Pods/leveldb-library/db/version_set.cc:1403-1462 | The lower inputs are all files overlapping the boundary closure of the first choice. The upper inputs are that closure, or the boundary closure of the files of the level in the range of everything first chosen: the latter exactly when there are lower inputs, it has more files, it overlaps the same lower files, and their total size is below 25 maximum file sizes. The outcome is boundary-closed, and without gaps if the first choice was. |
| Inputs.PickSeed | SkripsiSKW/Pods/leveldb-library/db/version_set.cc:1308-1317 | The first choice from a picked file: at level zero the files in the least range around it that no file sticks out of, elsewhere the file alone; either way it leaves no gap. |
| Inputs.CutToSize | SkripsiSKW/Pods/leveldb-library/db/version_set.cc:1475-1489 | The least number of files whose sizes reach the limit, or all of them. |
| Inputs.RangeSeed | SkripsiSKW/Pods/leveldb-library/db/version_set.cc:1464-1495 | A manual compaction chooses nothing exactly when no file overlaps the range; at level zero the files in the least closed range around it, elsewhere the shortest front of the overlapping files that reaches the size limit. |
| Inputs.InRangeIsUnique | SkripsiSKW/Pods/leveldb-library/db/version_set.cc:519-559 | There is only one least closed range, and so only one choice of files in it. |
| Versions.ListingIsUnique | SkripsiSKW/Pods/leveldb-library/db/version_set.cc:589-606 | A level is determined by its set of files: the ordered listing is unique. |
| Versions.FlushKeepsVersion | SkripsiSKW/Pods/leveldb-library/db/db_impl.cc:491-533 | Adding a memtable file at a level it may sink to keeps the order and the age invariants of all levels. |
| Replacement.OutputsSeparate | SkripsiSKW/Pods/leveldb-library/db/version_set.cc:1403-1462 | A lower file left out of a compaction lies wholly before or wholly after every output. |
| Replacement.ReplacementKeepsVersion | SkripsiSKW/Pods/leveldb-library/db/db_impl.cc:860-876 | Replacing inputs by files drawn from them keeps levels ordered and disjoint, shallower entries newer, and level-zero numbers ordered by age; what remains is the outside plus the outputs. |
| Database.InitHasInv | SkripsiSKW/Pods/leveldb-library/db/db_impl.cc:182-212 | A new database satisfies the invariant. |
| Database.WriteKeepsInv | SkripsiSKW/Pods/leveldb-library/db/memtable.cc:75-98 | A write adds one entry, newer than all others, and keeps the invariant. |
| Database.FlushKeepsInv | SkripsiSKW/Pods/leveldb-library/db/db_impl.cc:535-566 | A flush keeps the invariant and the set of entries. |
| Database.MoveKeepsInv | SkripsiSKW/Pods/leveldb-library/db/db_impl.cc:718-733 | A trivial move keeps the invariant and the set of entries. |
| Database.CompactKeepsInv | SkripsiSKW/Pods/leveldb-library/db/db_impl.cc:878-1036 | A compaction keeps the invariant; afterwards the entries are those outside its inputs plus the survivors of the drop rules. |
| Database.NextKeepsInv | SkripsiSKW/Pods/leveldb-library/db/db_impl.cc:688-767 | Every step of the database keeps the invariant: levels sorted and disjoint, shallower entries newer, level-zero numbers ordered by age, snapshots ordered. |
| Compactions.BaseLevelScan.IsBaseLevelForKey | SkripsiSKW/Pods/leveldb-library/db/version_set.cc:1533-1552 | The cursor that only moves forward answers as a fresh look at all deeper files would: no file of them covers the user key. |
| Compactions.ShouldDrop | SkripsiSKW/Pods/leveldb-library/db/db_impl.cc:930-963 | One turn of the loop drops the entry if and only if the declarative rules say so: hidden by a newer entry the smallest snapshot sees, or an old tombstone with nothing below it. |
| Compactions.KeptIsSorted | SkripsiSKW/Pods/leveldb-library/db/db_impl.cc:974-998 | The surviving entries stay in order. |
| Compactions.CompactionState.ProcessEntry | SkripsiSKW/Pods/leveldb-library/db/db_impl.cc:920-998 | One entry is dropped or appended to the open output; the outputs hold exactly the survivors so far, and have been ended exactly where they were full or where the scan of the grandparents said stop. |
| Compactions.DoCompactionWork | SkripsiSKW/Pods/leveldb-library/db/db_impl.cc:899-1006 | The outputs are valid files with fresh consecutive numbers whose entries are, in order, exactly the survivors of the merged inputs; each output ends where it is full or overlaps too much, and nowhere else. |
| Cuts.GrandparentScan.ShouldStopBefore | SkripsiSKW/Pods/leveldb-library/db/version_set.cc:1554-1576 | The scan that only moves forward says stop exactly when the grandparents passed since the first entry, or since the last stop, add up to more than the limit. |
| Cuts.OutputOverlap | SkripsiSKW/Pods/leveldb-library/db/version_set.cc:1569-1576 | The grandparents that end within one output add up to no more than the limit. |
| Cuts.OutputsOverlap | SkripsiSKW/Pods/leveldb-library/db/version_set.cc:1449-1454 | For every output of a compaction: the files two levels down that end within its range are no more than the limit. |
| Picks.OutputsAreCutRight | SkripsiSKW/Pods/leveldb-library/db/db_impl.cc:919-992 | The outputs of a compaction step are cut by the files that overlap its inputs two levels down, and so none comes to overlap more of that level than the limit and the file in which it ends. |
| DropRules.OlderAreDropped | SkripsiSKW/Pods/leveldb-library/db/db_impl.cc:946-948 | Behind an entry the smallest snapshot sees, every older entry of its user key is dropped. |
| DropRules.SurvivesExactly | SkripsiSKW/Pods/leveldb-library/db/db_impl.cc:930-963 | Without reference to neighbours: an entry survives if and only if no newer entry of its user key is visible at the smallest snapshot, and it is no tombstone visible there whose user key no deeper file covers. |
| DropRules.ReadFallsThrough | SkripsiSKW/Pods/leveldb-library/db/db_impl.cc:949-960 | Once a topmost visible tombstone is removed, a read finds what the rest of the database holds below it. |
| DropRules.DropsKeepReadsExactlyWhenHarmless | SkripsiSKW/Pods/leveldb-library/db/db_impl.cc:930-963 | The drop rules keep every read at or after the smallest snapshot if and only if no removed topmost tombstone uncovers a value that stays behind. |
| Reads.OlderRestIsLeftOut | SkripsiSKW/Pods/leveldb-library/db/version_set.cc:1533-1552 | Below a base-level tombstone, anything older of its user key can only be in lower-level files left out of the inputs. |
| Reads.CompactionKeepsReadsExactly | SkripsiSKW/Pods/leveldb-library/db/db_impl.cc:878-1036 | A compaction keeps every read at or after the smallest snapshot if and only if it uncovers nothing in the lower-level files it leaves out. |
| Reads.BoundaryClosedUncoversNothing | SkripsiSKW/Pods/leveldb-library/db/version_set.cc:1403-1411 | Closing the lower inputs under boundary files, as is done for the upper ones, is enough. |
| Resurrection.DeletedKeyComesBack | SkripsiSKW/Pods/leveldb-library/db/version_set.cc:1403-1416 | The code does not close the lower inputs: a run of legal steps from an empty database, its flushes at the levels and its compactions with the inputs that the engine picks, ends with a compaction that makes a deleted key read as its old value. |
| Runs.BoundaryClosedIsSafe | SkripsiSKW/Pods/leveldb-library/db/version_set.cc:1403-1411 | A compaction whose lower inputs are boundary-closed is a safe step. |
| Interruptions.InterruptionCommutes | SkripsiSKW/Pods/leveldb-library/db/db_impl.cc:908-918 | A compaction during which writes, snapshots and flushes happen is the compaction taken at once and then those steps, unless a file that came to its output level overlaps an output; so all that holds of runs holds of it. |
| Interruptions.InterruptionIsSafeExactly | SkripsiSKW/Pods/leveldb-library/db/db_impl.cc:908-918 | An interrupted compaction keeps the invariant if and only if no file that came to its output level meanwhile overlaps one of its outputs. |
| Interruptions.GapFreeInterruptionIsSafe | SkripsiSKW/Pods/leveldb-library/db/db_impl.cc:908-918 | If the inputs leave no gap, as in every automatic compaction, no flush to a level it may sink to can overlap an output. |
| LostFlush.FlushedKeyIsLost | SkripsiSKW/Pods/leveldb-library/db/db_impl.cc:908-918 | In a manual compaction they can: a run from the empty database, with the levels and inputs the engine picks, after which a written key is in the database but the search of its level looks into the wrong file. |
| Runs.StepKeepsReads | SkripsiSKW/Pods/leveldb-library/db/db_impl.cc:688-767 | A safe step changes no read at a sequence number given out before; a compaction speaks for those at or after the smallest snapshot. |
| Runs.RunKeepsInv | SkripsiSKW/Pods/leveldb-library/db/db_impl.cc:688-767 | The invariant holds in every state of every run. |
| Runs.LatestReadIsLastWrite | SkripsiSKW/Pods/leveldb-library/db/db_impl.cc:1100-1145 | After any safe run from an empty database, a read of the present returns the last write of its key. |
| Runs.LiveSnapshotIsFrozen | SkripsiSKW/Pods/leveldb-library/db/snapshot.h:40-90 | While a snapshot is live no safe step changes what it reads. |
| Runs.SnapshotReadsItsMoment | SkripsiSKW/Pods/leveldb-library/db/db_impl.cc:1166-1174 | A snapshot reads, as long as it lives, the last writes made before it was taken. |
| Lookup.RunAnswers | SkripsiSKW/Pods/leveldb-library/db/memtable.cc:100-134 | Seeking one sorted run to the lookup key and looking at one entry gives the newest visible entry of the user key. |
| Lookup.SortIsNewestFirst | SkripsiSKW/Pods/leveldb-library/db/version_set.cc:278-280 | Level-zero files are read in order of decreasing number. |
| Lookup.FilesToSearch | SkripsiSKW/Pods/leveldb-library/db/version_set.cc:347-382 | At level zero every file that covers the user key, newest first; elsewhere at most the one file the binary search finds. |
| Lookup.AnswerLifts | SkripsiSKW/Pods/leveldb-library/db/version_set.cc:384-417 | An answer found in a file is the answer of the whole version when shallower files and files read before do not see the key. |
| Lookup.SearchLevel | SkripsiSKW/Pods/leveldb-library/db/version_set.cc:384-417 | Reading the files of a level in order and stopping at the first answer is right for the whole version. |
| Lookup.VersionGet | SkripsiSKW/Pods/leveldb-library/db/version_set.cc:326-421 | The level-by-level search with early exit returns the newest visible entry over all files of the version. |
| Edits.CompactionEditReplaces | SkripsiSKW/Pods/leveldb-library/db/version_set.cc:1525-1531 | Applying the edit of a compaction replaces exactly its inputs by its outputs. |
| Edits.StillNeverDeeper | SkripsiSKW/Pods/leveldb-library/db/version_set.cc:801-884 | A file number enters a level at most once and never a level above one it was in, which is what replaying the manifest relies on. |
| Engine.PickLevelForMemTableOutput | SkripsiSKW/Pods/leveldb-library/db/version_set.cc:491-516 | The deepest allowed level such that nothing down to it overlaps the file and every level passed allowed it to sink further. |
| MergeInputs.SetupIsChosen | SkripsiSKW/Pods/leveldb-library/db/version_set.cc:1403-1462 | The completed choice of inputs is what a compaction step asks for. |
| MergeInputs.StreamsInterleave | SkripsiSKW/Pods/leveldb-library/db/version_set.cc:1237-1268 | The streams of a version are sorted, share no entry, and interleave into one sorted union. |
| MergeInputs.MakeInputIterator | SkripsiSKW/Pods/leveldb-library/db/version_set.cc:1237-1268 | The merging iterator over the inputs yields exactly their entries in order. |
| MergeInputs.VersionIsReadable | SkripsiSKW/Pods/leveldb-library/db/version_set.cc:230-246 | One stream per level-zero file and one per deeper level together hold all entries of the version. |
| Engine.NewerRunFirst | SkripsiSKW/Pods/leveldb-library/db/db_impl.cc:1123-1133 | An answer from a newer run holds for everything older; otherwise the rest decides. |
| Engine.DB.constructor | SkripsiSKW/Pods/leveldb-library/db/db_impl.cc:182-212 | A new engine is in the initial state of the machine. |
| Engine.DB.Write | SkripsiSKW/Pods/leveldb-library/db/db_impl.cc:1202-1236 | A write of one entry is the write step. |
| Engine.DB.SwitchMemTable | SkripsiSKW/Pods/leveldb-library/db/db_impl.cc:1345-1367 | Switching memtables is the switch step: the full one becomes immutable, a file number goes to the new log. |
| Engine.DB.GetSnapshot | SkripsiSKW/Pods/leveldb-library/db/db_impl.cc:1166-1169 | A snapshot is the published sequence number, and is then listed as live. |
| Engine.DB.ReleaseSnapshot | SkripsiSKW/Pods/leveldb-library/db/db_impl.cc:1171-1174 | Releasing removes exactly that snapshot. |
| Engine.DB.CompactMemTable | SkripsiSKW/Pods/leveldb-library/db/db_impl.cc:535-566 | The immutable memtable becomes a file of the level picked for it, or vanishes if it was empty: one flush step of the machine. |
| Engine.DB.IsTrivialMove | SkripsiSKW/Pods/leveldb-library/db/version_set.cc:1515-1523 | True exactly for a single upper file with no lower inputs that overlaps little two levels down. |
| Engine.DB.MoveFile | SkripsiSKW/Pods/leveldb-library/db/db_impl.cc:718-733 | A trivial move is a move step; the compaction pointer of the level is set. |
| Engine.DB.MergeFiles | SkripsiSKW/Pods/leveldb-library/db/db_impl.cc:878-1007 | The merging iterator run through the compaction loop yields output files of exactly the survivors, cut by the grandparents. |
| Engine.DB.CompactFiles | SkripsiSKW/Pods/leveldb-library/db/db_impl.cc:860-876 | A merging compaction, its outputs installed by one edit, is a compaction step with outputs cut right; the compaction pointer of the level is set. |
| Engine.DB.PickFile | SkripsiSKW/Pods/leveldb-library/db/version_set.cc:1283-1295 | The first file past the compaction pointer of the level, or its first file when there is none past it. |
| Engine.DB.Compact | SkripsiSKW/Pods/leveldb-library/db/version_set.cc:1403-1462 | From a first choice: the step is of its level and contains the choice, its inputs are those that the choice leads to, it is a move exactly for a trivial automatic one, the pointer of the level moves to the largest key of the upper inputs, and no output overlaps too much. |
| Engine.DB.CompactFrom | SkripsiSKW/Pods/leveldb-library/db/version_set.cc:1297-1320 | An automatic compaction contains the picked file: its inputs are what that file, with its level-zero companions, leads to. |
| Engine.DB.BackgroundCompaction | SkripsiSKW/Pods/leveldb-library/db/db_impl.cc:688-767 | One turn of the background thread is one step of the machine or changes nothing. A waiting memtable goes first. For a seek the step compacts the file given, for size the first file of the level past its old compaction pointer (else its first file), in the level asked for and with exactly the inputs that follow, without a gap. A manual one takes a size-limited piece of the range, is done exactly when no file of the level overlaps what is left of it, and otherwise goes on from where the piece ended. The level's pointer moves to the largest key of the upper inputs. |
| Engine.DB.CompactPiece | SkripsiSKW/Pods/leveldb-library/db/version_set.cc:1464-1495 | A piece is one step exactly when some file of the level overlaps the range; its inputs are those that the size-limited choice leads to; files leave the level, none comes, and what still overlaps the range does so from the last input on, where the next piece begins. |
| ManualRanges.PieceIsDone | SkripsiSKW/Pods/leveldb-library/db/db_impl.cc:754-767 | Installing the outputs of a piece cut to size leaves no file of the level before the place where the next piece begins. |
| Engine.DB.CompactLevel | SkripsiSKW/Pods/leveldb-library/db/db_impl.cc:585-622 | The loop over the pieces terminates as a run of steps, and then no file of the level overlaps the range; only this level and the next have changed unless a memtable was waiting. |
| Engine.DB.CompactMemTableNow | SkripsiSKW/Pods/leveldb-library/db/db_impl.cc:624-637 | Both memtables are empty afterwards; the steps are a run. |
| Engine.DB.CompactRange | SkripsiSKW/Pods/leveldb-library/db/db_impl.cc:568-583 | Afterwards nothing of the range is in the memtables or above the deepest level that held some of it at the start. |
| Engine.DB.NewInternalIterator | SkripsiSKW/Pods/leveldb-library/db/db_impl.cc:1062-1087 | The internal iterator goes through exactly all entries of the database. |
| Engine.DB.NewIterator | SkripsiSKW/Pods/leveldb-library/db/db_impl.cc:1147-1157 | A database iterator goes through a sorted map that agrees with point reads at its sequence number, for every key and value. |
| Engine.DB.Get | SkripsiSKW/Pods/leveldb-library/db/db_impl.cc:1100-1145 | Memtable, then immutable memtable, then version: the result is the read over all entries of the database. |
| WriteBatches.RecordRoundTrip | SkripsiSKW/Pods/leveldb-library/db/write_batch.cc:98-109 | Reading one record of a batch gives back the update it was written for. |
| WriteBatches.IterateRoundTrip | SkripsiSKW/Pods/leveldb-library/db/write_batch.cc:42-80 | Iterating the bytes of a batch makes exactly the calls that built it, with status ok. |
| WriteBatches.WriteBatch.Put | SkripsiSKW/Pods/leveldb-library/db/write_batch.cc:98-103 | One update more, the count patched in the header. |
| WriteBatches.WriteBatch.Delete | SkripsiSKW/Pods/leveldb-library/db/write_batch.cc:105-109 | One deletion more, the count patched in the header. |
| WriteBatches.WriteBatch.Append | SkripsiSKW/Pods/leveldb-library/db/write_batch.cc:144-148 | The updates of the source follow the present ones, also when a batch is appended to itself. |
| WriteBatches.WriteBatch.SetSequence | SkripsiSKW/Pods/leveldb-library/db/write_batch.cc:94-96 | Only the sequence number changes. |
| WriteBatches.WriteBatch.Iterate | SkripsiSKW/Pods/leveldb-library/db/write_batch.cc:42-80 | For any bytes: the handler calls before the first bad record and the status, including a wrong count. |
| GroupCommit.Gather | SkripsiSKW/Pods/leveldb-library/db/db_impl.cc:1292-1301 | Appending moves the group to the temporary batch and leaves the first caller's batch as it was. |
| GroupCommit.BuildBatchGroup | SkripsiSKW/Pods/leveldb-library/db/db_impl.cc:1260-1306 | The group is the longest front of the queue allowed by size and sync flags, and the batch built holds its updates in queue order. |
| GroupCommit.GroupLimits | SkripsiSKW/Pods/leveldb-library/db/db_impl.cc:1266-1294 | With the sizes spelled out: a first batch of up to 128 kilobytes is followed by 128 kilobytes at most, a larger one by what fits in a megabyte, and the group ends only at a write that asks for a sync the first does not or goes past that size. |
| GroupCommit.PublishIsWrites | SkripsiSKW/Pods/leveldb-library/db/db_impl.cc:1202-1236 | Publishing a group equals writing its updates one by one with consecutive sequence numbers. |
| GroupCommit.StepKeepsInv | SkripsiSKW/Pods/leveldb-library/db/db_impl.cc:1185-1256 | Every step of the writers' protocol keeps its invariant: first in first out, log and memtable agree with the queue, a sync writer only in a synced record. |
| GroupCommit.HistoryRefinesRun | SkripsiSKW/Pods/leveldb-library/db/db_impl.cc:1185-1256 | Every interleaving of writers, background work and snapshots is a run of single writes: the finished batches in order of arrival, each exactly once. |
| GroupCommit.ReadsSeeWholeBatches | SkripsiSKW/Pods/leveldb-library/db/db_impl.cc:1202-1248 | At every moment a read at the published sequence number sees each finished batch wholly, nothing of any other, and the last update of its key wins. |
| GroupCommit.SnapshotsSeeWholeBatches | SkripsiSKW/Pods/leveldb-library/db/db_impl.cc:1166-1169 | A held snapshot sees the batches finished when it was taken, each wholly, whatever happens since. |
| GroupCommit.LogHoldsWholeGroups | SkripsiSKW/Pods/leveldb-library/db/db_impl.cc:1205-1236 | At every moment the log holds the finished batches and either nothing or all of the group being written, numbered consecutively. |
| GroupCommit.LoggedBeforeInserted | SkripsiSKW/Pods/leveldb-library/db/db_impl.cc:1213-1226 | Nothing reaches the memtable before the record of its whole group is in the log. |
| DataLog.InsertInto | SkripsiSKW/Pods/leveldb-library/db/write_batch.cc:115-139 | The entries of a logged batch go into the memtable under the batch's consecutive sequence numbers. |
| DataLog.RecoverLogFile | SkripsiSKW/Pods/leveldb-library/db/db_impl.cc:371-489 | From any byte-prefix of the log of the groups, replay gives memtables, sorted and in turn newer, that hold the entries of exactly the groups whose record survived to its last byte, and the last sequence number of those. |
| DataLog.RecoveredReads | SkripsiSKW/Pods/leveldb-library/db/db_impl.cc:414-452 | After recovery a read gives the last update of its key among the surviving groups. |
| DataLog.LogEndsBetweenCalls | SkripsiSKW/Pods/leveldb-library/db/db_impl.cc:1185-1253 | However much of the log survives, it is what the first so many calls wrote, each wholly. |
| GroupCommit.CallWithoutBatch | SkripsiSKW/Pods/leveldb-library/db/db_impl.cc:1201-1204 | A call without a batch leaves an empty memtable if it comes to the front; taken along by a group it does so only if there was nothing to write. |
| GroupCommit.CallWithoutBatchTakenAlong | SkripsiSKW/Pods/leveldb-library/db/db_impl.cc:1255-1306 | Six steps from the empty database in which a call without a batch is taken along and ends with a memtable that is not empty. |
| Merger.MergingIterator.FindSmallest | SkripsiSKW/Pods/leveldb-library/table/merger.cc:148-161 | The child that holds the next entry of the union. |
| Merger.MergingIterator.Seek | SkripsiSKW/Pods/leveldb-library/table/merger.cc:47-53 | Lands where a plain cursor over the sorted union does. |
| Merger.MergingIterator.SeekToFirst | SkripsiSKW/Pods/leveldb-library/table/merger.cc:31-37 | The first entry of the union, or invalid. |
| Merger.MergingIterator.SeekToLast | SkripsiSKW/Pods/leveldb-library/table/merger.cc:39-45 | The last entry of the union, or invalid. |
| Merger.MergingIterator.Next | SkripsiSKW/Pods/leveldb-library/table/merger.cc:55-79 | One step forward in the union from any position, also right after going backward. |
| Merger.MergingIterator.Prev | SkripsiSKW/Pods/leveldb-library/table/merger.cc:81-108 | One step backward in the union, also right after going forward. |
| Merger.OrderExists | SkripsiSKW/Pods/leveldb-library/table/merger.cc:179-189 | Sorted children with distinct keys have a sorted union with the same entries. |
| TwoLevel.SeekLands | SkripsiSKW/Pods/leveldb-library/table/two_level_iterator.cc:82-87 | A seek in the whole lands in, or right behind, the block the index seek finds. |
| TwoLevel.TwoLevelIterator.Seek | SkripsiSKW/Pods/leveldb-library/table/two_level_iterator.cc:82-87 | Lands where a plain cursor over the concatenated blocks does, empty blocks skipped. |
| TwoLevel.TwoLevelIterator.SeekToFirst | SkripsiSKW/Pods/leveldb-library/table/two_level_iterator.cc:89-94 | The first entry of the concatenation. |
| TwoLevel.TwoLevelIterator.SeekToLast | SkripsiSKW/Pods/leveldb-library/table/two_level_iterator.cc:96-101 | The last entry of the concatenation. |
| TwoLevel.TwoLevelIterator.Next | SkripsiSKW/Pods/leveldb-library/table/two_level_iterator.cc:103-107 | One step forward in the concatenation. |
| TwoLevel.TwoLevelIterator.Prev | SkripsiSKW/Pods/leveldb-library/table/two_level_iterator.cc:109-113 | One step backward in the concatenation. |
| TwoLevel.TwoLevelIterator.SkipEmptyDataBlocksForward | SkripsiSKW/Pods/leveldb-library/table/two_level_iterator.cc:115-126 | Skips any number of empty blocks and stops at the entry the scan was for. |
| TwoLevel.TwoLevelIterator.SkipEmptyDataBlocksBackward | SkripsiSKW/Pods/leveldb-library/table/two_level_iterator.cc:128-139 | The same backward. |
| TwoLevel.LevelIsConcatenated | SkripsiSKW/Pods/leveldb-library/db/version_set.cc:223-228 | The iterator over a level reads its files one after another. |
| DbIter.ViewIsTheVisibleMap | SkripsiSKW/Pods/leveldb-library/db/db_iter.cc:36-46 | What the iterator goes through is sorted by user key and holds a pair exactly when a point read at its sequence number returns it. |
| DbIter.DBIter.FindNextUserEntry | SkripsiSKW/Pods/leveldb-library/db/db_iter.cc:168-198 | Stops at the next shown entry and passes only entries that are not shown or belong to the skipped key. |
| DbIter.DBIter.FindPrevUserEntry | SkripsiSKW/Pods/leveldb-library/db/db_iter.cc:227-267 | Finds the shown entry before, with its key and value saved, and stops behind its user key. |
| DbIter.DBIter.Next | SkripsiSKW/Pods/leveldb-library/db/db_iter.cc:141-166 | One step forward in the visible map, also right after going backward. |
| DbIter.DBIter.Prev | SkripsiSKW/Pods/leveldb-library/db/db_iter.cc:200-225 | One step backward in the visible map, also right after going forward. |
| DbIter.DBIter.Seek | SkripsiSKW/Pods/leveldb-library/db/db_iter.cc:269-281 | The first pair of the visible map at or after the key. |
| DbIter.DBIter.SeekToFirst | SkripsiSKW/Pods/leveldb-library/db/db_iter.cc:283-292 | The first pair of the visible map. |
| DbIter.DBIter.SeekToLast | SkripsiSKW/Pods/leveldb-library/db/db_iter.cc:294-299 | The last pair of the visible map. |
| SkipLists.StoreKeepsInv | SkripsiSKW/Pods/leveldb-library/db/skiplist.h:337-368 | Every single store of the writer keeps all levels sorted sublists of level zero and never removes an entry; only the store at level zero inserts. |
| SkipLists.PublishInserts | SkripsiSKW/Pods/leveldb-library/db/skiplist.h:361-367 | The store that links a node at level zero is the insertion; those above change no contents. |
| SkipLists.LoadFits | SkripsiSKW/Pods/leveldb-library/db/skiplist.h:262-281 | A reader never follows an unset link and stays on linked nodes, whatever the writer does in between. |
| SkipLists.LastLoadAnswers | SkripsiSKW/Pods/leveldb-library/db/skiplist.h:262-281 | The answer of a search is right for the contents at its last load. |
| SkipLists.SearchesLinearise | SkripsiSKW/Pods/leveldb-library/db/skiplist.h:262-322 | However loads and stores interleave, a finished search answers for the contents at its last load. |
| SkipLists.ContentsGrow | SkripsiSKW/Pods/leveldb-library/db/skiplist.h:337-368 | Along every interleaving, what was once in the list stays. |
| SkipLists.SkipList.FindGreaterOrEqual | SkripsiSKW/Pods/leveldb-library/db/skiplist.h:262-281 | The first entry at or after the key, and at every level the node the search left it from. |
| SkipLists.SkipList.FindLessThan | SkripsiSKW/Pods/leveldb-library/db/skiplist.h:285-302 | The last entry before the key, or the head. |
| SkipLists.SkipList.FindLast | SkripsiSKW/Pods/leveldb-library/db/skiplist.h:305-322 | The last entry, or the head of an empty list. |
| SkipLists.SkipList.Contains | SkripsiSKW/Pods/leveldb-library/db/skiplist.h:371-378 | True exactly when an entry with the key is in the list. |
| SkipLists.SkipList.Insert | SkripsiSKW/Pods/leveldb-library/db/skiplist.h:337-368 | The contents become the old ones with the entry in its place, by a trace of single writer steps. |
| SkipLists.Iterator.Seek | SkripsiSKW/Pods/leveldb-library/db/skiplist.h:224-226 | A plain cursor over the contents. |
| SkipLists.Iterator.Prev | SkripsiSKW/Pods/leveldb-library/db/skiplist.h:213-221 | The entry before, found by searching since there are no back links. |
| SkipLists.IteratorsLinearise | SkripsiSKW/Pods/leveldb-library/db/skiplist.h:207-241 | However an iterator's loads and a writer's stores interleave: Next goes to the entry after the present one, and Seek, Prev and SeekToLast to the entry they are for, in the contents at the last load. |
| SkipLists.PrevIsBefore | SkripsiSKW/Pods/leveldb-library/db/skiplist.h:213-221 | What Prev searches for is the entry just before the iterator's own, wherever that is by then. |
| SkipLists.MemTable.Add | SkripsiSKW/Pods/leveldb-library/db/memtable.cc:75-98 | The memtable becomes the old one with the entry in its place. |
| SkipLists.MemTable.Get | SkripsiSKW/Pods/leveldb-library/db/memtable.cc:100-134 | A lookup in the memtable answers as a lookup in its sorted contents. |
| Bytewise.RankKeepsOrder | SkripsiSKW/Pods/leveldb-library/util/comparator.cc:25-27 | Byte strings under the default comparator embed into the order that the engine model uses for user keys, injectively. |
| Bytewise.Compare | SkripsiSKW/Pods/leveldb-library/util/comparator.cc:25-27 | Three-way comparison of byte strings, total and consistent with the order. |
| Bytewise.FindShortestSeparator | SkripsiSKW/Pods/leveldb-library/util/comparator.cc:29-50 | The result is the start with the byte raised and cut off where start and limit first differ, if that byte leaves room, and the start otherwise; so it is the start, or no longer and strictly between. |
| Bytewise.NothingShorter | SkripsiSKW/Pods/leveldb-library/util/comparator.cc:29-50 | Where there is room, nothing shorter than that separator lies strictly between start and limit. |
| Bytewise.FindShortSuccessor | SkripsiSKW/Pods/leveldb-library/util/comparator.cc:52-64 | The first byte that is not 0xff is raised and what follows cut off; the key itself exactly when it is all 0xff. |
| Bytewise.FindShortestKeySeparator | SkripsiSKW/Pods/leveldb-library/db/dbformat.cc:69-86 | The internal separator takes the shortened user key exactly when that is shorter, with the largest sequence number, and is the start otherwise. |
| Bytewise.SeparatorLies | SkripsiSKW/Pods/leveldb-library/db/dbformat.cc:69-86 | The separator is the start, or has a shorter user key strictly between the two user keys. |
| Bytewise.FindShortKeySuccessor | SkripsiSKW/Pods/leveldb-library/db/dbformat.cc:88-101 | The internal successor takes the shortened user key exactly when that is shorter, and is the key otherwise. |
| Bytewise.SuccessorLies | SkripsiSKW/Pods/leveldb-library/db/dbformat.cc:88-101 | The successor is the key, or has a later, shorter user key. |
| Filters.CreateFilter | SkripsiSKW/Pods/leveldb-library/util/bloom.cc:28-54 | The filter appended has the least number of bytes for max(64, n * bitsPerKey) bits, a bit set if and only if one of the first K probes of a given key is at it, and K as its last byte; what was there stays. |
| Filters.MatchesExactly | SkripsiSKW/Pods/leveldb-library/util/bloom.cc:56-80 | Such a filter matches a key if and only if every bit the key probes is probed by one of the given keys. |
| Filters.OwnKeysProbed | SkripsiSKW/Pods/leveldb-library/util/bloom.cc:28-80 | That holds of each of the given keys: there are no false negatives. |
| Filters.DeltaRotates | SkripsiSKW/Pods/leveldb-library/util/bloom.cc:47 | The step between probes is the hash with its low 17 bits moved to the front. |
| Filters.ProbesAreSpaced | SkripsiSKW/Pods/leveldb-library/util/bloom.cc:46-52 | Probe j is the hash plus j such steps, in 32 bits. |
| Filters.KeyMayMatch | SkripsiSKW/Pods/leveldb-library/util/bloom.cc:56-80 | For any bytes: a filter of less than two bytes matches nothing, one with more than 30 probes everything, any other exactly the keys whose probed bits are all set. |
| Filters.FilterBlockBuilder.StartBlock | SkripsiSKW/Pods/leveldb-library/table/filter_block.cc:21-27 | Filters of all ranges before the block's are finished: the first with the open keys, those after it empty. |
| Filters.FilterBlockBuilder.GenerateFilter | SkripsiSKW/Pods/leveldb-library/table/filter_block.cc:51-75 | The open keys become the filter of the next range, an empty one if there are none. |
| Filters.FilterBlockBuilder.Finish | SkripsiSKW/Pods/leveldb-library/table/filter_block.cc:35-49 | The finished block answers for every offset in its ranges as a filter of exactly the keys of that range, and no to everything in a range without keys. |
| Filters.GroupIsFound | SkripsiSKW/Pods/leveldb-library/table/filter_block.cc:90-104 | A lookup for a block offset is answered by the filter of its range, found through the offset array: yes if and only if every bit the key probes is probed by a key of that range. |
| Filters.FilterBlockReader.BlockKeyMayMatch | SkripsiSKW/Pods/leveldb-library/table/filter_block.cc:90-104 | Reads the filter of the range the block starts in; errors in the offsets answer yes. |
| Tables.IndexAfterBlock | SkripsiSKW/Pods/leveldb-library/table/table_builder.cc:102-109 | An index key is at or after everything in its block and all blocks before. |
| Tables.IndexBeforeRest | SkripsiSKW/Pods/leveldb-library/table/table_builder.cc:102-109 | An index key is before everything in later blocks, and if shortened has a smaller user key than they have. |
| Tables.ProbedBlock | SkripsiSKW/Pods/leveldb-library/table/table.cc:216-244 | Where the index seek points is where the first entry at or after the target is, if it has the target's user key. |
| Tables.InternalGet | SkripsiSKW/Pods/leveldb-library/table/table.cc:216-244 | At most one block is probed: none if the index has no key at or after the target or the filter of the block's range denies the user key, else the block found hands back its first entry at or after the target. And that is complete: the entry a seek in the whole table finds whenever it has the target's user key. |
| Tables.ProbeAnswersAsRun | SkripsiSKW/Pods/leveldb-library/db/version_set.cc:263-276 | A lookup through the single probe answers as a lookup in the whole sorted run. |
| TableBuilders.TableBuilder.Add | SkripsiSKW/Pods/leveldb-library/table/table_builder.cc:94-123 | One entry more; the index entry of the finished block gets the separator of the keys around the boundary; the open block moves into the file exactly when it is full. |
| TableBuilders.TableBuilder.Flush | SkripsiSKW/Pods/leveldb-library/table/table_builder.cc:125-139 | The open block, unless empty, moves into the file at the next offset; the entries added stay the same. |
| TableBuilders.TableBuilder.Finish | SkripsiSKW/Pods/leveldb-library/table/table_builder.cc:198-253 | The finished table holds the added entries in order and is good: ordered blocks, the shortened keys of the boundaries as index keys, and a filter that answers for each block as one of exactly the user keys of its range. |
| Blocks.ItemLies | SkripsiSKW/Pods/leveldb-library/table/block_builder.cc:90-98 | Every entry's bytes lie between its offset and the next. |
| Blocks.RestartStored | SkripsiSKW/Pods/leveldb-library/table/block_builder.cc:62-70 | The restart array holds the offset of every restart point. |
| Blocks.HeaderRoundTrip | SkripsiSKW/Pods/leveldb-library/table/block.cc:54-74 | Decoding an entry's three lengths gives back what was encoded. |
| Blocks.DecodeEntry | SkripsiSKW/Pods/leveldb-library/table/block.cc:54-74 | The fast path for one-byte lengths and the general path decode the same. |
| Blocks.BlockBuilder.SharedPrefix | SkripsiSKW/Pods/leveldb-library/table/block_builder.cc:78-84 | The shared length is the longest common prefix. |
| Blocks.BlockBuilder.Add | SkripsiSKW/Pods/leveldb-library/table/block_builder.cc:72-106 | One entry more, sharing the longest prefix or, at every interval-th entry, nothing and then a restart point. |
| Blocks.BlockBuilder.Finish | SkripsiSKW/Pods/leveldb-library/table/block_builder.cc:62-70 | The result is a well-formed block of the added entries, of the estimated size. |
| Blocks.BlockIter.ParseNextKey | SkripsiSKW/Pods/leveldb-library/table/block.cc:224-251 | Parses exactly the next entry, with its key rebuilt from the one before, and keeps the restart index right. |
| Blocks.BlockIter.Next | SkripsiSKW/Pods/leveldb-library/table/block.cc:137-140 | One entry forward from every position. |
| Blocks.BlockIter.Prev | SkripsiSKW/Pods/leveldb-library/table/block.cc:142-161 | One entry backward from every position, also onto and from restart points; before the first entry it is invalid. |
| Blocks.BlockIter.FindRestart | SkripsiSKW/Pods/leveldb-library/table/block.cc:163-192 | The last restart point whose key is before the target, or the first one. |
| Blocks.BlockIter.Seek | SkripsiSKW/Pods/leveldb-library/table/block.cc:163-201 | Lands on the first entry that is not before the target, or is invalid. |
| Blocks.BlockIter.SeekToFirst | SkripsiSKW/Pods/leveldb-library/table/block.cc:203-206 | The first entry, or invalid for an empty block. |
| Blocks.BlockIter.SeekToLast | SkripsiSKW/Pods/leveldb-library/table/block.cc:208-213 | The last entry. |
| Blocks.ReadBack | SkripsiSKW/Pods/leveldb-library/table/block.cc:254-264 | Iterating a finished block gives exactly the added keys and values in order. |
| Checksums.UnmaskMask | SkripsiSKW/Pods/leveldb-library/util/crc32c.h:29-38 | Unmasking inverts masking for every checksum. |
| Crc32cOfBytes.ExtendComposes | SkripsiSKW/Pods/leveldb-library/db/log_writer.cc:94-97 | CRC32C over bytes may be computed in parts: what the log asks of its checksum. |
| Crc32cOfBytes.ExtendBytes | SkripsiSKW/Pods/leveldb-library/util/crc32c.cc:276-377 | The strided computation gives that checksum, whatever the bytes and wherever they lie in memory. |
| Crc32cOfBytes.ByteRoundTrip | SkripsiSKW/Pods/leveldb-library/util/crc32c.cc:276-290 | Bytes as numbers stand for the machine's bytes one for one. |
| Crc32cOfBytes.ThirtyTwoZeros | SkripsiSKW/Pods/leveldb-library/util/crc32c.cc:276-377 | A known value: 32 zero bytes have the checksum 0x8a9136aa. |
| Log.Writer.EmitPhysicalRecord | SkripsiSKW/Pods/leveldb-library/db/log_writer.cc:82-108 | Appends one fragment: the checksum goes on from the precomputed one of the type and is that of type and payload together. |
| Log.Writer.AddRecord | SkripsiSKW/Pods/leveldb-library/db/log_writer.cc:34-80 | The file becomes the log of the records so far and the new one, also after reopening at a complete file's length. |
| Log.Writer.Reopen | SkripsiSKW/Pods/leveldb-library/db/log_writer.cc:27-30 | A writer reopened at the end of a file goes on at the right place of the block. |
| Log.Reader.ReadPhysicalRecord | SkripsiSKW/Pods/leveldb-library/db/log_reader.cc:189-271 | Where a fragment is stored and wholly in the file it is read as stored; cut short it is the end of the file, never corruption. |
| Log.Reader.ReadRecord | SkripsiSKW/Pods/leveldb-library/db/log_reader.cc:56-174 | Where a record stands, it is read back if its last byte is in the file; otherwise reading ends without corruption. |
| Log.ReadAll | SkripsiSKW/Pods/leveldb-library/db/log_reader.cc:56-174 | For any byte-prefix of a log: exactly the records whose last byte survived, in order, and no corruption reported. |
| Manifest.SaveLevel | SkripsiSKW/Pods/leveldb-library/db/version_set.cc:695-739 | Merging base and added files while leaving out deleted ones gives the ordered listing of what remains. |
| Manifest.Builder.Apply | SkripsiSKW/Pods/leveldb-library/db/version_set.cc:650-692 | The builder follows the fold of the edits so far. |
| Manifest.Builder.SaveTo | SkripsiSKW/Pods/leveldb-library/db/version_set.cc:695-739 | The saved version lists, level by level, what the folded edits leave. |
| Manifest.FoldFollowsChain | SkripsiSKW/Pods/leveldb-library/db/version_set.cc:650-754 | Folding edits into one builder keeps track of every version that applying them one at a time passes through. |
| VersionSets.VersionSet.Snapshot | SkripsiSKW/Pods/leveldb-library/db/version_set.cc:1088-1116 | The snapshot record alone restores the current version and compaction pointers. |
| VersionSets.VersionSet.LogAndApply | SkripsiSKW/Pods/leveldb-library/db/version_set.cc:801-884 | The new version is the old one with the edit applied, the pointers follow, and the manifest grows by the edit with all its counters and describes the whole history. |
| VersionSets.VersionSet.Recover | SkripsiSKW/Pods/leveldb-library/db/version_set.cc:886-1011 | Replaying the manifest through one builder succeeds exactly when it is readable and complete, and gives the version, pointers and counters that applying its edits one at a time gives. |
| VersionSets.ReplayedVersion | SkripsiSKW/Pods/leveldb-library/db/version_set.cc:886-1011 | The version a replay ends with is the last one of the chain. |
| ManifestLog.RecoverFromLog | SkripsiSKW/Pods/leveldb-library/db/version_set.cc:914-1011 | From any byte-prefix of the manifest log, recovery gives the version, pointers and counters after the last edit whose record survived to its last byte; it fails exactly if those edits have another comparator or lack a counter. |
| ManifestLog.LogEdit | SkripsiSKW/Pods/leveldb-library/db/version_set.cc:801-884 | Applying an edit appends its encoding to the log as one record: log and version set stay in step, and all of the log recovers everything. |
| ManifestLog.LogLeadsToCurrent | SkripsiSKW/Pods/leveldb-library/db/version_set.cc:801-884 | The log of an open manifest stands for a history of versions that ends with the current one. |
| VersionSets.SetPointersTwice | SkripsiSKW/Pods/leveldb-library/db/version_set.cc:650-662 | Applying the pointer changes of an edit twice changes nothing more. |
| VersionEdits.ParsesExactlyKeys | SkripsiSKW/Pods/leveldb-library/db/dbformat.h:165-175 | Parsing inverts the encoding of internal keys and accepts nothing else. |
| VersionEdits.PayloadRoundTrip | SkripsiSKW/Pods/leveldb-library/db/version_edit.cc:107-205 | Every kind of field is read back, except that a level that does not exist is refused. |
| VersionEdits.EditRoundTrip | SkripsiSKW/Pods/leveldb-library/db/version_edit.cc:41-205 | Decoding an encoded edit gives it back, behind compaction pointers that were there already, exactly if all its levels exist; otherwise it complains. |
| VersionEdits.MissingLevelIsRefused | SkripsiSKW/Pods/leveldb-library/db/version_edit.cc:97-105 | An edit that deletes a file of level 7 is encoded in three bytes that do not decode. |
| VersionEdits.VersionEdit.Clear | SkripsiSKW/Pods/leveldb-library/db/version_edit.cc:26-39 | Everything is forgotten but the compaction pointers. |
| VersionEdits.VersionEdit.EncodeTo | SkripsiSKW/Pods/leveldb-library/db/version_edit.cc:41-85 | Appends the fields that are set and then the lists, in the fixed order. |
| VersionEdits.VersionEdit.DecodeFrom | SkripsiSKW/Pods/leveldb-library/db/version_edit.cc:107-205 | For any bytes: the edit after the fields that can be read, and the complaint if one cannot. |
| HandleTables.HandleTable.FindPointer | SkripsiSKW/Pods/leveldb-library/util/cache.cc:114-120 | The slot of the tag in its bucket's chain, with the handle the map holds for it. |
| HandleTables.HandleTable.Insert | SkripsiSKW/Pods/leveldb-library/util/cache.cc:78-92 | The abstract map gets the handle; the one replaced is returned; the table grows exactly when there are more handles than buckets. |
| HandleTables.HandleTable.Remove | SkripsiSKW/Pods/leveldb-library/util/cache.cc:94-102 | The abstract map loses the tag; its handle is returned. |
| HandleTables.HandleTable.Resize | SkripsiSKW/Pods/leveldb-library/util/cache.cc:122-146 | The abstract map stays the same; the table has the least power of two of buckets, four or more, that is enough for every handle. |
| LruCaches.LRUCache.Ref | SkripsiSKW/Pods/leveldb-library/util/cache.cc:217-223 | One client more; the first one takes a cached entry off the LRU list. |
| LruCaches.LRUCache.Unref | SkripsiSKW/Pods/leveldb-library/util/cache.cc:225-237 | The last reference frees the entry, the last client's puts a cached one at the end of the LRU list. |
| LruCaches.LRUCache.Lookup | SkripsiSKW/Pods/leveldb-library/util/cache.cc:252-259 | The handle the map holds for the tag, now with one client more and off the LRU list; nothing else changes. |
| LruCaches.LRUCache.Release | SkripsiSKW/Pods/leveldb-library/util/cache.cc:261-264 | The entry goes with the last reference to it and only then, or becomes the one used most recently when its last client leaves; no other entry changes. |
| LruCaches.LRUCache.Insert | SkripsiSKW/Pods/leveldb-library/util/cache.cc:266-303 | The new entry replaces any other with its tag; what is freed is that one, if no client holds it, and a prefix of the LRU list, in order and no longer than needed; afterwards usage is within capacity or the LRU list is empty. |
| LruCaches.LRUCache.EvictOldest | SkripsiSKW/Pods/leveldb-library/util/cache.cc:293-300 | Frees exactly the entry that was used longest ago. |
| LruCaches.LRUCache.FinishErase | SkripsiSKW/Pods/leveldb-library/util/cache.cc:307-316 | The entry leaves its list and the usage, and is freed only if no client holds it. |
| LruCaches.LRUCache.Erase | SkripsiSKW/Pods/leveldb-library/util/cache.cc:318-321 | The map loses the tag. |
| LruCaches.LRUCache.Prune | SkripsiSKW/Pods/leveldb-library/util/cache.cc:323-333 | Exactly the entries of the LRU list are freed, oldest first. |
| LruCaches.InOneList | SkripsiSKW/Pods/leveldb-library/util/cache.cc:28-39 | A cached entry is in exactly one list, chosen by its reference count; others are in none. |
| Coding.FixedRoundTrip | SkripsiSKW/Pods/leveldb-library/util/coding.cc:9-33 | A fixed-width number is read back. |
| Coding.VarintRoundTrip | SkripsiSKW/Pods/leveldb-library/util/coding.cc:81-90 | A varint is read back from the front of any bytes, in at most as many bytes as its size allows. |
| Coding.EncodeVarint32IsVarint | SkripsiSKW/Pods/leveldb-library/util/coding.cc:47-73 | The five cases of the 32-bit encoder write the general varint. |
| Coding.EncodeVarint64 | SkripsiSKW/Pods/leveldb-library/util/coding.cc:81-90 | The loop writes the varint in at most ten bytes. |
| Coding.GetVarint | SkripsiSKW/Pods/leveldb-library/util/coding.cc:112-169 | For any bytes: the varint at the front, truncated to the size read into, or nothing if it does not end in time. |
| Coding.PrefixedRoundTrip | SkripsiSKW/Pods/leveldb-library/util/coding.cc:98-101 | A length-prefixed slice is read back. |
| Coding.GetLengthPrefixedSlice | SkripsiSKW/Pods/leveldb-library/util/coding.cc:181-190 | For any bytes: the slice at the front and what follows it, or nothing. |
| Crc32c.ZeroByteIsEightBits | SkripsiSKW/Pods/leveldb-library/util/crc32c.cc:20-63 | The byte table shifts out eight bits at once. |
| Crc32c.ByteTableBasis | SkripsiSKW/Pods/leveldb-library/util/crc32c.cc:20-63 | The byte table of the definition has the values listed for the single-bit bytes; the others are their sums. |
| Crc32c.StrideBasis0 | SkripsiSKW/Pods/leveldb-library/util/crc32c.cc:200-243 | The stride table for the lowest byte, sixteen zero bytes on, has the values listed for the single-bit bytes. |
| Crc32c.StrideBasis1 | SkripsiSKW/Pods/leveldb-library/util/crc32c.cc:155-198 | The same for the second byte. |
| Crc32c.StrideBasis2 | SkripsiSKW/Pods/leveldb-library/util/crc32c.cc:110-153 | The same for the third byte. |
| Crc32c.StrideBasis3 | SkripsiSKW/Pods/leveldb-library/util/crc32c.cc:65-108 | The same for the highest byte. |
| Crc32c.ZeroBytesAreLinear | SkripsiSKW/Pods/leveldb-library/util/crc32c.cc:276-377 | Shifting in zero bytes distributes over exclusive or, for all words and counts. |
| Crc32c.ExtendComposes | SkripsiSKW/Pods/leveldb-library/util/crc32c.h:17 | The checksum of a concatenation may be computed in parts. |
| Crc32c.StridesAdvance | SkripsiSKW/Pods/leveldb-library/util/crc32c.cc:294-310 | Sixteen bytes, one word to each of four strides, advance the whole by the sixteen bytes. |
| Crc32c.StridesRotate | SkripsiSKW/Pods/leveldb-library/util/crc32c.cc:349-358 | One more word and a rotation of the strides advance the whole by four bytes. |
| Crc32c.ExtendStrided | SkripsiSKW/Pods/leveldb-library/util/crc32c.cc:276-377 | The aligned, strided loop computes the bytewise checksum for every buffer, length, start address and initial value. |
| Crc32cValues.Residue | SkripsiSKW/Pods/leveldb-library/util/crc32c.cc:246-290 | The law that fixes both complements: for every start and data, the checksum of data followed by its own checksum in little-endian bytes is 0x48674bc7. |
| Crc32cValues.OnesInFront | SkripsiSKW/Pods/leveldb-library/util/crc32c.cc:246-290 | Four bytes 0xff in front bring the register to zero: what follows is shifted in from there. |
| Crc32cValues.ThirtyTwoZeros | SkripsiSKW/Pods/leveldb-library/util/crc32c.cc:276-377 | The same known value, over bytes as the machine has them. |
| PbCommon.FieldIter.Next | SkripsiSKW/Pods/nanopb/pb_common.c:20-76 | To the next field or around; wherever it came from, the pointer and the required index are those of the position. |
| PbCommon.FieldIter.Find | SkripsiSKW/Pods/nanopb/pb_common.c:78-95 | On a message with fields, the cyclic search finds a field with the tag if and only if there is one, from any starting position; on one without, it finds nothing (tag zero is left out). |
| PbCommon.SameSlotSameUnion | SkripsiSKW/Pods/nanopb/pb_common.c:44-50 | Two fields share storage only if they are members of one union. |
| PbEncode.SendVarint | SkripsiSKW/Pods/nanopb/pb_encode.c:608-628 | Writes or counts the varint. |
| PbEncode.SendArray | SkripsiSKW/Pods/nanopb/pb_encode.c:147-236 | A packed or tagged array: the length in front equals the bytes of the items that follow. |
| PbEncode.SendField | SkripsiSKW/Pods/nanopb/pb_encode.c:341-426 | What is sent for a field by its rule, proto3 defaults left out. |
| PbEncode.SendSubmessage | SkripsiSKW/Pods/nanopb/pb_encode.c:717-765 | The sizing pass counts exactly the bytes the writing pass emits, so the size never changes in between. |
| PbEncode.Encode | SkripsiSKW/Pods/nanopb/pb_encode.c:528-550 | Succeeds exactly if the message can be encoded and fits, and then has counted or written the same bytes. |
| PbEncode.GetEncodedSize | SkripsiSKW/Pods/nanopb/pb_encode.c:567-576 | The size is that of the encoding. |
| PbDecoder.DecodeVarint32Eof | SkripsiSKW/Pods/nanopb/pb_decode.c:187-247 | For any bytes: the 32-bit varint or an error, but for varints so long that the bit counter of the code wraps around; end of file only for an empty stream. |
| PbDecoder.DecodeVarint | SkripsiSKW/Pods/nanopb/pb_decode.c:255-275 | For any bytes: the 64-bit varint or an error. |
| PbDecoder.MakeSubstream | SkripsiSKW/Pods/nanopb/pb_decode.c:372-385 | The substream is the length-prefixed string, and the stream is left with what follows. |
| PbDecoder.DecodeStaticField | SkripsiSKW/Pods/nanopb/pb_decode.c:406-483 | What the slot holds after the field, by its rule, packed and unpacked arrays and unions included. |
| PbDecoder.SetToDefaults | SkripsiSKW/Pods/nanopb/pb_decode.c:911-922 | The struct holds the defaults of its descriptor. |
| PbDecoder.CheckRequired | SkripsiSKW/Pods/nanopb/pb_decode.c:1033-1073 | True exactly if all required fields that are kept track of were seen. |
| PbDecoder.DecodeNoInit | SkripsiSKW/Pods/nanopb/pb_decode.c:928-1076 | For any sound struct and any input (without such over-long varints, and without field number zero if the message has no fields): the struct after all fields were read into it, or an error. |
| PbDecoder.Decode | SkripsiSKW/Pods/nanopb/pb_decode.c:1078-1090 | For the same inputs: the decoded message, or an error. |
| PbRequired.RequiredMustBeSent | SkripsiSKW/Pods/nanopb/pb_decode.c:1033-1073 | Over the input: whatever it is, decoding gives what it would with nothing required, if each of the first 64 required fields has its tag at a place where a field begins, and fails otherwise; required fields after the 64th are not asked for. What is accepted consists of whole fields. |
| PbRequired.MissingFieldIsRefused | SkripsiSKW/Pods/nanopb/pb_decode.c:1033-1073 | An input in which the tag of one of those fields begins no field is refused. |
| PbRequired.LateFieldMayBeMissing | SkripsiSKW/Pods/nanopb/pb_decode.c:1016-1050 | Of 65 required fields the last may be missing: an input with the other 64 is accepted. |
| PbRequired.FieldIsSkipped | SkripsiSKW/Pods/nanopb/pb_decode.c:406-483 | A field that is read takes exactly the bytes that skipping a field of its type takes. |
| PbRequired.SeenIsComplete | SkripsiSKW/Pods/nanopb/pb_decode.c:1033-1073 | Everything has been seen exactly if the index of each of the first 64 required fields has been. |
| PbRequired.CountsRequired | SkripsiSKW/Pods/nanopb/pb_common.c:26-75 | The index the iterator keeps is the number of required fields in front. |
| PbDecoder.UnknownFieldIsSkipped | SkripsiSKW/Pods/nanopb/pb_decode.c:321-331 | A field the descriptor does not know changes nothing, whatever its type. |
| PbRoundTrip.NumberRoundTrip | SkripsiSKW/Pods/nanopb/pb_decode.c:1328-1439 | Booleans, sign-extended, unsigned, zigzag and fixed-width numbers of every size come back. |
| PbRoundTrip.ShortVarintsAreRead | SkripsiSKW/Pods/nanopb/pb_decode.c:187-247 | Any varint of up to five bytes is read as a 32-bit number if and only if its value is one. |
| PbRoundTrip.BlobRoundTrip | SkripsiSKW/Pods/nanopb/pb_decode.c:1441-1517 | Byte arrays come back; a string comes back exactly if it leaves room for its terminator. |
| PbRoundTrip.ZeroIsDefault | SkripsiSKW/Pods/nanopb/pb_encode.c:240-337 | What proto3 leaves out is what the decoder starts from, submessages included. |
| PbRoundTrip.OtherFieldStays | SkripsiSKW/Pods/nanopb/pb_decode.c:466-479 | Reading one field disturbs no other, not even another member of its union. |
| PbRoundTrip.FieldRoundTrip | SkripsiSKW/Pods/nanopb/pb_decode.c:406-483 | The bytes of one field bring back that field and nothing else. |
| PbRoundTrip.DecodeInvertsEncode | SkripsiSKW/Pods/nanopb/pb_decode.c:1078-1090 | Decoding the encoding of a message gives the same message exactly if every string sent ends within its storage; otherwise decoding fails. |
| PbRoundTrip.FullStringComesToNothing | SkripsiSKW/Pods/nanopb/pb_decode.c:1481-1515 | A message with one byte in a string field of one byte is encoded in three bytes that do not decode. |
| PbAnyInput.FieldsAreSound | SkripsiSKW/Pods/nanopb/pb_decode.c:928-1076 | Whatever the input, every step leaves arrays, strings and numbers within their storage. |
| PbAnyInput.AcceptedInputCanBeSentAgain | SkripsiSKW/Pods/nanopb/pb_decode.c:1078-1090 | Whatever input is accepted, the result can be encoded again and then decodes to the same message. |
| KnownBytes.Numbers | SkripsiSKW/Pods/leveldb-library/util/coding.cc:9-103 | Fixed-width numbers, varints and prefixed slices, byte by byte. |
| KnownBytes.MaskRotates | SkripsiSKW/Pods/leveldb-library/util/crc32c.h:29-32 | A masked checksum is its low 15 bits in front of its high 17, plus 0xa282ead8, for every checksum. |
| KnownBytes.KeyBytes | SkripsiSKW/Pods/leveldb-library/db/dbformat.cc:14-23 | An internal key ends with the kind, 1 for a value and 0 for a deletion, and the sequence number. |
| KnownBytes.BatchBytes | SkripsiSKW/Pods/leveldb-library/db/write_batch.cc:98-119 | A batch of a value and a deletion, byte by byte. |
| KnownBytes.FullRecord | SkripsiSKW/Pods/leveldb-library/db/log_writer.cc:34-108 | A record that fits in a block: its checksum, its length, type 1 and the data, for all data. |
| KnownBytes.OtherFragments | SkripsiSKW/Pods/leveldb-library/db/log_writer.cc:34-108 | A record that does not: 32761 bytes at a time, type 2 for the first fragment and 3 for the next. |
| KnownBytes.LastFragment | SkripsiSKW/Pods/leveldb-library/db/log_writer.cc:34-108 | And type 4 for the last. |
| KnownBytes.BlockTrailer | SkripsiSKW/Pods/leveldb-library/db/log_writer.cc:45-56 | Where fewer than seven bytes are left in a block, they are zeros. |
| KnownBytes.NumbersOfEdit | SkripsiSKW/Pods/leveldb-library/db/version_edit.cc:41-88 | The bytes of the number fields of an edit, with their tags. |
| KnownBytes.TextsOfEdit | SkripsiSKW/Pods/leveldb-library/db/version_edit.cc:41-88 | The bytes of its comparator and compaction pointers. |
| KnownBytes.FileOfEdit | SkripsiSKW/Pods/leveldb-library/db/version_edit.cc:76-86 | The bytes of a new file. |
| KnownBytes.EditOrder | SkripsiSKW/Pods/leveldb-library/db/version_edit.cc:41-88 | The order of the fields. |
| KnownBytes.BlockBytes | SkripsiSKW/Pods/leveldb-library/table/block_builder.cc:59-107 | A block of two entries that share a byte, byte by byte. |
| KnownBytes.NumberFields | SkripsiSKW/Pods/nanopb/pb_encode.c:608-692 | Protobuf numbers of several kinds, byte by byte. |
| KnownBytes.WideNumberFields | SkripsiSKW/Pods/nanopb/pb_encode.c:608-692 | A negative number and a 64-bit one. |
| KnownBytes.StringField | SkripsiSKW/Pods/nanopb/pb_encode.c:675-715 | A string. |
| KnownBytes.PackedField | SkripsiSKW/Pods/nanopb/pb_encode.c:147-238 | A packed array. |

## Left out

- User keys in the engine modules (`Keys` to `Engine`, `DbIter`, `SkipLists`) are ranks in a countable linear order, real numbers; `Bytewise.RankKeepsOrder` proves that byte strings under the default comparator embed into it, and `GroupCommit` and `Tables` use the embedding. Custom comparators are not modelled.
- Engine.DB.CompactFiles: merges and installs in one step; what happens while it merges is the subject of Interruptions, where the numbers of the outputs are handed out when the compaction starts.
- Engine.DB.Write: writes one entry, with the lock held throughout; batches, queueing and the steps in between are the subject of GroupCommit.
- GroupCommit: models error-free writers; the log is all records ever written, not cut into files, and condition variables are reduced to who is at the front of the queue.
- GroupCommit.HistoryRefinesRun: background compactions in a history must be safe in the sense of Runs, for the reason given above.
- Engine.DB.CompactLevel: nothing but a waiting memtable comes between the pieces; automatic compactions and flushes of later writes in between are separate steps of the machine.
- Opening a database, but for the replay of one log (DataLog) and of the manifest (ManifestLog): choosing logs and files, and reopening a log that ends in the middle of a record; repairing a database.
- DataLog.RecoverLogFile: reads all records before it replays them; the log is that of a database that was empty when it began, and what becomes of the memtables (files of level zero, or going on with the last one) is left out.
- Disk errors, background errors, shutdown, slowdown of writers and statistics; corrupt tables, blocks and logs, except for log truncation.
- Which level is compacted for its size score and which file for its seeks, when an output table is full, file sizes, hash values and node heights are parameters the proofs make no assumption about.
- VersionSets.VersionSet.LogAndApply: the compaction pointer moves when the edit is applied; the code also moves it when the compaction is set up.
- ManifestLog.LogEdit: is about a manifest that is already open; the bytes of the snapshot record that starts one are not modelled, its contents are in `VersionSets.VersionSet.Snapshot`.
- ManifestLog.RecoverFromLog: reads all records before it replays them, where the code does both in one loop; the entries of table files are looked up by file number.
- Files opened, closed and renamed for a manifest (the CURRENT file), and the table cache.
- Log.Reader.ReadRecord: reading starts at the front of the file (initial offset zero); what is promised is about prefixes of a well-formed log.
- SkipLists: loads and stores are single sequentially consistent steps; memory ordering weaker than that is not modelled.
- SkipLists.Iterator: the class is proved over a list that does not change meanwhile; SkipLists.IteratorsLinearise is about the steps it consists of, over a list that grows.
- Tables.Table: blocks of a table are sequences of entries; their bytes are the subject of Blocks. Compression, checksums and handles of blocks, the footer and the metaindex are not modelled.
- TableBuilders.TableBuilder.Finish: states the blocks, index and filters of the finished table, not the bytes of its metaindex and footer.
- Tables.InternalGet: asks for a filter block of less than four gigabytes, since its offsets are 32-bit.
- Blocks.BlockIter: is over a finished block of less than four gigabytes; error handling for other bytes is in Blocks.DecodeEntry only.
- Manifest.Edit: names table files together with their entries; VersionEdits has the edit as stored, with keys as bytes.
- LruCaches.LRUCache: one shard; the lock, the sharding by hash and the deleter callback itself are left out, a freed handle is recorded in a list instead.
- Crc32c: the acceleration by processor instructions. `Log` is stated for any checksum that composes; `Crc32cOfBytes` proves that CRC32C does.
- Sequence numbers stay below 2^56 - 1, counts of updates in a batch below 2^31, and slices below four gigabytes, as the formats need.
- Iterators read a fixed state; read sampling during iteration is left out.
- PbEncode, PbDecode: fields with pointers, callbacks and extensions, arrays of fixed count, and builds without 64-bit integers. Sizes are those of a build with 32-bit `pb_size_t`.
- PbCommon.Value: holds what is meant by a struct, not its storage: array items past the count and bytes past the end of a string are not modelled.
- PbDecoder.DecodeNoInit: what a struct holds after an error is left open.
- PbDecoder.DecodeVarint32Eof: counts the bytes of an over-long varint without wrapping around (`PbDecode.Continue32`), and so do all decoders built on it.
- PbDecoder.Decode: see PbDecoder.DecodeNoInit, PbDecoder.DecodeVarint32Eof and PbCommon.FieldIter.Find.
- PbCommon.FieldIter.Find: a field number of zero in the input of a message that has no fields, for which the code finds the terminator of the descriptor.
- The app's own code, gRPC, BoringSSL and the Firebase headers.
