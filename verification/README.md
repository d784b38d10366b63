# A verified model of the LevelDB engine

This project models the storage engine of the repository in Dafny and proves what its clients rely on. `dafny verify
dfyconfig.toml` checks all of it.

## What is modelled

**The store as a protocol.** A write is logged, put in the memtable one operation at a time, and published. The background
thread flushes memtables, moves tables and compacts levels. Readers capture a sequence number, two memtables and a version and
go on without a lock. A crash may come at any step. `Store.dfy` states this as a state machine whose actions are the regions
that run under the mutex; `StoreInvariant.dfy` proves one invariant of every run, crashes included, and `StoreTheorems.dfy`
draws the conclusions: a read that stops at the first hit is a read of the whole history, a captured view never changes, and
recovery keeps every acknowledged operation. `Clients.dfy` follows writes and snapshots along whole runs, and `PlainMap.dfy`
says what comes out without any of this: a read looks its key up in a plain map. The loops the protocol depends on are methods
proved against specifications: input selection (`Files.dfy`, `Selection.dfy`), lookups (`Versions.dfy`), the compaction pass
(`CompactionPass.dfy`), the manifest builder (`Manifest.dfy`), group commit (`GroupCommit.dfy`), log replay (`Recovery.dfy`).
`ManifestTrace.dfy` follows the manifest along every run and shows that reading it back gives the version and counters a
restart needs. `CompactionFailures.dfy` holds the compactions that do harm, with runs that lead to them, and
`StoppedRestart.dfy` says exactly when a store survives one.

**Cursors.** `Cursors.dfy` states what every iterator promises. `Merger.dfy`, `TwoLevel.dfy` and `DbIter.dfy` prove that
merging, two-level and user-level iterators keep that promise under any sequence of calls, with direction changes.
`IteratorChildren.dfy` and `Iteration.dfy` tie the user-level iterator, over the memtables and tables it merges, to the history,
also while the memtable grows between its calls.

**Bytes.** The write-ahead log (`LogFormat.dfy`, `LogReader.dfy`, `LogTheorems.dfy`), also when damaged (`LogDamage.dfy`),
blocks (`BlockFormat.dfy`, `BlockIter.dfy`), tables with separators and filters (`Comparators.dfy`, `Bloom.dfy`,
`FilterBlock.dfy`, `Table.dfy`, `TableBuilder.dfy`), write batches, manifest records and integers (`WriteBatch.dfy`,
`VersionEdit.dfy`, `ManifestRecords.dfy`, `Coding.dfy`, `Crc32c.dfy`, `ByteBits.dfy`), and the way from the bytes of a log to
a memtable (`LogReplay.dfy`).

**Indexes in memory.** The skip list with its heap nodes (`SkipList.dfy`) and one cache shard (`HandleTable.dfy`,
`LruCache.dfy`), with the links between its entries in `CacheLinks.dfy`.

## Conventions

- In the protocol and the cursors a user key is an integer: only the order of keys matters there, and any finite set of keys
  under a total order can be numbered in that order. In the byte modules keys are byte strings.
- Operation number `i` of the history has sequence number `i + 1`. A read at `s` is answered by the newest entry of its key
  numbered at most `s`.
- Sizes, limits, random heights, and the times at which the background thread or a crash comes are parameters or free choices.
- The smallest snapshot any compaction has used is the horizon of a state. No reader asks below it.

## Where the code does not do what it is for

- A compaction that sees the shutdown flag stops reading but still installs its edit (`db/db_impl.cc:461-583`). The flag is
  set only when the store is closed (`db/db_impl.cc:59-64`), so a restart follows. `EarlyStopLosesReads` is a run that loses a
  committed key; `EarlyStopExact`, `EarlyStopAt` and `StoppedCompactionExact` say exactly which reads survive.
- A compaction that writes nothing still adds an output file without keys: because its whole input died
  (`DeadInputBreaksStore`), or because it stopped before anything that survives (`StopAtOnceBreaksStore`, for any batch). Where
  assertions are off (`db/dbformat.h:102`) the record gets written, and the manifest cannot be read again.
  `CompactionNeedsASurvivor` and `CompactionRecordReadable` say exactly when this happens, for a pass stopped at any entry.
- `StoppedStoreExact` puts both together: a stopped compaction leaves a store that opens with every read intact if and only if
  the pass reached the newest version of some user key that is not a dead tombstone, and each entry it did not reach that is
  the newest of its user key says what the tables that stay say. Its premises hold in every state of every run (`RunKeepsInv`,
  `RunIsTraced`, `RunVersionsOk`). The protocol takes passes that run to the end and write something.
- Replaying edits through one builder agrees with installing them one at a time exactly when no file number is deleted and then
  used again at its level (`ReplayStepExact`, `ReusedNumberBreaksReplay`). Along a run that never happens (`RunIsTraced`).
- A separator that only lies between two blocks would not do for lookups (`SplitVersionsLoseReads`); the ones that the key
  comparator makes do (`SeparateKeys`, `DeliveredIsNewest`).
- The log reader's codes for the end (5) and for damage (6) are also values a type byte can have. A fragment of an unknown type
  should be reported and passed over; `UnknownTypeExact` says exactly when it is, and `CodeHidesRecords` that type 5 hides the
  sound records behind it without a report.
- The block iterator adds two 32-bit sizes without care for wrap-around (`table/block.cc:51`). `WrapIsAccepted` gives bytes that
  pass the check and point far outside the block; `AcceptedFitsExact` says that this is the only way.
- A comment says that unknown tags of a manifest record are ignored (`db/version_edit.cc:207`). The code below it refuses the
  record, and so does the model (`UnknownTagIsRefused`).

## Model

| member | source | states |
|---|---|---|
| `Files.FindFile` | db/version_set.cc:17-32 | The binary search returns the split point of a linear scan: every file before it ends before the key, every file from it on ends at or after the key. |
| `Files.SomeFileOverlapsRange` | db/version_set.cc:34-72 | True if and only if some file overlaps the range (open ends included), by the binary search over disjoint files as by the full scan. |
| `Files.GetOverlappingInputs` | db/version_set.cc:292-324 | Terminates despite the restarts; at level 0 the result is overlap-closed and contained in every overlap-closed set, above level 0 it is exactly the overlapping files in order. |
| `Selection.FindLargestKey` | db/version_set.cc:947-961 | The largest key over the files; nothing exactly for no files. |
| `Selection.FindSmallestBoundaryFile` | db/version_set.cc:963-980 | The boundary file with the smallest start, or nothing exactly when the level has no boundary file. |
| `Selection.AddBoundaryInputs` | db/version_set.cc:982-1000 | Terminates and appends exactly the chain of boundary files, followed to its end. |
| `Selection.ChainIsNew` | db/version_set.cc:982-1000 | The chain repeats no file and adds none that was there before. |
| `Selection.GetRange` | db/version_set.cc:921-939 | The least and greatest keys of the inputs, each attained. |
| `Selection.UpperClosure` | db/version_set.cc:1006-1007 | After the boundary search no file left at the level holds an older version of a user key that moves. |
| `Selection.LowerClosure` | db/version_set.cc:1009-1013 | The lower inputs take every file that meets the upper ones, leave no older version behind, and no file left lies inside the hull of all inputs. |
| `Selection.LowerInputs` | db/version_set.cc:1007-1010 | Given upper inputs: exactly the files of the lower level that meet their hull, and the chain of boundary files behind these; the pair is closed. |
| `Selection.SetupOtherInputs` | db/version_set.cc:1002-1045 | The inputs hold the seed: its boundary closure with what that takes along below, or all that the hull of both reaches above if and only if that is more files, stays under the size limit and takes along the very same files below. The pair is closed and in key order, boundary files included; the new pointer is the greatest key taken from above, and the grandparents are exactly the files two levels down that meet the inputs. |
| `Selection.LowerGrows` | db/version_set.cc:1019-1029 | More files above that take along as many below take along the same: why counting files decides the widening. |
| `Selection.PickCompaction` | db/version_set.cc:452-492 | The first file that ends after the compaction pointer, the first of the level if none does, or the file singled out by seeks; with all that its range reaches at level 0. From that seed the inputs of SetupOtherInputs, pointer and grandparents included. |
| `Selection.PickMovesOn` | db/version_set.cc:460-471 | With the pointer where a compaction left it, the next one starts with a file the last did not take, or begins again at the front because no file ends later. |
| `Selection.CompactRange` | db/version_set.cc:494-519 | No compaction exactly when nothing overlaps the range; otherwise the seed is all that overlaps it, above level 0 the shortest front part of that whose size reaches the limit, and the inputs are those of SetupOtherInputs. |
| `Selection.SizesAdd` | db/version_set.cc:357-363 | The size of some files is the sum over any two parts of them. |
| `Selection.PickLevelForMemTableOutput` | db/version_set.cc:365-387 | Level 0 when it overlaps the table; otherwise as deep as the table may sink, at most level 2: each level passed has no overlap below and a grandparent overlap within the limit, and the one below the chosen level fails one of the two. |
| `Selection.BaseLevelCursors.IsBaseLevelForKey` | db/version_set.cc:1082-1098 | Over any ascending series of queries the moving cursors answer what a full scan of the deeper levels answers. |
| `Versions.SeekGetCorrect` | db/memtable.cc:92-114 | Seeking the lookup key in a sorted source finds the newest version at most the sequence number, or shows there is none. |
| `Versions.SortNewestFirst` | db/version_set.cc:143-158 | A permutation of the files, by descending number. |
| `Versions.ProbeOrder` | db/version_set.cc:148-165 | Exactly the level-0 files whose range holds the key, newest first. |
| `Versions.ProbeInOrder` | db/version_set.cc:148-165 | The probe stops at the first file that knows the key; no file before it does. |
| `Versions.Level0Get` | db/version_set.cc:148-165 | The first hit in file-number order is the newest version in the level. |
| `Versions.SortedLevelGet` | db/version_set.cc:167-181 | One probed file decides for the whole sorted level. |
| `Versions.VersionGet` | db/version_set.cc:183-251 | The first level to answer holds the newest version in all levels; no answer means no version. |
| `Versions.Get` | db/db_impl.cc:340-381 | Memtable, immutable memtable, then tables, stopping at the first hit, equals reading the union of all sources. |
| `CompactionPass.DoCompactionWork` | db/db_impl.cc:527-566 | The loop with one remembered sequence number writes exactly the survivors among the entries it reached; what these are is CollectionExact. |
| `CompactionPass.SurvivorsAre` | db/db_impl.cc:535-565 | The survivors are exactly the entries not dropped, in order. |
| `CompactionPass.SurvivorsAreNeeded` | db/db_impl.cc:535-565 | Nothing is kept without need: each survivor is what some reader at or above the oldest snapshot would find among the inputs, and a deletion they all see is kept only where a deeper file reaches over its user key. |
| `CompactionPass.CollectionExact` | db/db_impl.cc:535-565 | An entry of the input survives if and only if some reader at or above the oldest snapshot would find it among the inputs and it is no deletion that hides nothing below. |
| `CompactionPass.PassPreservesReads` | db/db_impl.cc:495-586 | A pass that exhausts its input leaves every read at or above the oldest snapshot unchanged over the whole store. |
| `CompactionPass.EarlyStopExact` | db/db_impl.cc:532-583 | A pass that stops after n entries, whose inputs are removed all the same, leaves every read at or above the oldest snapshot alone if and only if each entry it did not reach is asked for by no such reader, or says what the versions below it that stay say. |
| `CompactionPass.EarlyStopAt` | db/db_impl.cc:532-583 | The same at one sequence number: every read at it survives if and only if each entry not reached that answers there says what the versions below it that stay say. |
| `CompactionFailures.ReachesCompaction` | db/db_impl.cc:407-473 | Every batch can be the whole input of a compaction: a run of the store leads from creation to a compaction of the table that holds it. |
| `CompactionFailures.StoppedCompactionExact` | db/db_impl.cc:461-583 | In every state of the invariant, installing the edit of a stopped compaction keeps the reads of the version, at every sequence number a reader may hold, if and only if that condition on the entries not reached holds. Whether the store can then be opened is StoppedStoreExact. |
| `CompactionFailures.EarlyStopLosesReads` | db/db_impl.cc:461-583 | A run of the store that ends in a compaction of two committed keys; stopped after the first entry, the version its edit makes no longer has the second key. |
| `CompactionPass.NothingSurvives` | db/db_impl.cc:549-564 | The output is empty if and only if the newest input version of every user key is a dead tombstone. |
| `CompactionPass.PrefixSurvives` | db/db_impl.cc:549-564 | A pass that reads n entries writes something if and only if it reached the newest version of some user key that is not a dead tombstone. |
| `Manifest.Builder.Apply` | db/version_set.cc:635-655 | For any edit: each level holds the deletions of all edits so far, an addition cancelling a deletion of its number, and the additions as an ordered set, in which an equivalent file keeps a later one out. |
| `Manifest.Builder.SaveLevel` | db/version_set.cc:657-692 | For any edits: the stable merge of base and additions without the deleted numbers, in order; with fresh numbers, strictly ordered and exactly the base and added files that are not deleted. |
| `Manifest.InsertOrderedIs` | db/version_set.cc:603-612 | Insertion keeps the listing ordered and adds the file unless an equivalent one is there. |
| `Manifest.GatheredListIs` | db/version_set.cc:646-654 | The gathered additions are ordered; with fresh numbers none is kept out. |
| `Manifest.SavedIs` | db/version_set.cc:657-692 | What is saved is in order; with fresh numbers it is exactly the files not deleted. |
| `Manifest.MarkDeleted` | db/version_set.cc:642-644 | Each level gains exactly the numbers deleted at it. |
| `Manifest.NextVersion` | db/version_set.cc:733-738 | For any edit, every level becomes what the builder saves; at a level where the added numbers are fresh, exactly the old files without deletions and with additions, in order. |
| `Manifest.ReplayStepExact` | db/version_set.cc:635-692 | Gathering one more edit equals installing it if and only if the edit resurrects no file number deleted earlier in the gathering. |
| `Manifest.ReplayIsFold` | db/version_set.cc:635-692 | With fresh numbers, replaying edits through one builder equals installing them one at a time. |
| `Manifest.ReusedNumberBreaksReplay` | db/version_set.cc:635-692 | A concrete reuse of a file number after which replay and the running store differ. |
| `Manifest.FoldFromSnapshot` | db/version_set.cc:896-919 | Starting from the snapshot record is the same as starting from the version it describes. |
| `Manifest.ReplayGivesCurrentVersion` | db/version_set.cc:788-894 | Snapshot record plus edits, replayed through one builder, give the very file listing per level that the running store had, if numbers are fresh, as RunIsTraced shows of every run. |
| `Manifest.Recover` | db/version_set.cc:788-894 | For any decoded records: succeeds exactly when no record names another comparator and log number, next file and last sequence were recorded; then the latest counters (a missing previous log number is 0) and the saved listing of every level. |
| `Manifest.LatestIs` | db/version_set.cc:837-854 | The counter in force is one that some record sets and no later record sets; none exactly when no record does. |
| `ManifestTrace.JoinTracks` | db/version_set.cc:635-655 | Installing an edit whose files have new numbers or come from the level above, as a trivial move does, keeps every number added at a level fresh there, and what bears it at that level or deeper. |
| `ManifestTrace.JoinIsBuilt` | db/version_set.cc:657-692 | An edit whose files have new numbers or come from the level above is fresh for the version, so each level of the next version is the very list the builder saves. |
| `ManifestTrace.LoggedOk` | db/version_set.cc:718-786 | Logging an edit, in the open manifest or in a new one begun with a snapshot of the version, keeps manifest and running store in agreement. |
| `ManifestTrace.RunIsTraced` | db/version_set.cc:718-786 | Along every run, moves and restarts included, the edits since the snapshot record install one after the other up to the running version, each version being level by level the list the builder saves from the one before, the last record holds the counters, and no number is ever added twice at a level. |
| `ManifestTrace.ManifestIsExact` | db/version_set.cc:788-894 | In every state of every run the records of the manifest can be recovered, and only to the version, log number, file counter and sequence number of that state. |
| `ManifestTrace.Reopen` | db/version_set.cc:788-894 | Recovery on the records of the manifest at any moment of any run returns exactly these. |
| `ManifestRecords.RecordReadable` | db/version_edit.cc:95-220 | The record of an installed edit reads back as that edit if and only if every table it adds has entries; otherwise the reader refuses it. |
| `ManifestRecords.ManifestOpens` | db/version_set.cc:821-826 | Every record of a manifest can be read if and only if every table in it has entries. |
| `StoppedRestart.RunManifestOpens` | db/version_set.cc:821-826 | At every moment of every run the manifest can be opened, under any encoding of keys. |
| `VersionSteps.AddToLevel0` | db/db_impl.cc:147-186 | Adding newer tables to level 0 keeps the recency order and adds exactly their entries. |
| `VersionSteps.AddBelow` | db/db_impl.cc:418-424 | A flushed table that sinks past levels without its keys keeps the recency order. |
| `VersionSteps.ReplacedContents` | db/db_impl.cc:453-473 | Installing a compaction or a move changes the contents to exactly the untouched entries and the output. |
| `VersionSteps.RestIsSafe` | db/version_set.cc:1082-1098 | Whatever stays while base-level tombstones are dropped is newer than they are, so dropping them is safe. |
| `VersionSteps.ReplaceKeepsOrder` | db/db_impl.cc:453-473 | Moving closed inputs one level down keeps the recency order and the sortedness of every level. |
| `VersionSteps.AddEditShape` | db/version_set.cc:733-738 | An edit that adds files changes one level, to the old files and the new ones. |
| `VersionSteps.ReplaceEditShape` | db/version_set.cc:1074-1080 | An edit that deletes the inputs and adds the output changes exactly two levels, also when a file is moved under its own number. |
| `History.MemtableIs` | db/memtable.cc:72-90 | Inserting a stretch of operations in order gives a sorted table of exactly those entries. |
| `History.InsertNext` | db/memtable.cc:72-90 | Inserting the next operation extends the stretch the memtable holds by one. |
| `History.ReadAbove` | db/db_impl.cc:340-381 | Replacing an older part of the store by one that reads the same from a sequence number on does not change reads above it. |
| `StoreInvariant.AppendKeeps` | db/db_impl.cc:224-238 | Logging a group keeps the invariant. |
| `StoreInvariant.InsertKeeps` | db/db_impl.cc:244-245 | Each single insertion into the memtable keeps the invariant, with readers in between. |
| `StoreInvariant.PublishKeeps` | db/db_impl.cc:248-267 | Publishing the sequence number and acknowledging the writers keeps the invariant. |
| `StoreInvariant.SwitchKeeps` | db/db_impl.cc:274-307 | Switching to a new log and memtable keeps the invariant. |
| `StoreInvariant.FlushStartKeeps` | db/db_impl.cc:407-416 | Reserving the number of a flush keeps the invariant. |
| `StoreInvariant.FlushInstallKeeps` | db/db_impl.cc:418-431 | Installing a flushed table at the picked level and moving the log number keeps the invariant. |
| `StoreInvariant.FlushEmptyKeeps` | db/db_impl.cc:418-431 | A flush of an empty memtable, which records nothing, keeps the invariant. |
| `StoreInvariant.MoveKeeps` | db/db_impl.cc:453-460 | A trivial move keeps the invariant. |
| `StoreInvariant.CompactStartKeeps` | db/db_impl.cc:495-513 | Fixing the inputs and the oldest snapshot keeps the invariant and only raises the horizon of reads. |
| `StoreInvariant.CompactInstallKeeps` | db/db_impl.cc:462-473 | Installing the output of a complete pass keeps the invariant, while writers, flush requests and snapshots went on. |
| `StoreInvariant.CompactedReads` | db/db_impl.cc:462-473 | From the horizon on every key reads the same before and after the compaction is installed. |
| `StoreInvariant.CompactionNeedsASurvivor` | db/db_impl.cc:568-583 | Installing a pass that read any number of its entries leaves a well-formed version if and only if it reached the newest version of some user key that is not a dead tombstone; otherwise the output has no entries. |
| `CompactionFailures.CompactionRecordReadable` | db/db_impl.cc:461-583 | In every state of the invariant, the manifest record of a pass that read any number of its entries can be read again if and only if it reached the newest version of some user key that is not a dead tombstone. |
| `CompactionFailures.DeadInputBreaksStore` | db/db_impl.cc:461-583 | A run in which one deletion is logged, flushed and compacted to the end: nothing survives, the installed version is ill formed, and the record of its edit, compaction pointer included, is refused under any encoding of keys, so the store cannot be opened again. |
| `CompactionFailures.StopAtOnceBreaksStore` | db/db_impl.cc:532-583 | The same for any batch at all, however healthy, when its compaction sees the shutdown flag before the first entry. |
| `StoppedRestart.RestartReads` | db/db_impl.cc:93-186 | Whatever the tables hold, a restart answers from the operations in the logs that are not flushed and the entries of the tables, and its counter is the last logged number. |
| `StoppedRestart.RestartedReadsExact` | db/db_impl.cc:59-186 | After a compaction stopped at any entry, the restarted store answers every key like the full history if and only if each entry not reached that is the newest of its user key says what the tables that stay say. |
| `StoppedRestart.StoppedStoreExact` | db/db_impl.cc:59-186 | A stopped compaction leaves a store that opens with every read intact if and only if the pass reached the newest version of a key that is not a dead tombstone, and lost no entry that answers; what the records hold is then exactly the installed version and its counters. |
| `StoreInvariant.TakeSnapshotKeeps` | db/db_impl.cc:622-628 | Taking a snapshot keeps the invariant; what it then shows is Clients.GetAtSnapshot. |
| `StoreInvariant.ReleaseSnapshotKeeps` | db/snapshot.h:61-65 | Releasing any snapshot keeps the invariant. |
| `StoreInvariant.RecoveredTables` | db/db_impl.cc:147-186 | The tables rebuilt from the logs hold exactly the operations of those logs, newer logs under higher numbers, past every number in use. |
| `StoreInvariant.RecoveredSequenceIs` | db/db_impl.cc:124-135 | The recovered sequence counter is the number of the last logged operation. |
| `StoreInvariant.CrashKeeps` | db/db_impl.cc:93-145 | A crash in any state followed by recovery reaches a state of the invariant. |
| `StoreInvariant.InitOk` | db/db_impl.cc:70-91 | A new store satisfies the invariant. |
| `StoreInvariant.NextKeeps` | db/db_impl.cc:201-586 | Every action, in any interleaving, keeps the invariant. |
| `StoreInvariant.RunKeepsInv` | db/db_impl.cc:93-586 | The invariant (recency order, sorted disjoint levels, logs cover what tables lack, counters, snapshots) holds in every reachable state of every run, crashes included. |
| `StoreTheorems.SourcesAreOrdered` | db/db_impl.cc:340-381 | In every reachable state versions of a key strictly age from memtable to immutable memtable to level 0 to level 6, and every stored entry was logged. |
| `StoreTheorems.SourcesReadLikeHistory` | db/db_impl.cc:340-381 | At any readable sequence number the union of the sources reads like the full history of logged operations. |
| `StoreTheorems.GetFromStore` | db/db_impl.cc:340-381 | Get with or without a snapshot returns what the newest logged operation at or below its sequence number says. |
| `StoreTheorems.ViewSurvives` | db/db_impl.cc:340-381 | One step of any other thread does not change what a captured view reads. |
| `StoreTheorems.CapturedViewIsStable` | db/db_impl.cc:340-381 | A view captured at one step of a run reads, at any later step before a crash, every key as the history stood when it was captured. |
| `StoreTheorems.GetFromView` | db/db_impl.cc:340-381 | Get on a captured view, however much later, equals reading the union of the sources it holds. |
| `StoreTheorems.RecoveryIsComplete` | db/db_impl.cc:93-186 | After a crash at any step: the manifest can be recovered, restarting from whatever its records and the logs say leads to the recovered state, every acknowledged operation is in the recovered history, reads are answered from it, and no surviving entry is numbered above the recovered counter. |
| `StoreTheorems.HistoryOnlyGrows` | db/db_impl.cc:201-272 | Along any run, crashes included, logged and acknowledged operations are never lost. |
| `StoreTheorems.LatestReadSeesAcknowledged` | db/db_impl.cc:340-381 | In every reachable state the latest read of a key includes every acknowledged operation. |
| `Clients.HistoryIsWritten` | db/db_impl.cc:228-252 | At every step of every run the history is the operations of the groups logged so far, each once, in order, numbered by its place. |
| `Clients.AcknowledgedStays` | db/db_impl.cc:254-272 | What was logged when a group returned is acknowledged and visible at every later step, crashes included. |
| `Clients.ReadYourWrites` | db/db_impl.cc:201-272 | An operation whose group has returned is in what every later read of its key goes by, under a number the read covers. |
| `Clients.SnapshotsAreHeld` | db/db_impl.cc:622-629 | At every step the list of snapshots is the sequence numbers published when the snapshots still held were taken: none missing, none left over. |
| `Clients.GetAtSnapshot` | db/db_impl.cc:340-381 | Get through a held snapshot answers as the store stood when the snapshot was taken, whatever was written, flushed or compacted since. |
| `Clients.CompactionGoesByOldest` | db/db_impl.cc:501-506 | A compaction goes by the oldest snapshot held when it starts, or by the last published sequence number when none is. |
| `Clients.SwitchMoves` | db/db_impl.cc:292-304 | The full memtable becomes the immutable one, entry for entry, and an empty one takes its place. |
| `Clients.FlushMoves` | db/db_impl.cc:418-431 | A flush adds exactly the entries of the immutable memtable to the tables, clears it, and leaves recovery with the log of the current memtable only. |
| `PlainMap.ReadIsLookUp` | db/db_impl.cc:340-381 | A read at a sequence number answers what a plain map holds after that many operations, applied one by one. |
| `PlainMap.LastSequenceCountsShown` | db/db_impl.cc:228-272 | At every step of every run the published sequence number counts the operations of the groups logged when one was last published or the store last recovered. |
| `PlainMap.ShownGrows` | db/db_impl.cc:254-272 | What is shown was written, stays shown, and includes everything logged when any group was published. |
| `PlainMap.GetLatest` | db/db_impl.cc:340-381 | Get at any step of any run looks its key up in the plain map of the operations shown. |
| `PlainMap.GetHeld` | db/db_impl.cc:340-381 | Get through a held snapshot looks its key up in the plain map of the operations shown when the snapshot was taken. |
| `PlainMap.IteratorShowsMap` | db/db_impl.cc:588-620 | An iterator made for the latest state or through a held snapshot, used any number of steps later, stops at exactly the keys and values of that plain map, in the order of the keys. |
| `Recovery.ReplayLog` | db/db_impl.cc:157-173 | Replaying the operations of one log gives its memtable and the largest sequence number so far. |
| `LogReplay.RecoverLogFile` | db/db_impl.cc:147-173 | On any bytes: the memtable of what the readable part of every record holds, numbered from the record, the operations counted in sound records only, and the largest last number of those. |
| `LogReplay.ReplayRecord` | db/db_impl.cc:158-172 | One record: skipped if too short for a header, otherwise inserted as far as it can be read, and counted only if it is sound. |
| `LogReplay.InsertInto` | db/write_batch.cc:102-126 | The operations of a batch go into the memtable under consecutive numbers. |
| `LogReplay.BatchReadsBack` | db/write_batch.cc:26-90 | The bytes of a batch are a sound record that holds its operations, its first number and its count. |
| `LogReplay.CutLogReplays` | db/db_impl.cc:147-173 | The log of any chain of numbered batches, cut at any byte, replays to exactly the operations of the batches that lie wholly before the cut, each under its own number. |
| `LogReplay.RecoverCutLog` | db/db_impl.cc:147-173 | Recovery of such a cut log makes the memtable of the whole batches, their number of operations and their last sequence number. |
| `LogReplay.UnsoundBatch` | db/db_impl.cc:158-172 | A batch with a wrong count, or followed by something unreadable, has its operations inserted but neither counted nor its last number taken. |
| `LogReplay.ShortRecord` | db/db_impl.cc:158-162 | A record too short for a header is passed over. |
| `Recovery.RecoverLogFiles` | db/db_impl.cc:122-131 | The loop over the logs yields the tables, file counter and largest sequence number that the crash step of the store uses. |
| `Recovery.RecoveredIsMax` | db/db_impl.cc:133-135 | Taking the larger of the manifest sequence and the largest replayed one gives the recovered counter. |
| `IteratorChildren.ConcatenatesLevel` | db/version_set.cc:409-422 | The index of a sorted level by largest keys is one a two-level iterator needs, and what it walks over is the entries of the level in order. |
| `IteratorChildren.ChildrenMerge` | db/db_impl.cc:588-610 | A list is the merge of the memtables, the level-0 tables and one list for each deeper level if and only if it is the sorted union of the sources. |
| `IteratorChildren.InputsMerge` | db/version_set.cc:537-567 | A list is the merged input of a compaction, level-0 files singly and other levels as one list each, if and only if it is the sorted contents of the input files. |
| `Iteration.ViewMerges` | db/db_impl.cc:588-620 | At every step the children of a captured view have a merge: they are sorted and no two hold one internal key. |
| `Iteration.IteratorSeesSnapshot` | db/db_impl.cc:588-620 | An iterator made at one step and used at any later one, over the merge of its children, walks exactly the live keys of the history at its sequence number, in order. |
| `Iteration.SourcesAfterStep` | db/memtable.cc:72-90 | One step of any other thread leaves the sources of a captured view alone or adds one entry, newer than the view, under a new internal key. |
| `Iteration.AfterStep` | db/db_impl.cc:588-620 | Over the merge of its children an iterator stays, through any step of any other thread, an iterator over the merge of the children as they then are, with the same live keys and the same place among them. |
| `GroupCommit.WriteQueue.Join` | db/db_impl.cc:201-212 | A writer joins at the back, also while a group is in flight. |
| `GroupCommit.GatherGroup` | db/db_impl.cc:309-338 | The group is the longest allowed run of writers from the front; its record is their operations in order, in the scratch batch only if a second batch joined. |
| `GroupCommit.WriteQueue.BuildBatchGroup` | db/db_impl.cc:309-338 | The front writer keeps the record of its group, the longest allowed run from the front; nothing else changes. |
| `GroupCommit.WriteQueue.FinishGroup` | db/db_impl.cc:228-272 | The record that was built is what is logged, and it is exactly the operations of the writers that leave, in order; the scratch batch is empty again. |
| `GroupCommit.WriteQueue.FinishNull` | db/db_impl.cc:224-272 | A writer without a batch at the front commits nothing and leaves alone. |
| `GroupCommit.WriterOwnsInterval` | db/db_impl.cc:201-272 | Every released writer owns the contiguous sequence interval right after its predecessor, holding its own operations. |
| `GroupCommit.NoTornBatch` | db/db_impl.cc:228-252 | Every value the sequence counter takes is a batch boundary. |
| `GroupCommit.GroupIsFair` | db/db_impl.cc:309-338 | Nobody in a group asked for a sync its leader does not do, and a group of several batches holds at most a megabyte, or 128 KB more than a small leader. |
| `DbIter.LiveIsTheMap` | db/db_iter.cc:114-265 | The list the iterator walks is sorted by user key and holds exactly the keys that read as present. |
| `DbIter.LiveUnchanged` | db/db_iter.cc:114-265 | An entry newer than the iterator, put in anywhere, leaves the list of live keys as it is. |
| `DbIter.DBIter.Current` | db/db_iter.cc:34-42 | Key and value are those of the live list at the position. |
| `DbIter.DBIter.Seek` | db/db_iter.cc:235-247 | Lands on the first live key at or after the target. |
| `DbIter.DBIter.SeekToFirst` | db/db_iter.cc:249-258 | Lands on the first live key. |
| `DbIter.DBIter.SeekToLast` | db/db_iter.cc:260-265 | Lands on the last live key. |
| `DbIter.DBIter.Next` | db/db_iter.cc:114-140 | Moves one live key forward, from either direction. |
| `DbIter.DBIter.Prev` | db/db_iter.cc:171-193 | Moves one live key back, from either direction, or becomes invalid at the first. |
| `DbIter.DBIter.MemtableGrows` | db/db_iter.cc:114-265 | When the memtable takes a newer entry between two calls, in either direction, the iterator keeps its place in the same list of live keys. |
| `DbIter.DBIter.FindNextUserEntry` | db/db_iter.cc:142-169 | From a clean start reaches the next live entry and no later one. |
| `DbIter.DBIter.FindPrevUserEntry` | db/db_iter.cc:195-233 | Scanning back over all versions stops just before the nearest live key. |
| `Merger.MergingIterator.SeekToFirst` | table/merger.cc:29-35 | Position 0 of the sorted union. |
| `Merger.MergingIterator.SeekToLast` | table/merger.cc:37-43 | The last position of the sorted union. |
| `Merger.MergingIterator.Seek` | table/merger.cc:45-51 | The first entry of the union at or after the target. |
| `Merger.MergingIterator.Next` | table/merger.cc:53-71 | One position forward in the union, also after moving backward, when the other children are repositioned. |
| `Merger.MergingIterator.Prev` | table/merger.cc:73-92 | One position back in the union, also after moving forward. |
| `Merger.MergingIterator.FindSmallest` | table/merger.cc:118-131 | The child with the smallest key holds the next entry of the union; none exactly at the end. |
| `Merger.MergingIterator.FindLargest` | table/merger.cc:133-147 | The child with the largest key holds the entry before the cut; none exactly at the start. |
| `Merger.MergingIterator.Current` | table/merger.cc:94-102 | Key and value are the entry of the union at the position. |
| `TwoLevel.TwoLevelIterator.Seek` | table/two_level_iterator.cc:71-76 | The first entry at or after the target in the concatenation of all blocks, although one block is searched. |
| `TwoLevel.TwoLevelIterator.SeekToFirst` | table/two_level_iterator.cc:78-83 | The first entry of the concatenation, past empty blocks. |
| `TwoLevel.TwoLevelIterator.SeekToLast` | table/two_level_iterator.cc:85-90 | The last entry of the concatenation, before empty blocks. |
| `TwoLevel.TwoLevelIterator.Next` | table/two_level_iterator.cc:92-96 | One position forward in the concatenation. |
| `TwoLevel.TwoLevelIterator.Prev` | table/two_level_iterator.cc:98-102 | One position back in the concatenation. |
| `TwoLevel.TwoLevelIterator.Current` | table/two_level_iterator.cc:30-37 | Key and value are the entry of the concatenation at the position. |
| `TwoLevel.TwoLevelIterator.InitDataBlock` | table/two_level_iterator.cc:135-149 | The loaded block is the one the index names, whether reread or reused. |
| `TwoLevel.TwoLevelIterator.SkipEmptyDataBlocksForward` | table/two_level_iterator.cc:104-115 | Stepping over exhausted blocks does not change the position in the concatenation. |
| `TwoLevel.TwoLevelIterator.SkipEmptyDataBlocksBackward` | table/two_level_iterator.cc:117-128 | Stepping back over empty blocks reaches the position before. |
| `TwoLevel.JoinedSorted` | table/table.cc:196-204 | The concatenation is sorted, so the iterator is itself a cursor over a sorted list. |
| `Coding.EncodeVarint32` | util/coding.cc:25-51 | The unrolled encoder writes what the seven-bits-a-byte definition says, in at most five bytes. |
| `Coding.EncodeVarint64` | util/coding.cc:59-68 | The loop writes what the definition says. |
| `Coding.VarintShortest` | util/coding.cc:25-68 | A varint has exactly as many bytes as its value has digits in base 128. |
| `Coding.DecodeVarint` | util/coding.cc:91-128 | Both decoding loops return the definition's value cut to the word, or nothing when no varint ends within the limit. |
| `Coding.ReadVarintExact` | util/coding.cc:91-128 | On any bytes a varint is read if and only if one ends within the limit; it is all bytes up to the first without the top bit, read as digits in base 128. |
| `Coding.Varint32RoundTrip` | util/coding.cc:132-142 | A 32-bit varint followed by anything reads back as itself. |
| `Coding.Varint64RoundTrip` | util/coding.cc:144-154 | A 64-bit varint followed by anything reads back as itself. |
| `Coding.Fixed32RoundTrip` | util/coding.h:41-82 | Four little-endian bytes read back. |
| `Coding.Fixed64RoundTrip` | util/coding.h:53-98 | Eight little-endian bytes read back. |
| `Coding.FixedDigits` | util/coding.h:41-65 | Byte i of a fixed-length integer is its digit i in base 256. |
| `Coding.PrefixedRoundTrip` | util/coding.cc:156-168 | A length-prefixed string followed by anything reads back. |
| `Coding.ReadPrefixedExact` | util/coding.cc:156-168 | On any bytes a string is read if and only if its length can be read and so many bytes follow; it is those bytes. |
| `Crc32c.ExtendSplits` | util/crc32c.h:20-30 | Extending the checksum of one string by another is the checksum of both, from any start. |
| `Crc32c.ByteIsNoticed` | util/crc32c.h:20-30 | Strings that differ in one byte, wherever it is, have different checksums. |
| `Crc32c.CheckValue` | util/crc32c.h:20-48 | The checksum of the digits 1 to 9 is the check value of the Castagnoli polynomial, and its mask is the rotated and shifted one. |
| `Crc32c.UnmaskMask` | util/crc32c.h:39-48 | Unmask undoes Mask. |
| `Crc32c.MaskUnmask` | util/crc32c.h:39-48 | Mask undoes Unmask. |
| `LogFormat.Writer.AddRecord` | db/log_writer.h:49-99 | Terminates even when a block has room for a header only, and appends exactly the fragment encoding of the record. |
| `LogFormat.Writer.SwitchBlock` | db/log_writer.h:60-72 | A trailer too short for a header is filled with zeroes and the block offset starts over. |
| `LogFormat.Writer.EmitPhysicalRecord` | db/log_writer.h:102-127 | One header with the masked checksum of type and payload, then the payload; the block offset advances by both. |
| `LogFormat.OffsetWraps` | db/log_writer.h:41-42 | Reopening a log at a block boundary writes the same bytes as going on after a full block. |
| `LogReader.Reader.ReadRecord` | db/log_reader.h:59-154 | On any bytes the loop returns the record, next position and reported drops that the reading function defines. |
| `LogReader.Reader.ReadPhysicalRecord` | db/log_reader.h:185-257 | On any bytes: the end, a damaged stretch with what is reported, or a fragment, and where reading goes on; which of these is ParseExact. |
| `LogReader.Reader.FillBuffer` | db/log_reader.h:186-211 | Blocks are read and trailers skipped until a header is at hand or the file is short. |
| `LogTheorems.ParseFragment` | db/log_reader.h:213-256 | A written fragment parses back to its type and payload, checksum included. |
| `LogTheorems.ReadEncoded` | db/log_reader.h:59-154 | An encoded record reads back whole when it fits the file, and as the end of input without a report when it is cut anywhere. |
| `LogTheorems.PrefixReadsWholeRecords` | db/log_reader.h:59-257 | On every byte prefix of a log the reader returns exactly the records that fit in it completely and reports nothing. |
| `LogTheorems.LogReadsBack` | db/log_reader.h:59-257 | For every list of records the reader returns exactly those records and reports nothing. |
| `LogTheorems.UnknownTypeExact` | db/log_reader.h:59-154 | A sound fragment of an unknown type, at any position and with any record under assembly, is reported with what it interrupts and reading goes on behind it, if and only if its type is not 5, and is 6 only where that changes nothing. |
| `LogTheorems.CodeHidesRecords` | db/log_reader.h:59-154 | Such a fragment before a sound record, anywhere in a file: type 6 leaves the record and drops the report, type 5 ends reading without a report and the record is lost, every other type reports and reads on. |
| `LogDamage.ParseExact` | db/log_reader.h:213-256 | What a checking reader makes of any buffer: a fragment if and only if one stands there intact that is not blank (its checksum, length and type); otherwise the end of a file cut short, or the rest of the block, reported unless blank. |
| `LogDamage.ChangedByteIsRefused` | db/log_reader.h:213-256 | A fragment with one byte changed in its checksum, type or payload is never taken for a fragment: the rest of the block is given up, and reported unless the change makes it blank. |
| `LogDamage.RecordStands` | db/log_reader.h:59-154 | On any bytes, a record that is returned stands in the file as intact fragments, a first, middles and a last, or a full one, and reading goes on right behind it. |
| `LogDamage.ReadingStands` | db/log_reader.h:59-257 | On any bytes all records returned stand intact in the file, one behind the other: damage never makes a record up. |
| `LogDamage.DamageSkipsBlock` | db/log_reader.h:213-256 | Where no whole and sound fragment stands, the rest of the block is given up and reported with the record under assembly, and reading goes on with the next block. |
| `LogDamage.Accounts` | db/log_reader.h:59-154 | Conservation: every payload byte gone through is returned, reported, or in one of the stretches that the reader passes over in silence. |
| `BlockFormat.FastPathAgrees` | table/block.cc:36-55 | The three-byte short cut decodes what the general varint path decodes. |
| `BlockFormat.EntryRoundTrip` | table/block.cc:36-55 | An encoded entry anywhere in a block decodes to its sizes, key suffix and value. |
| `BlockFormat.AcceptedFitsExact` | table/block.cc:36-55 | On any bytes, an entry that is accepted lies before the limit if and only if the sum of its two sizes does not wrap in 32 bits. |
| `BlockFormat.WrapIsAccepted` | table/block.cc:51-53 | Seven bytes that claim a key of the greatest length and a value of one byte are accepted with nothing left of the block. |
| `BlockFormat.SharedLength` | table/block_builder.cc:52-58 | The longest common prefix. |
| `BlockFormat.BlockBuilder.Reset` | table/block_builder.cc:21-28 | An empty builder again. |
| `BlockFormat.BlockBuilder.Add` | table/block_builder.cc:46-80 | The buffer then encodes the old list and the new pair, with every prefix shared but at the restart points, which come every interval entries; it grows by at most 15 bytes more than key and value. |
| `BlockFormat.BlockBuilder.Finish` | table/block_builder.cc:36-44 | Entries, restart offsets and their number: a block of exactly the pairs added. |
| `BlockIter.OpenFinds` | table/block.cc:15-34 | Opening a finished block finds where its entries end and how many restart points follow. |
| `BlockIter.Iter.ParseNextKey` | table/block.cc:208-233 | Decodes the next entry, rebuilding its key from the previous one, and keeps a restart index from which the entry is reachable; on other bytes in which no sum of sizes wraps, stays within the entries or stops with an error. |
| `BlockIter.Iter.SeekToRestartPoint` | table/block.cc:86-91 | The next parse is of the entry at that restart point. |
| `BlockIter.Iter.Current` | table/block.cc:107-114 | Key and value are the pair at the position. |
| `BlockIter.Iter.Next` | table/block.cc:116-119 | One pair forward. |
| `BlockIter.Iter.Prev` | table/block.cc:121-136 | One pair back, so it undoes Next; invalid before the first. |
| `BlockIter.Iter.Seek` | table/block.cc:138-186 | From any position, with the current entry narrowing the search or being reused, lands on the first key not before the target. |
| `BlockIter.Iter.SeekToFirst` | table/block.cc:188-191 | The first pair. |
| `BlockIter.Iter.SeekToLast` | table/block.cc:193-197 | The last pair. |
| `BlockIter.Iter.FindRestart` | table/block.cc:154-171 | The binary search over restart points keeps the target bracketed. |
| `BlockIter.BuildAndRead` | table/block.cc:116-233 | Any ascending list with any restart interval of at least one reads back as itself forward and in reverse backward, when it fits 32-bit offsets, which it does if keys and values and 19 bytes for each do. |
| `Comparators.FindShortestSeparator` | util/comparator.cc:32-53 | The start cut behind the first byte that differs and raised there, exactly when that stays below the limit; otherwise the start itself. |
| `Comparators.FindShortSuccessor` | util/comparator.cc:55-67 | The key cut behind its first byte that can be raised, and raised there; the key itself exactly when all its bytes are 255. |
| `Comparators.SeparatorIsShortest` | util/comparator.cc:32-53 | Where there is room, no string from the start up to the limit is shorter than the separator. |
| `Comparators.SuccessorIsShortest` | util/comparator.cc:55-67 | No greater string is shorter than the successor. |
| `Comparators.KeyLessOrders` | db/dbformat.cc:43-55 | The internal key comparison is a strict total order. |
| `Comparators.KeyRoundTrip` | db/dbformat.cc:19-22 | User key and trailer are recovered from the encoded key. |
| `Comparators.SeparateKeys` | db/dbformat.cc:57-72 | The user separator with the greatest trailer exactly when that is shorter than the user key and greater; otherwise the start. Start at most separator, separator before limit. |
| `Comparators.SucceedKey` | db/dbformat.cc:74-86 | The user successor with the greatest trailer exactly when that is shorter and greater; otherwise the key. Not before the key. |
| `Bloom.CreateFilter` | util/bloom.cc:30-57 | For any keys, bits per key and number of probes: the exact length, the probe count in the last byte, and a bit is set if and only if some key probes it. |
| `Bloom.FilterExact` | util/bloom.cc:30-84 | The filter of some keys lets a key through if and only if each of its probes is a probe of one of them. |
| `Bloom.NoFalseNegatives` | util/bloom.cc:30-84 | The filter of some keys lets each of them through. |
| `Bloom.HashValues` | util/hash.cc:7-42 | The hash of no bytes, one, three and four bytes with the seed of the filter. |
| `Bloom.ProbesAre` | util/bloom.cc:45-55 | Probe j is the hash and j times its rotation by 17 bits, in 32 bits. |
| `Bloom.RotatedIs` | util/bloom.cc:50-50 | The rotation puts the high 15 bits of the hash below its low 17. |
| `Bloom.KeyMayMatch` | util/bloom.cc:59-84 | Matches exactly when every probe of the key is set, or the probe count is reserved; never for a filter too short. |
| `FilterBlock.FilterBlockBuilder.StartBlock` | table/filter_block.cc:21-27 | Filters are made up to the group of the block, the waiting keys going to the group they waited for. |
| `FilterBlock.FilterBlockBuilder.AddKey` | table/filter_block.cc:29-33 | The key waits for the next filter. |
| `FilterBlock.FilterBlockBuilder.GenerateFilter` | table/filter_block.cc:51-75 | A new filter that is the filter of exactly the waiting user keys, or empty without any; the waiting list is empty again. |
| `FilterBlock.FilterBlockBuilder.UserKeys` | table/filter_block.cc:59-67 | The keys are cut back out of the flattened buffer, without trailers. |
| `FilterBlock.FilterBlockBuilder.Finish` | table/filter_block.cc:35-49 | The filter block of all groups: the filter of each, their offsets, and the base. |
| `FilterBlock.ReadFilter` | table/filter_block.cc:77-104 | On any bytes the lookup answers by the filter of the block's group; anything out of range may match. |
| `FilterBlock.FilterHasItsKeys` | table/filter_block.cc:90-104 | A key of a group is never turned away at any block offset of that group. |
| `FilterBlock.FilterBlockExact` | table/filter_block.cc:77-104 | A key is let through at a block offset if and only if the offset lies behind all groups, or each probe of the user key is one of some key in the group of that offset. |
| `FilterBlock.OnlyFiltersTurnAway` | table/filter_block.cc:77-104 | On any bytes, what turns a key away is a stored filter for its block that is empty or does not match; anything out of range lets it through. |
| `TableBuilder.TableBuilder.Add` | table/table_builder.cc:79-108 | The entry is added at the end of the open block, which is written if and only if it then reaches the block size; blocks, separators and filter groups stay consistent. |
| `TableBuilder.TableBuilder.Flush` | table/table_builder.cc:111-125 | The open block, if it holds anything, is written and found at its offset; the entries do not change. |
| `TableBuilder.TableBuilder.Finish` | table/table_builder.cc:169-220 | A table of exactly the entries added, whose index separates its blocks; its filter block is the one of the user keys of the blocks, grouped by offset, and never turns a key of the table away. |
| `TableBuilder.FinishAndGet` | table/table.cc:206-232 | Finishing a builder and looking up any key: a version of the user key is delivered exactly when one it may see was added, and then the newest, with the filter (within 32-bit offsets) or without. |
| `TableBuilder.BuildAndGet` | table/table_builder.cc:79-220 | The same for any ascending list of entries made into a table with any block size. |
| `TableBuilder.LookupPasses` | table/table.cc:213-219 | The filter of a built table lets a lookup through if and only if each probe of its user key is one of some key in the group of the block the index names. |
| `Table.DeliveredIsNewest` | table/table.cc:206-232 | Searching the one block the index names delivers an entry of the sought user key exactly when the table holds one not newer than the lookup, and then the newest. |
| `Table.InternalGet` | table/table.cc:206-232 | The same with the filter, which never changes the answer; a block is read if and only if the index names it for the key and the filter lets the key through, and then it is that one. |
| `Table.SkippedHasNone` | table/table.cc:213-219 | A block the filter skips holds no version of the sought user key. |
| `Table.SplitVersionsLoseReads` | table/table.cc:206-232 | Keys merely lying between blocks are not enough: with a separator between two versions of one user key the search misses the older. |
| `SkipList.SkipList.FindGreaterOrEqual` | db/skiplist.h:180-198 | Returns the node a linear scan of level 0 would, and on every level the last node before it. |
| `SkipList.SkipList.FindLessThan` | db/skiplist.h:201-217 | Returns the last node with a smaller key, or the head. |
| `SkipList.SkipList.FindLast` | db/skiplist.h:220-236 | Returns the last node, or the head. |
| `SkipList.SkipList.Insert` | db/skiplist.h:251-270 | For any height the key appears once at its place with just that many levels, the rest keep their order and heights, every link of every level leads to the next node on it, and the list grows to the height if that is greater. |
| `SkipList.SkipList.Contains` | db/skiplist.h:273-280 | True if and only if the key is in the list. |
| `SkipList.SkipList.LinkNext` | db/skiplist.h:266-269 | After each turn of the loop the list is a valid one: on the bottom level the key joins, on each level above the keys stay and one more level has its links right, so a search that starts then finds what it should. |
| `SkipList.Spliced` | db/skiplist.h:266-269 | After the splice every link at every level leads to the next node that is tall enough. |
| `SkipList.LevelsNest` | db/skiplist.h:251-270 | Each level is a strictly sorted part of the level below it. |
| `SkipList.Iterator.Seek` | db/skiplist.h:144-146 | The first key at or after the target: every key of the list is before the target or not before the node. |
| `SkipList.Iterator.SeekToFirst` | db/skiplist.h:149-151 | The first key. |
| `SkipList.Iterator.SeekToLast` | db/skiplist.h:154-159 | The last key. |
| `SkipList.Iterator.Next` | db/skiplist.h:129-132 | One key forward. |
| `SkipList.Iterator.Prev` | db/skiplist.h:135-141 | One key back by searching again, invalid before the first. |
| `HandleTable.HandleTable.FindPointer` | util/cache.cc:81-87 | The place of a key and hash in its chain, or its end exactly when the map does not have them. |
| `HandleTable.HandleTable.Lookup` | util/cache.cc:46-48 | What the plain map holds. |
| `HandleTable.HandleTable.Insert` | util/cache.cc:50-64 | The plain map with the handle put in, returning what it replaced, across resizes. |
| `HandleTable.HandleTable.Remove` | util/cache.cc:66-74 | The plain map without the key, returning what was there. |
| `HandleTable.HandleTable.Resize` | util/cache.cc:89-113 | The same map in the shortest doubling of four that is at least as long as its number of elements. |
| `HandleTable.BucketIs` | util/cache.cc:81-113 | The bucket of a hash is what is left of it after any multiple of the length. |
| `CacheLinks.ChainTable.FindPointer` | util/cache.cc:81-87 | Following the links stops at the entry with the key and hash, or at the end of the chain, and knows the link that leads there. |
| `CacheLinks.ChainTable.Insert` | util/cache.cc:50-64 | The links then spell the old chains with the entry in the place of the one with its key and hash, or at the end of its chain; every other chain is as before. |
| `CacheLinks.ChainTable.Remove` | util/cache.cc:66-74 | The links then spell the old chains without the entry of that key and hash; every other chain is as before. |
| `CacheLinks.MoveChain` | util/cache.cc:98-107 | Moving a chain entry by entry, each link read before it is overwritten, puts every entry at the front of its new bucket and loses none. |
| `CacheLinks.MoveAll` | util/cache.cc:89-113 | After the loop over all buckets the new chains hold exactly the old entries, each in one place. |
| `CacheLinks.PutRepresents` | util/cache.cc:50-64 | Chains changed as Insert changes them stand for the map with the handle put in. |
| `CacheLinks.TakeRepresents` | util/cache.cc:66-74 | Chains changed as Remove changes them stand for the map without that key. |
| `CacheLinks.MoveRepresents` | util/cache.cc:89-113 | Chains changed as MoveAll changes them stand for the same map. |
| `LruCache.LRUCache.Ref` | util/cache.cc:179-185 | One more reference; an entry out of use moves to the in-use list, usage unchanged. |
| `LruCache.LRUCache.Unref` | util/cache.cc:187-201 | One reference less; the last one deletes the entry, once; a cached entry nobody uses becomes the newest evictable one. |
| `LruCache.LRUCache.FinishErase` | util/cache.cc:266-275 | The entry leaves its list and the usage, and lives on only while clients hold it. |
| `LruCache.LRUCache.Lookup` | util/cache.cc:216-223 | A hit is the mapped entry with one more reference; a miss changes nothing. |
| `LruCache.LRUCache.Release` | util/cache.cc:225-228 | A client reference is given up; the deleter is called exactly when it was the last; an entry nobody uses any more becomes the last to be evicted. |
| `LruCache.ReleaseUndoesLookup` | util/cache.cc:216-228 | A reference taken and given up again changes nothing but that an entry nobody else uses is then the newest evictable one. |
| `LruCache.LRUCache.Insert` | util/cache.cc:230-264 | The new entry is mapped and held; a replaced entry leaves; then the oldest evictable entries go, no more than needed, until usage fits or none is left. |
| `LruCache.LRUCache.MakeRoom` | util/cache.cc:254-261 | Evicts a prefix of the evictable list, oldest first, the last of them while usage was still too high; exactly these leave handles and table. |
| `LruCache.LRUCache.EvictOldest` | util/cache.cc:254-261 | The entry that was out of use longest leaves table, list and usage and is deleted, and no other. |
| `LruCache.LRUCache.Erase` | util/cache.cc:277-280 | The mapping goes; the entry is deleted at once only if nobody holds it. |
| `LruCache.LRUCache.Prune` | util/cache.cc:282-292 | Every evictable entry is deleted, oldest first; handles and table keep exactly the rest. |
| `CacheLinks.LruList.Append` | util/cache.cc:208-214 | The ring of links, read forward or backward from the dummy, is the old one with the entry as its newest. |
| `CacheLinks.LruList.Remove` | util/cache.cc:203-206 | The ring is the old one without the entry, the others in order. |
| `CacheLinks.LruList.Oldest` | util/cache.cc:254-255 | The entry after the dummy is the oldest of the list; the dummy itself exactly when the list is empty. |
| `CacheLinks.MoveTo` | util/cache.cc:179-201 | Moving an entry between the two rings changes the two lists as Ref and Unref do, and no entry is on both. |
| `WriteBatch.OpsRoundTrip` | db/write_batch.cc:23-68 | Encoded operations read back as themselves. |
| `WriteBatch.JunkAfterOps` | db/write_batch.cc:23-68 | Operations followed by something that is none are delivered, and the batch is refused. |
| `WriteBatch.UnknownKindIsJunk` | db/write_batch.cc:34-60 | Nothing but puts and deletions is read as an operation. |
| `WriteBatch.OpsReadFit` | db/write_batch.cc:23-68 | Whatever bytes are read, the operations delivered are ones a batch can hold, and a batch of them reads the same. |
| `WriteBatch.KnownOps` | db/write_batch.cc:86-97 | A put and a deletion, byte for byte. |
| `WriteBatch.WriteBatch.Count` | db/write_batch.cc:70-72 | The count in the header is the number of operations. |
| `WriteBatch.WriteBatch.SetSequence` | db/write_batch.cc:82-84 | The sequence number in the header reads back; the operations stay. |
| `WriteBatch.WriteBatch.Add` | db/write_batch.cc:86-97 | One operation more at the end and in the count. |
| `WriteBatch.WriteBatch.Append` | db/write_batch.cc:132-136 | The operations of both batches in order, counted together, also when a batch is appended to itself. |
| `WriteBatch.WriteBatch.Iterate` | db/write_batch.cc:23-68 | On any bytes the operations before the first malformed one, accepted exactly when all are well formed and the count agrees; on a built batch, its operations. |
| `VersionEdit.EncodeTo` | db/version_edit.cc:32-74 | The fields of the edit, encoded in the fixed order. |
| `VersionEdit.DecodeFrom` | db/version_edit.cc:95-220 | On any bytes: refused when a field is malformed, unknown or something is left over, else the edit filled by its fields. |
| `VersionEdit.FieldBack` | db/version_edit.cc:76-93 | A field reads back if and only if its level is below seven and its keys are not empty; otherwise the record is refused. |
| `VersionEdit.EditBack` | db/version_edit.cc:95-220 | An edit reads back as itself if and only if every field of it is accepted; otherwise its record is refused. |
| `VersionEdit.FieldsReadAreAccepted` | db/version_edit.cc:95-220 | Whatever bytes are accepted, the fields read are ones a reader accepts, and a record of them reads the same. |
| `VersionEdit.UnknownTagIsRefused` | db/version_edit.cc:112-205 | Tag 8, tag 0 and every tag above 9 are refused. |
| `VersionEdit.KnownRecord` | db/version_edit.cc:32-74 | A record with every kind of field, byte for byte. |
| `VersionEdit.EmptyKeyIsRefused` | db/version_edit.cc:76-85 | The record of a file without keys is written but not readable. |

## Left out

- Failures of the operating system and the error states they lead to: appends, reads and file creation succeed.
- Loss of data that was written but not synced: what reached a log file stays there. A record cut off in the middle counts as
  not written, which is how the log reader treats it.
- Compactions stopped by shutdown and compactions whose whole input dies are not steps of the protocol; the exact conditions
  under which they do harm, and what a restart then finds, are proved instead.
- Recovery.ReplayLog: in the protocol a log is the operations of its sound batches; `LogReplay.dfy` goes from bytes to these,
  also for malformed batches, whose numbers are not wrapped at 64 bits there.
- Removal of obsolete files, the table cache, and `CURRENT`: files are never deleted in the model.
- Sequence numbers stay below 2 to the power 56; the code does not guard against reaching it.
- Condition variables, wake-ups, memory orders and back-pressure sleeps: only safety is claimed, of atomic regions.
- Scores, seek statistics, read sampling and the manual compaction handshake: which level, range or sought file is compacted is a
  free choice.
- Iteration.IteratorSeesSnapshot: the lists are those of one step. `AfterStep` carries an iterator over a sorted list from step
  to step between its calls; an insertion in the middle of a call, and how the cursors below it find a new entry, are not
  followed.
- MergingIterator.Next: the children share no internal key, as internal keys of one store never repeat.
- Corrupted internal keys met by the user-level iterator, and error status of iterators.
- Log reading from an offset other than the start, and the offset of the last record: every caller starts at the beginning.
- Block handles, footer, metaindex and compression: a table maps offsets to decoded blocks.
- LogDamage.ChangedByteIsRefused: not for the two length bytes, which the checksum does not cover; `ParseExact` says what is
  accepted with those changed.
- BlockIter.Iter.ParseNextKey: nothing is claimed of bytes that are no block and in which a sum of sizes wraps.
- ManifestTrace.RunIsTraced: an edit is logged and installed in one step; a crash between writing a new manifest and naming it
  in `CURRENT` is not a step.
- Manifest.Recover: compaction pointers, which only choose the next compaction, are not kept.
- FilterBlock.ReadFilter: divides by a power of two where the code shifts, which is undefined for a stored base of 64 or more.
- TableBuilder.TableBuilder.Add: the size of a block is a function of its entries, and no bytes are written.
- TableBuilder.TableBuilder.Flush: a block is found by its offset, without a handle, a trailer or compression.
- BlockIter.BuildAndRead: stated for blocks that stay within 32-bit offsets; the builder does not check this.
- TableBuilder.TableBuilder.Finish: no footer, metaindex or index block is written; a builder without a filter policy is covered
  as a table read without its filter; the filter guarantee needs a filter block within 32-bit offsets.
- Bloom.CreateFilter: the number of probes is a parameter between 1 and 30 instead of a rounded product.
- HandleTable.HandleTable.Insert: chains are sequences here; that the links spell them is `CacheLinks.ChainTable.Insert`.
- HandleTable.HandleTable.Remove: the same, with `CacheLinks.ChainTable.Remove`.
- HandleTable.HandleTable.Resize: the same, with `CacheLinks.MoveAll`.
- LruCache.LRUCache.Unref: the two lists are sequences here; that the rings of links spell them is `CacheLinks.LruList`. The
  shard as a whole is not proved over links.
- The shards of the cache, its destructor and values: one shard is modelled.
- SkipList.SkipList.Insert: the list is valid after each level is linked, but a search that is under way while links change, and
  memory orders, are not modelled.
- Repair, filename parsing, properties, options and the C interface.
