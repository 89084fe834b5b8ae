# LevelDB storage engine and nanopb codec

A model of two libraries the app carries as pods: LevelDB, which keeps its data on the device, and
nanopb, which encodes the messages it sends. Paths below are relative to the repository.

## What is modelled

**The log-structured store.** A state is a memtable, an immutable memtable, seven levels of files, the
last sequence number, the live snapshots and the next file number (`States`). `Steps` gives the steps
of the store as relations between states; `Store` has the object whose methods carry them out by the
searches, merges and version edits of the other modules; `Inputs`, `Boundary`, `Gaps` and `Versions`
choose what a compaction reads, `Compactions` is the drop loop and the cut of its outputs, `VersionBuilder`
installs the result.
`StepInvariant`, `Safety`, `Runs` and `ClosedBelow` prove what every step and every run keeps, and
`Interleaved` takes a compaction apart into its beginning and its end, with other steps in between.
`FlushedAcross` says for which of these ends every search is still right, and `GuardedRuns` checks
compactions when they begin. `Resurfacing` and `LostKey` are runs in which a promise of the store fails.

**Iterators.** `Merger`, `TwoLevel` and `DbIter` are the iterator classes with their changes of
direction, each proved to be an index into one sorted sequence; `CursorRuns` plays whole runs of
operations and `NewIterators` joins them into the database iterator of a state.

**The memtable.** `SkipLists` is the skip list with its pointers, `ConcurrentReads` the lock-free
reader beside one writer, `Snapshots` the snapshot ring.

**Bytes.** `Coding`, `InternalKeys`, `Log`, `Batches`, `Blocks`, `Bloom`, `Filters`, `TableBuilders`,
`Tables` and `Manifest` model the formats, writer and reader; `GroupCommit` is the queue of writers.
`ByteKeys` maps byte strings to the keys of the store modules, and `TableReads` is the read of the store
over table files that were built and opened byte by byte. `Formats` says what the stored bytes are.

**Crashes.** `Recovery` replays a log that was cut short. `Durability` says when manifest and logs stand
for a state, and that every step keeps them so; `Reopening` and `Crashes` are what a crash leaves and
what the store makes of it, `CrashRuns` whole runs of steps and crashes, and `Restart` the recovery
itself, from the bytes of the files to a state. `ReplayedWrites` says what a logged operation is then.

**The cache.** `HandleTables`, `Rings` and `LruCaches` are one shard with its chains and intrusive
lists; `Cache` and `CacheRuns` give what it stands for and prove what holds over all runs, and `LruOrder`
in what order entries go.

**nanopb.** `PbMessages` describes messages, `PbEncode` and `PbDecoder` are the encoder and decoder
over streams, `PbDecode` says what decoding means, `PbFieldIter` is the field iterator and the bit set
of required fields, `PbRoundTrip` and `PbRequired` prove what the two directions do together; `PbBounds`,
`PbUnknown`, `PbOccurrences` and `PbVarint32` are about the decoder on inputs that no encoder need have written.

Code that updates state is a class or a method with loops, proved against functions; what the code
promises is then proved about those functions. Verify with `dafny verify dfyconfig.toml`.

## Model

| member | source | states |
|---|---|---|
| `DbFormat.CompareMeaning` | iOS App/Pods/leveldb-library/db/dbformat.cc:51-67 | two internal keys compare equal only if they are the same key, the order is antisymmetric, and within one user key the newer sequence number comes first |
| `Lookup.GetFromLevel` | iOS App/Pods/leveldb-library/db/version_set.cc:364-421 | the one file the binary search over the largest keys stops at answers for a whole disjoint level: the newest entry of the user key at or below the sequence number, or none |
| `Lookup.GetFromLevel0` | iOS App/Pods/leveldb-library/db/version_set.cc:346-421 | asking every level-0 file whose range holds the key, youngest first, finds the newest visible entry of the level |
| `Lookup.Get` | iOS App/Pods/leveldb-library/db/db_impl.cc:1100-1145 | memtable, immutable memtable and then the levels are asked in order, in whatever state; under the invariant that returns the newest entry at or below the sequence number over everything stored; a deletion marker and an unknown key both read as not found |
| `TableReads.GetFromTable` | iOS App/Pods/leveldb-library/db/table_cache.cc:100-114 | one lookup in an opened table that stands for a file, through index, filter and block, ends where the search of the file's entries ends |
| `TableReads.Get` | iOS App/Pods/leveldb-library/db/db_impl.cc:1100-1145 | over memtables and opened table files the read ends where the search of the state ends, and under the invariant it returns the newest entry at or below the sequence number over everything stored |
| `TableReads.BuildAndOpen` | iOS App/Pods/leveldb-library/db/builder.cc:17-77 | a table built of sorted pairs and opened again, under the same or another filter policy, stands for the file with these entries |
| `ByteKeys.RankEmbeds` | iOS App/Pods/leveldb-library/util/comparator.cc:26-28 | bytewise comparison of two strings is comparison of their ranks, and a rank names one string |
| `ByteKeys.KeyOrder` | iOS App/Pods/leveldb-library/db/dbformat.cc:51-67 | the order of encoded internal keys is the order of the keys in the store modules |
| `Versions.FindFile` | iOS App/Pods/leveldb-library/db/version_set.cc:88-106 | the loop computes the binary search, and in a disjoint level that is the first file whose largest key is at or after the target |
| `Versions.SomeFileOverlapsRange` | iOS App/Pods/leveldb-library/db/version_set.cc:122-157 | true exactly if some file of the level has user keys in the range, open ends included, whether the files are disjoint or not |
| `Versions.GetOverlappingInputs` | iOS App/Pods/leveldb-library/db/version_set.cc:519-559 | the files that meet the range; at level 0 the range is first widened to the least range that no file sticks out of, whatever order the restarts take |
| `Versions.LeastClosedUnique` | iOS App/Pods/leveldb-library/db/version_set.cc:540-556 | that widened range is unique, so the restarting loop has one possible outcome |
| `Versions.PickLevelForMemTableOutput` | iOS App/Pods/leveldb-library/db/version_set.cc:491-516 | the deepest level up to 2 that is reached without overlap with any level passed and without too many bytes two levels down; it stops earlier only for one of these two reasons |
| `Boundary.FindSmallestBoundaryFile` | iOS App/Pods/leveldb-library/db/version_set.cc:1344-1362 | the file with the least smallest key among those that start after the key with the same user key, or none if there is no such file |
| `Boundary.AddBoundaryInputs` | iOS App/Pods/leveldb-library/db/version_set.cc:1378-1401 | afterwards no file of the level goes on with the last user key of the choice; only boundary files were added, each the smallest for the choice so far, without duplicates or gaps, and a choice closed under user keys stays as it is |
| `Inputs.SetupOtherInputs` | iOS App/Pods/leveldb-library/db/version_set.cc:1403-1462 | the inputs are legal: a choice at the level that nothing outside lies between or goes on with, and exactly the files one level down that meet its user keys; the choice is the files picked with their boundary files, and it is widened to the files within the range of all inputs exactly if that takes in more files, needs no further lower file and stays below 25 times the file size; no gap appears in a choice that had none |
| `Inputs.PickCompaction` | iOS App/Pods/leveldb-library/db/version_set.cc:1270-1322 | the inputs of an automatic compaction grow, in that way and no further, from the file that is next in turn after the compact pointer or that used up its seeks, with the files of its least closed range at level 0; they are legal and leave no gap between their user keys |
| `Inputs.CompactRange` | iOS App/Pods/leveldb-library/db/version_set.cc:1464-1495 | a manual compaction finds nothing exactly if no file of the level meets the range; otherwise its inputs grow from the files that meet it, at level 0 all of them with those of the least closed range, deeper those up to the one with which they reach the file size; a file that meets the range is left out only deeper than level 0 and behind others that meet it and reach that size together |
| `Store.IsTrivialMove` | iOS App/Pods/leveldb-library/db/version_set.cc:1515-1523 | true exactly if there is one input file, none below, and at most ten times the file size two levels down within its user keys |
| `Compactions.Compaction.IsBaseLevelForKey` | iOS App/Pods/leveldb-library/db/version_set.cc:1533-1552 | asked in ascending key order, the moving level pointers answer exactly whether no deeper file covers the user key |
| `Compactions.DoCompactionWork` | iOS App/Pods/leveldb-library/db/db_impl.cc:890-999 | the output files hold exactly the entries the drop rules keep, in order, each file with its own first and last key; a file ends where the cut policy wants an entry to begin another or when it is large enough, and nowhere else, whatever the policy |
| `Safety.SurvivorsDropTo` | iOS App/Pods/leveldb-library/db/db_impl.cc:930-963 | the loop drops exactly the entries hidden by a newer one at or below the smallest snapshot and the deletion markers at or below it that no deeper file lies under |
| `Safety.CompactionReads` | iOS App/Pods/leveldb-library/db/db_impl.cc:890-963 | for every user key and every sequence number at or above the smallest snapshot, the read is unchanged by the compaction if and only if no dropped marker uncovers an older value outside the inputs |
| `ClosedBelow.CompleteBelowIsSafe` | iOS App/Pods/leveldb-library/db/version_set.cc:1403-1462 | nothing is uncovered if no file of the lower level goes on with the last user key of the lower inputs, that is, if AddBoundaryInputs had nothing to add to them |
| `ClosedBelow.ClosedBelowIsSafe` | iOS App/Pods/leveldb-library/db/version_set.cc:1403-1462 | nor if the lower inputs share no user key with the files beside them |
| `Structure.InputsRemainder` | iOS App/Pods/leveldb-library/db/version_set.cc:1378-1401 | what stays at the level of a compaction holds only newer entries of the user keys that move down |
| `Structure.OutputsApart` | iOS App/Pods/leveldb-library/db/version_set.cc:1407-1411 | a lower file that is no input lies wholly on one side of every output |
| `StepInvariant.FlushInv` | iOS App/Pods/leveldb-library/db/db_impl.cc:535-566 | flushing the immutable memtable to any level it shares no user key with, nor with a level above, keeps levels disjoint and shallower data newer |
| `StepInvariant.StepKeepsInv` | iOS App/Pods/leveldb-library/db/db_impl.cc:491-1048 | every step (write, memtable switch, flush of a full or an empty table, trivial move, compaction, taking and releasing a snapshot) keeps the invariant: ordered and disjoint levels, shallower sources newer for every user key, younger level-0 files newer, one file per number, sequence numbers bounded |
| `Runs.RunKeepsInv` | iOS App/Pods/leveldb-library/db/db_impl.cc:491-1256 | every state of every run of these steps, in any order, satisfies the invariant |
| `Runs.SnapshotReadsNeverChange` | iOS App/Pods/leveldb-library/db/db_impl.cc:491-1256 | between any two states of a run through which a snapshot is live, every read at it gives the same result, provided no compaction of the run uncovers a deleted value (the condition of Safety.CompactionReads) |
| `Interleaved.FinishKeeps` | iOS App/Pods/leveldb-library/db/db_impl.cc:860-876 | a compaction that began in one state and installs its outputs in a later one, with writes, switches, flushes and snapshots in between, keeps the invariant if and only if no file flushed meanwhile to the output level lies across an output |
| `FlushedAcross.FinishAnswers` | iOS App/Pods/leveldb-library/db/db_impl.cc:860-876 | after a compaction has finished, the search of every level below level 0 finds, for every key and sequence number, the newest visible entry of that level if and only if no file flushed meanwhile to the output level lies across an output |
| `FlushedAcross.FinishFinds` | iOS App/Pods/leveldb-library/db/version_set.cc:326-421 | and the search through the whole store ends at the newest entry stored, for every key and sequence number, if and only if that is so |
| `Interleaved.OutOfReachFinishes` | iOS App/Pods/leveldb-library/db/db_impl.cc:907-918 | that never happens to inputs without a gap between their user keys, hence to no automatic compaction, nor to any compaction into a level below the deepest a flush goes to |
| `Interleaved.FinishReads` | iOS App/Pods/leveldb-library/db/db_impl.cc:882-963 | installing changes no read at or above the snapshot the compaction began with if and only if nothing was uncovered in the state it began in, whatever was written or flushed meanwhile |
| `Interleaved.BusyRunKeepsInv` | iOS App/Pods/leveldb-library/db/db_impl.cc:491-1256 | every state of every run in which compactions overlap with the other steps satisfies the invariant, if each output installed is clear of the files beside it and uncovers nothing |
| `Interleaved.BusySnapshotReads` | iOS App/Pods/leveldb-library/db/db_impl.cc:491-1256 | in such runs a live snapshot reads the same at every moment, also while a compaction is under way |
| `GuardedRuns.GuardedRunAnswers` | iOS App/Pods/leveldb-library/db/db_impl.cc:491-1256 | if every compaction is checked when it begins (no gap between its inputs or an output level out of reach, and no boundary file of the lower inputs), the invariant holds at every moment of every interleaved run and every search finds the newest entry stored |
| `GuardedRuns.GuardedSnapshotReads` | iOS App/Pods/leveldb-library/db/db_impl.cc:491-1256 | and a live snapshot reads the same at every moment |
| `Store.DB.Get` | iOS App/Pods/leveldb-library/db/db_impl.cc:1100-1145 | returns the read of everything stored at the given snapshot, or at the last sequence number |
| `Store.DB.Write` | iOS App/Pods/leveldb-library/db/db_impl.cc:1185-1256 | one batch becomes entries under consecutive sequence numbers in the memtable, which stays sorted, and the last sequence number moves past them |
| `Store.DB.CompactMemTable` | iOS App/Pods/leveldb-library/db/db_impl.cc:491-566 | an empty immutable table is dropped, any other becomes one file at the level PickLevelForMemTableOutput gives for its keys; the invariant is kept |
| `Store.DB.BackgroundCompaction` | iOS App/Pods/leveldb-library/db/db_impl.cc:688-767 | reads the inputs PickCompaction gives and does a trivial move of the one file exactly if IsTrivialMove says so, else a merging compaction of them; the invariant is kept |
| `Store.DB.ManualCompaction` | iOS App/Pods/leveldb-library/db/db_impl.cc:688-767 | a merging compaction of the inputs CompactRange gives for the range, or nothing if no file meets it; the invariant is kept |
| `Store.ReadInputs` | iOS App/Pods/leveldb-library/db/version_set.cc:1237-1268 | the merging iterator over the level-0 files or the two levels yields the entries of all inputs once, in key order |
| `Store.LogAndApply` | iOS App/Pods/leveldb-library/db/version_set.cc:801-884 | the new version is the old one without the inputs and with the outputs at the target level |
| `VersionBuilder.Builder.Apply` | iOS App/Pods/leveldb-library/db/version_set.cc:650-692 | the builder stands for the sequence of edits applied so far |
| `VersionBuilder.Builder.SaveTo` | iOS App/Pods/leveldb-library/db/version_set.cc:695-754 | one merging pass gives, at every level, the files that replaying all edits one by one would leave, in order |
| `NewIterators.NewInternalIterator` | iOS App/Pods/leveldb-library/db/db_impl.cc:1062-1087 | the merge of memtables, level-0 files and concatenated levels is sorted and holds exactly everything stored |
| `NewIterators.NewIterator` | iOS App/Pods/leveldb-library/db/db_impl.cc:1147-1157 | a database iterator over that merge, at the given snapshot or at the last sequence number |
| `NewIterators.ScanIsReads` | iOS App/Pods/leveldb-library/db/db_impl.cc:1062-1157 | such an iterator shows each user key exactly once, in key order, exactly if a read at its sequence number finds it, and with the value the read returns |
| `NewIterators.ConcatenatedIs` | iOS App/Pods/leveldb-library/db/version_set.cc:223-248 | reading a level through its index of files gives its entries file after file |
| `Merger.MergingIterator.SeekTarget` | iOS App/Pods/leveldb-library/table/merger.cc:47-53 | stands at the first entry of the sorted merge at or after the target |
| `Merger.MergingIterator.MoveNext` | iOS App/Pods/leveldb-library/table/merger.cc:55-79 | stands one entry further in the merge, also after moving backwards, where every other child is repositioned |
| `Merger.MergingIterator.MovePrev` | iOS App/Pods/leveldb-library/table/merger.cc:81-109 | stands one entry back in the merge, also after moving forwards |
| `DbIter.DBIter.MoveNext` | iOS App/Pods/leveldb-library/db/db_iter.cc:141-198 | moves an index into the list of live keys one on, in either direction of the internal iterator, passing entries too new, shadowed or deleted |
| `DbIter.DBIter.MovePrev` | iOS App/Pods/leveldb-library/db/db_iter.cc:200-267 | moves that index one back |
| `DbIter.DBIter.SeekUser` | iOS App/Pods/leveldb-library/db/db_iter.cc:269-281 | puts the index at the first live key at or after the target |
| `DbIter.DBIter.SeekToLast` | iOS App/Pods/leveldb-library/db/db_iter.cc:294-299 | puts the index at the last live key |
| `DbIter.DBIter.Current` | iOS App/Pods/leveldb-library/db/db_iter.cc:63-71 | key and value shown, from the entry or from the saved copy, are those of the live entry the index stands for |
| `DbIter.LiveIsRead` | iOS App/Pods/leveldb-library/db/db_iter.cc:168-198 | a key with a value is in the list of live entries exactly if a point read at the same sequence number returns that value |
| `TwoLevel.TwoLevelIterator.SeekTarget` | iOS App/Pods/leveldb-library/table/two_level_iterator.cc:82-87 | over an index and its blocks, stands at the first entry at or after the target of all blocks joined, skipping empty blocks |
| `TwoLevel.TwoLevelIterator.MoveNext` | iOS App/Pods/leveldb-library/table/two_level_iterator.cc:103-126 | stands one entry further in all blocks joined |
| `TwoLevel.TwoLevelIterator.MovePrev` | iOS App/Pods/leveldb-library/table/two_level_iterator.cc:109-139 | stands one entry back in all blocks joined |
| `TwoLevel.LevelIsIndexed` | iOS App/Pods/leveldb-library/db/version_set.cc:164-228 | a disjoint level with the largest keys of its files as index satisfies what the two-level iterator asks of an index, and holds the entries of the level |
| `CursorRuns.PlayMerging` | iOS App/Pods/leveldb-library/table/merger.cc:31-109 | after any allowed sequence of operations, turns included, the merging iterator stands where an index into the sorted merge would |
| `CursorRuns.PlayTwoLevel` | iOS App/Pods/leveldb-library/table/two_level_iterator.cc:82-139 | the same for the two-level iterator |
| `CursorRuns.PlayLive` | iOS App/Pods/leveldb-library/db/db_iter.cc:141-299 | after any allowed sequence of operations the database iterator stands where an index into the list of live keys would |
| `SkipLists.SkipList.FindGreaterOrEqual` | iOS App/Pods/leveldb-library/db/skiplist.h:261-281 | the first node at or after the key, and at every level the last node before it |
| `SkipLists.SkipList.FindLessThan` | iOS App/Pods/leveldb-library/db/skiplist.h:284-302 | the last node before the key |
| `SkipLists.SkipList.Insert` | iOS App/Pods/leveldb-library/db/skiplist.h:337-368 | for any height drawn, the list then holds the old entries with the new one in its place; the new node is in just the levels below its height, the other nodes stay, and every level is a sublist of the one below |
| `SkipLists.ListIterator.MovePrev` | iOS App/Pods/leveldb-library/db/skiplist.h:212-221 | moves one entry back by searching, like an index into the sorted contents |
| `SkipLists.Get` | iOS App/Pods/leveldb-library/db/memtable.cc:100-134 | the memtable lookup through the skip list is a seek in its sorted contents followed by a check of the user key |
| `ConcurrentReads.InsertStoresGrow` | iOS App/Pods/leveldb-library/db/skiplist.h:352-367 | each of the two pointer stores per level of an insertion only grows the list, in an order that keeps it traversable between them |
| `ConcurrentReads.ReadsAreAtomic` | iOS App/Pods/leveldb-library/db/skiplist.h:261-281 | a reader without a lock, taking one pointer per step while such stores go on, returns what a search of the whole list at some one moment of its run returns |
| `ConcurrentReads.NothingMissed` | iOS App/Pods/leveldb-library/db/skiplist.h:261-281 | an entry that was there when the read began is found, or one before it that is also at or after the key |
| `Snapshots.SnapshotList.New` | iOS App/Pods/leveldb-library/db/snapshot.h:56-70 | a new snapshot goes to the newest end of the ring |
| `Snapshots.SnapshotList.Delete` | iOS App/Pods/leveldb-library/db/snapshot.h:72-86 | removes that snapshot and keeps the order of the others |
| `Snapshots.SnapshotList.Oldest` | iOS App/Pods/leveldb-library/db/snapshot.h:46-50 | the oldest snapshot has the smallest sequence number of all |
| `InternalKeys.EncodedOrder` | iOS App/Pods/leveldb-library/db/dbformat.cc:51-67 | comparing encoded internal keys orders them by user key bytes ascending, then sequence number and type descending |
| `InternalKeys.FindShortestSeparator` | iOS App/Pods/leveldb-library/util/comparator.cc:29-50 | the result is the start itself or a key strictly between the two and no longer; it is cut right after the first differing byte exactly when that byte leaves room |
| `InternalKeys.FindShortSuccessor` | iOS App/Pods/leveldb-library/util/comparator.cc:52-64 | the result is the key itself or a key after it and no longer, cut at the first byte that can be raised |
| `InternalKeys.FindInternalSeparator` | iOS App/Pods/leveldb-library/db/dbformat.cc:69-86 | the index key separates the last key of a block from the first of the next by user key; it is shortened exactly if the first differing byte leaves room and a shorter user key results, and else is the last key itself |
| `InternalKeys.GapHasNoUser` | iOS App/Pods/leveldb-library/db/dbformat.cc:69-86 | a lookup that falls between a last key and its separator is for a user key no later entry has |
| `Blocks.BlockBuilder.Add` | iOS App/Pods/leveldb-library/table/block_builder.cc:72-106 | appends one entry to the block, prefix-compressed against the last key or restarted |
| `Blocks.BlockBuilder.Finish` | iOS App/Pods/leveldb-library/table/block_builder.cc:62-70 | the bytes form a block of the entries added, whose restart points are just the entries with a multiple of the interval as number |
| `Blocks.Iter.Seek` | iOS App/Pods/leveldb-library/table/block.cc:163-201 | over a block of sorted keys, binary search over restarts and a linear scan stop at the first entry at or after the target |
| `Blocks.Iter.Next` | iOS App/Pods/leveldb-library/table/block.cc:137-140 | stands at the next entry, with its whole key restored |
| `Blocks.Iter.Prev` | iOS App/Pods/leveldb-library/table/block.cc:142-161 | stands at the previous entry, found from an earlier restart |
| `Blocks.Iter.SeekToLast` | iOS App/Pods/leveldb-library/table/block.cc:208-213 | stands at the last entry |
| `Bloom.NoFalseNegatives` | iOS App/Pods/leveldb-library/util/bloom.cc:28-80 | a key the filter was made from always passes |
| `Bloom.CreateFilter` | iOS App/Pods/leveldb-library/util/bloom.cc:28-54 | appends a filter with bits enough for all keys, at least 64, of which just those are set that one of the first k values hash + j * delta, wrapped at 32 bits, of some key takes modulo their number, delta being the hash rotated by 17 bits; the last byte is k |
| `Bloom.KeyMayMatch` | iOS App/Pods/leveldb-library/util/bloom.cc:56-80 | answers exactly whether each probe of the key goes to a set bit, and lets everything through a filter with more than 30 probes |
| `Bloom.FilterBits` | iOS App/Pods/leveldb-library/util/bloom.cc:28-54 | a bit of the filter is set if and only if a probe of some added key goes to it |
| `Bloom.PassesMeans` | iOS App/Pods/leveldb-library/util/bloom.cc:56-80 | a key passes the filter of some keys if and only if each of its probes is a probe of one of them |
| `Filters.FilterBlockBuilder.Finish` | iOS App/Pods/leveldb-library/table/filter_block.cc:35-49 | the bytes are the filter block of the groups, and the i-th group holds just the keys added for blocks that begin in the i-th 2 KB of the file |
| `Filters.FilterBlockReader.KeyMayMatch` | iOS App/Pods/leveldb-library/table/filter_block.cc:90-104 | on such a block the answer is that of the filter for the offset |
| `Filters.NeverDenied` | iOS App/Pods/leveldb-library/table/filter_block.cc:90-104 | a key added for a block is never denied at the offset of that block, for every policy without false negatives |
| `Tables.FooterRoundTrip` | iOS App/Pods/leveldb-library/table/format.cc:31-62 | reading a footer gives the two handles back |
| `Tables.IndexAnswers` | iOS App/Pods/leveldb-library/table/table.cc:216-244 | seeking the index and then the one block it names gives the first entry of the whole table at or after the key, or nothing, and then no entry there has its user key |
| `Tables.DeniedMeansAbsent` | iOS App/Pods/leveldb-library/table/table.cc:222-227 | if the filter denies a key, no entry of the block has its user key |
| `Tables.Table.InternalGet` | iOS App/Pods/leveldb-library/table/table.cc:216-244 | with or without a filter, and across block boundaries, an entry handed over is the first of the table at or after the key; when none is, the table has no entry of that user key there; it comes from the one block that the index names, which is not looked into if the filter denies the key |
| `Tables.Open` | iOS App/Pods/leveldb-library/table/table.cc:38-134 | opening a finished table recovers its index, and a filter exactly if a policy is given and the table was written under its name; else the table is read without |
| `TableBuilders.TableBuilder.Add` | iOS App/Pods/leveldb-library/table/table_builder.cc:94-123 | appends one entry to the table, settling the index key of the block before it |
| `TableBuilders.TableBuilder.Finish` | iOS App/Pods/leveldb-library/table/table_builder.cc:198-253 | the file is a good table of exactly the entries added: blocks, filter, metaindex, index and footer in place; the i-th filter is made of just the keys of the blocks that begin in the i-th 2 KB; every block but the last has reached the block size, and exceeds it by little more than its last entry |
| `Coding.Varint64RoundTrip` | iOS App/Pods/leveldb-library/util/coding.cc:81-96 | decoding what was encoded, followed by anything, gives the value and the rest |
| `Coding.DecodeVarint32` | iOS App/Pods/leveldb-library/util/coding.cc:112-140 | the fast path and the loop together read a value of up to five groups modulo 2^32, or fail without an end in reach |
| `Coding.MaskRoundTrip` | iOS App/Pods/leveldb-library/util/crc32c.h:22-38 | unmasking undoes masking, both ways, for all 32-bit values |
| `Formats.Fixed32Format` | iOS App/Pods/leveldb-library/util/coding.cc:9-18 | four bytes, the base-256 digits of the number, least significant first |
| `Formats.Fixed64Format` | iOS App/Pods/leveldb-library/util/coding.cc:20-33 | eight bytes in the same way |
| `Formats.VarintFormat` | iOS App/Pods/leveldb-library/util/coding.cc:47-96 | the base-128 digits, least significant first, as few as will do, all but the last marked |
| `Formats.VarintUnique` | iOS App/Pods/leveldb-library/util/coding.cc:47-96 | and no other such bytes stand for the number |
| `Formats.MaskFormat` | iOS App/Pods/leveldb-library/util/crc32c.h:30-33 | the checksum rotated right by 15 bits, plus the constant |
| `Formats.RecordFormat` | iOS App/Pods/leveldb-library/db/log_writer.cc:34-107 | a record in the log is a chain of fragments that cross no end of a 32 KB block, all but the last reaching it, with at most six zeros before each; each has checksum, two bytes of length, type by its place, data |
| `Formats.BatchRecordFormat` | iOS App/Pods/leveldb-library/db/write_batch.cc:5-14 | a put is 1 and two strings with their lengths, a deletion 0 and one |
| `Formats.BatchFormat` | iOS App/Pods/leveldb-library/db/write_batch.cc:5-14 | a batch is eight bytes of sequence number, four of count, and its records |
| `Formats.InternalKeyFormat` | iOS App/Pods/leveldb-library/db/dbformat.cc:14-23 | the user key, and in eight bytes the sequence number above the type |
| `Formats.EditFormat` | iOS App/Pods/leveldb-library/db/version_edit.cc:41-86 | the tag of each field of an edit, and what follows it |
| `Formats.EntryFormat` | iOS App/Pods/leveldb-library/table/block_builder.cc:16-22 | shared length, length not shared, length of the value, rest of the key, value |
| `Formats.StoredFormat` | iOS App/Pods/leveldb-library/table/table_builder.cc:177-194 | a stored block is its contents, a byte 0 and the masked checksum of both |
| `Formats.FooterFormat` | iOS App/Pods/leveldb-library/table/format.cc:31-42 | four numbers, zeros up to the fortieth byte, and the magic number |
| `Formats.FilterNameFormat` | iOS App/Pods/leveldb-library/table/table_builder.cc:215-219 | the metaindex key of a filter is the name of its policy after filter. |
| `Formats.FilterKeys` | iOS App/Pods/leveldb-library/db/dbformat.cc:105-119 | filters are made of, and asked for, the user keys within internal keys |
| `Formats.TagFormat` | iOS App/Pods/nanopb/pb_encode.c:669-707 | the key of a field is its tag above three bits of wire type, and the wire type goes by the kind |
| `Formats.NumberFormat` | iOS App/Pods/nanopb/pb_encode.c:583-667 | unsigned numbers as varints, negative ones as 64-bit two's complement, zigzag ones numbered 0, -1, 1, -2, and fixed ones in four or eight bytes |
| `Formats.PresenceFormat` | iOS App/Pods/nanopb/pb_encode.c:240-337 | a member is written unless it is an optional one or one of a union without its flag, a singular one that is zero, or an empty array |
| `Formats.OrderFormat` | iOS App/Pods/nanopb/pb_encode.c:528-550 | fields are written in the order of the descriptor |
| `Log.Writer.AddRecord` | iOS App/Pods/leveldb-library/db/log_writer.cc:34-80 | appends the record cut into fragments at 32 KB block ends, with a trailer of zeros where no header fits |
| `Log.Reader.ReadPhysicalRecord` | iOS App/Pods/leveldb-library/db/log_reader.cc:189-271 | reads back a physical record that is whole, reports end of file on one cut short, and counts neither as corruption |
| `Log.Reader.ReadRecord` | iOS App/Pods/leveldb-library/db/log_reader.cc:56-174 | reads back a record whose fragments are all there, and nothing of one cut short |
| `Log.ReadAll` | iOS App/Pods/leveldb-library/db/log_reader.cc:56-174 | from any prefix of a log exactly the records that are whole in it are read, in order, and no corruption is reported |
| `Log.WholeRecordsAre` | iOS App/Pods/leveldb-library/db/log_reader.cc:56-174 | a record is whole in a prefix exactly if the layout of the records up to it fits |
| `Batches.BodyParses` | iOS App/Pods/leveldb-library/db/write_batch.cc:42-109 | iterating over the body of a batch gives its operations back |
| `Batches.WriteBatch.Append` | iOS App/Pods/leveldb-library/db/write_batch.cc:144-148 | the operations of the other batch follow, and the count covers both |
| `Batches.WriteBatch.InsertInto` | iOS App/Pods/leveldb-library/db/write_batch.cc:132-137 | inserts every operation in order under consecutive sequence numbers from that of the batch, also up to the point where a damaged body ends, and reports whether the body was whole and as long as its count |
| `Recovery.RecoverLogFile` | iOS App/Pods/leveldb-library/db/db_impl.cc:371-489 | replaying any prefix of a log gives the operations of the groups that are whole in it, in order, in tables that end after just those groups with which the memtable was full, and at the end, and the greatest sequence number |
| `Recovery.SyncedGroupsSurvive` | iOS App/Pods/leveldb-library/db/db_impl.cc:1216-1226 | every group synced before the log was cut is among them |
| `Reopening.ReopenedInv` | iOS App/Pods/leveldb-library/db/db_impl.cc:280-369 | with what the logs held in new level-0 tables the invariant holds again, and everything stored is what the levels held and what was found |
| `Reopening.ReopenedRead` | iOS App/Pods/leveldb-library/db/db_impl.cc:280-369 | a read whose answer was in a table or was found in a log gives the same result |
| `Durability.StepDurable` | iOS App/Pods/leveldb-library/db/version_set.cc:801-884 | whatever step the store takes, and writes to manifest or log, replaying the manifest gives the levels and the live logs hold what the memtables hold, in order |
| `Crashes.NewStoreDurable` | iOS App/Pods/leveldb-library/db/db_impl.cc:1474-1517 | this is so for a store just created and opened |
| `Crashes.ReopenDurable` | iOS App/Pods/leveldb-library/db/db_impl.cc:1474-1517 | after a crash at any moment that left each log up to its last sync at least, the store comes back in a state with the invariant, and the manifest and log written then stand for it |
| `Crashes.CrashReads` | iOS App/Pods/leveldb-library/db/db_impl.cc:280-369 | a read whose answer is in a table or in a synced group gives the same result after the crash |
| `CrashRuns.CrashRunDurable` | iOS App/Pods/leveldb-library/db/db_impl.cc:280-1517 | in every run of steps and crashes, in any order, the invariant holds and the disk stands for the state at every moment |
| `CrashRuns.SyncedWriteStays` | iOS App/Pods/leveldb-library/db/db_impl.cc:1185-1256 | what a write that asked for a sync put under a key, or deleted, is what every later read without a snapshot finds, through any steps and crashes, until the key is written again, provided no compaction in between uncovers a deleted value (the condition of Safety.CompactionReads) |
| `Restart.LogsToReplay` | iOS App/Pods/leveldb-library/db/db_impl.cc:326-352 | from any listing of the directory, the logs from the number in the manifest on, and the previous one, in ascending order |
| `Restart.Recover` | iOS App/Pods/leveldb-library/db/db_impl.cc:280-369 | from the bytes a crash left, a manifest cut behind the edits relied on and logs cut behind their last sync, the store comes back in a state with the invariant in which every read is right whose answer was in a table or in a synced group; each put or deletion that is whole in a live log is an entry of level 0 with its key, number, value and type, and the last one of its key up to a sequence number is what a read there finds |
| `ReplayedWrites.LoggedIsStored` | iOS App/Pods/leveldb-library/db/write_batch.cc:116-129 | level 0 then holds what it held before and, for each operation in a live log, an entry with its key and number, with its value or as a deletion, and nothing else |
| `ReplayedWrites.LoggedIsRead` | iOS App/Pods/leveldb-library/db/db_impl.cc:371-489 | a read finds the value of the last put of the key that was in a log, or nothing after a deletion |
| `ReplayedWrites.WrittenIsLogged` | iOS App/Pods/leveldb-library/db/db_impl.cc:1200-1240 | what a write puts into the log under a number is what it puts into the memtable under that number |
| `GroupCommit.WriteQueue.BuildBatchGroup` | iOS App/Pods/leveldb-library/db/db_impl.cc:1260-1306 | the group is the longest run of waiting writers from the first that the size limit and the sync rule allow, joined in order |
| `GroupCommit.GroupLimits` | iOS App/Pods/leveldb-library/db/db_impl.cc:1260-1306 | a group holds at most 1 MB, or 128 KB more than its first batch if that is no larger; the first writer left out would be past that, or wants a sync the leader does not |
| `GroupCommit.WriteQueue.Lead` | iOS App/Pods/leveldb-library/db/db_impl.cc:1185-1256 | the leader commits the group once, hands its status to exactly the members of the group, completes each of them once and leaves the others untouched; a sync leader has the log synced, and once a sync has failed nothing is logged or applied any more |
| `GroupCommit.GroupEqualsSerial` | iOS App/Pods/leveldb-library/db/db_impl.cc:1200-1240 | committing a group is the same as committing its batches one by one |
| `GroupCommit.SyncLeads` | iOS App/Pods/leveldb-library/db/db_impl.cc:1280-1285 | a write that wants a sync is only in groups led by one that does |
| `Manifest.EditRoundTrip` | iOS App/Pods/leveldb-library/db/version_edit.cc:41-205 | decoding an encoded edit gives it back: every field, deletions, additions and compact pointers |
| `Manifest.Recover` | iOS App/Pods/leveldb-library/db/version_set.cc:886-1011 | from any prefix of the manifest the version and the settings are those of the edits that are whole in it, and missing settings are reported |
| `HandleTables.HandleTable.Insert` | iOS App/Pods/leveldb-library/util/cache.cc:78-92 | puts the handle in place of the one with its key and returns that one; all other keys are kept, also when the table grows |
| `HandleTables.HandleTable.Remove` | iOS App/Pods/leveldb-library/util/cache.cc:94-102 | unlinks and returns the handle of the key |
| `HandleTables.HandleTable.Resize` | iOS App/Pods/leveldb-library/util/cache.cc:122-147 | relinking every handle into a larger table keeps the dictionary |
| `Cache.EvictMeans` | iOS App/Pods/leveldb-library/util/cache.cc:293-300 | eviction removes entries from the front of the list nobody holds (LruOrder.ListedByRelease), one by one, and no more than needed |
| `CacheRuns.InsertMeans` | iOS App/Pods/leveldb-library/util/cache.cc:266-303 | an insertion is found again, removes no pinned entry of another key, and leaves the usage within the capacity unless everything is pinned |
| `CacheRuns.RunKeeps` | iOS App/Pods/leveldb-library/util/cache.cc:217-333 | over any run the two lists, the table, the charges and the reference counts agree, and an entry has as many holders as handles given out less handles released |
| `CacheRuns.DeletersRunOnce` | iOS App/Pods/leveldb-library/util/cache.cc:217-237 | over any run from an empty cache an entry is deleted at most once, and exactly when it is out of the cache and nobody holds it |
| `CacheRuns.NoStaleHit` | iOS App/Pods/leveldb-library/util/cache.cc:252-321 | a lookup never returns an entry older than the last one inserted under its key |
| `CacheRuns.DictMeans` | iOS App/Pods/leveldb-library/util/cache.cc:252-333 | a lookup and a release leave the keys of the cache alone, an erasure takes out its key only, and pruning just the keys whose entries nobody holds |
| `LruOrder.OldestGoFirst` | iOS App/Pods/leveldb-library/util/cache.cc:225-303 | over any run, every key that an insertion drops was last released before every entry that stays and that nobody holds |
| `LruOrder.ListedByRelease` | iOS App/Pods/leveldb-library/util/cache.cc:232-250 | the entries nobody holds stand in the order of their last releases |
| `LruOrder.IdleSince` | iOS App/Pods/leveldb-library/util/cache.cc:217-237 | an entry nobody holds has been so since its last release, and was held when it was released |
| `LruCaches.LRUCache.Insert` | iOS App/Pods/leveldb-library/util/cache.cc:266-303 | the linked lists, table and counts change as the specification of the insertion says, and the handle returned is the one it hands out |
| `LruCaches.LRUCache.Lookup` | iOS App/Pods/leveldb-library/util/cache.cc:252-259 | as specified: a hit is pinned and moved to the list of entries in use |
| `LruCaches.LRUCache.Release` | iOS App/Pods/leveldb-library/util/cache.cc:261-264 | as specified: the last release makes an entry the newest of those to evict (LruOrder.ListedByRelease) or deletes it |
| `LruCaches.LRUCache.Erase` | iOS App/Pods/leveldb-library/util/cache.cc:318-321 | as specified: out of the table at once, deleted when unheld |
| `LruCaches.LRUCache.Prune` | iOS App/Pods/leveldb-library/util/cache.cc:323-333 | as specified: every unpinned entry goes |
| `PbEncode.EncodeMessage` | iOS App/Pods/nanopb/pb_encode.c:528-550 | on a buffer, a sizing stream or a substream: appends exactly the encoding of the message and succeeds, or fails, exactly if a value cannot be encoded or there is no room |
| `PbEncode.EncodeSubmessage` | iOS App/Pods/nanopb/pb_encode.c:717-765 | the two passes, sizing and writing, agree: length, then the encoding of that length |
| `PbEncode.EncodeRepeated` | iOS App/Pods/nanopb/pb_encode.c:147-236 | packed arrays get one tag and one length, others a tag per item, and an empty array nothing |
| `PbEncode.GetEncodedSize` | iOS App/Pods/nanopb/pb_encode.c:567-576 | the size is the length of the encoding |
| `PbRoundTrip.MessageBack` | iOS App/Pods/nanopb/pb_decode.c:1075-1087 | decoding the encoding of any encodable message gives it back in normal form if and only if every string in it leaves room for its zero byte; otherwise decoding fails |
| `PbRoundTrip.ZeroIsNormal` | iOS App/Pods/nanopb/pb_encode.c:240-337 | what the encoder skips as default is what the decoder puts there |
| `PbDecoder.DecodeMessageInto` | iOS App/Pods/nanopb/pb_decode.c:925-1073 | reading fields in any order from a stream, with unknown ones skipped, later ones replacing or extending earlier ones and required ones checked, does what the functional decoder does |
| `PbUnknown.UnknownFieldPasses` | iOS App/Pods/nanopb/pb_decode.c:278-334 | a field whose tag the message does not have, of any of the four wire types, put after some whole fields, changes nothing in what decoding gives |
| `PbUnknown.UnknownFieldFails` | iOS App/Pods/nanopb/pb_decode.c:278-334 | one that is cut short, or of another wire type, fails the decoding |
| `PbOccurrences.LastValueCounts` | iOS App/Pods/nanopb/pb_decode.c:406-440 | of two values for one field that is no array, union or message, the later one counts |
| `PbOccurrences.PackedOrNot` | iOS App/Pods/nanopb/pb_decode.c:432-485 | the entries of a repeated field do the same packed under one tag and one by one, also when there are too many |
| `PbBounds.DecodedFits` | iOS App/Pods/nanopb/pb_decode.c:1075-1087 | whatever the input, what decoding leaves fits the struct: numbers their width, bytes and strings their room with the zero byte, arrays their size, one of fixed count is empty or full, and a union names at most one field |
| `PbDecoder.ReadVarint32` | iOS App/Pods/nanopb/pb_decode.c:187-247 | reads what the functional decoder reads and fails where it fails |
| `PbVarint32.Varint32Means` | iOS App/Pods/nanopb/pb_decode.c:187-253 | bytes up to the first without its top bit are read as the low 32 bits of their groups of seven, and refused exactly if a fifth and last one has more than four bits or a later one is neither without bits nor part of a sign extension to 64 bits |
| `PbDecoder.DecodeScalar` | iOS App/Pods/nanopb/pb_decode.c:1318-1548 | every scalar kind: width checks, zigzag, fixed widths, byte and string limits |
| `PbFieldIter.FieldIter.Find` | iOS App/Pods/nanopb/pb_common.c:78-95 | the iterator that starts where it stands and goes round finds the field of the tag if there is one |
| `PbFieldIter.CheckRequired` | iOS App/Pods/nanopb/pb_decode.c:1030-1070 | comparing the words of the bit set succeeds exactly if every required field up to the limit is marked |
| `PbRequired.RequiredWereRead` | iOS App/Pods/nanopb/pb_decode.c:1030-1070 | after a successful decoding every required field up to the limit was in the input |

## Findings

Three promises fail, each in a reachable situation, and each with the exact condition under which it holds.

| promise | source | what fails | when it holds |
|---|---|---|---|
| a deleted key stays deleted | iOS App/Pods/leveldb-library/db/version_set.cc:1410 | `Resurfacing.DeletedValueReturns`: only the upper inputs are completed with boundary files, so a marker can be dropped one level down while the older value stays in the next file; a deleted key reads as its old value again | `Safety.CompactionReads`: if and only if no dropped marker has its next older entry, a value, outside the inputs; no boundary file of the lower inputs is enough (`ClosedBelow.CompleteBelowIsSafe`) |
| a stored key can be read | iOS App/Pods/leveldb-library/db/db_impl.cc:907-918 | `LostKey.KeyIsLost`: a memtable flushed during a manual compaction may go to the output level, into a gap between the inputs; the output then lies across it, and the binary search misses the flushed key | `FlushedAcross.FinishFinds`, and for the levels alone `FlushedAcross.FinishAnswers`: every search is right if and only if no file that arrived at the output level lies across an output; inputs without a gap are enough, as is an output level deeper than 2 (`Interleaved.OutOfReachFinishes`), automatic compactions have such inputs (`Inputs.PickCompaction`), and runs whose compactions are checked when they begin read right throughout (`GuardedRuns.GuardedRunAnswers`) |
| decoding gives back what was encoded | iOS App/Pods/nanopb/pb_decode.c:1494 | `PbRoundTrip.FullStringLost`: the encoder accepts a string that fills its array without a zero byte, the decoder refuses it | `PbRoundTrip.MessageBack`: if and only if every string leaves room for its zero byte |

## Left out

What the contracts above do not promise:

- Log.ReadAll: covers logs cut short anywhere, not bytes changed in place; the branches of the reader for bad checksums, bad lengths and missing fragments are in the code of `Log.Reader`, without a statement about which records they lose.
- Log.Reader.ReadRecord: the initial offset is fixed at 0, as every caller in the store passes it.
- Blocks.Iter.Seek: over blocks a builder wrote, smaller than 4 GiB; the status of a corrupt block is not modelled.
- Tables.Table.InternalGet: over tables a builder wrote, smaller than 4 GiB; corruption is only modelled in the checks of `Tables.ReadBlock`.
- Bloom.NoFalseNegatives: the number of probes is a parameter, since its computation from bits per key is in floating point; the hash is any function.
- Manifest.Recover: covers manifests cut short, not damaged ones.
- Recovery.RecoverLogFile: after which records a memtable is full is a parameter; the option reuse_logs is off.
- Restart.Recover: for files of a store that crashed, not for damaged ones; the check that every table is there, and writing the new manifest and log (`Crashes.Reopened` says what they hold), are not in the method.
- CrashRuns.CrashRunDurable: a compaction is one step there; a crash leaves each log cut behind its last sync, and finds tables and manifest synced, as the code syncs them before it relies on them.
- GroupCommit.WriteQueue.Lead: a failed append leaves the log as it was; a part of the record that may have been written is not modelled.
- TableReads.Get: the files of the state are given with their key ranges, and the opened tables by number instead of through the cache; tables smaller than 4 GiB.
- Store.DB.Write: the last sequence number stays below 2^56 - 1, which the code assumes without a check.
- Store.DB.BackgroundCompaction: the method is one step; `Interleaved` has the compaction that overlaps with other steps, as a relation and not as an object.
- SkipLists.SkipList.Insert: the random height is a parameter.
- ConcurrentReads.ReadsAreAtomic: memory is sequentially consistent, where the code relies on acquire and release.
- CacheRuns.RunKeeps: handles are numbers never used again, where the code reuses memory; one shard, without the choice of shard by hash, NewId or the destructor.
- HandleTables.HandleTable.Resize: the bucket is the remainder by a power of two, where the code masks bits.
- PbRoundTrip.MessageBack: encodings shorter than 4 GiB; absent fields become zero, as no default named through the field descriptor's pointer is modelled.
- PbDecoder.ReadVarint32: the bit counter does not wrap, as an 8-bit counter would after more than 36 bytes of padding.
- NewIterators.NewIterator: each child is the sequence it stands for (`NewIterators.ConcatenatedIs`, `SkipLists.ListIterator`, `Blocks.Iter` and `TwoLevel` prove that the child iterators are); a seek for sampling reads is not modelled.

What the repository does and the model does not:

- Errors from the environment (files, directories, locks, clocks), file names, the lock file, threads and condition variables.
- The scores that decide which level is compacted next, the update of compact pointers, seek compaction charges, and statistics.
- ShouldStopBefore's count of overlapped bytes, and the size of a table: the verdict on each entry and the size for given entries are parameters of `Compactions.DoCompactionWork`.
- User keys in the store modules are reals, in which byte strings embed with their order (`ByteKeys.RankEmbeds`); sizes and counters are unbounded there.
- The encoding of memtable entries, the arena, and reference counts of memtables and versions.
- Snappy, the table cache, `c.cc`, `dumpfile.cc`, `repair.cc` and the environment implementations.
- CRC-32C and hash functions are uninterpreted.
- nanopb callbacks, extensions, pointer fields with their allocation, and the build options PB_ENCODE_ARRAYS_UNPACKED and PB_WITHOUT_64BIT; a message type without fields is given field number 0.
- The app's Swift code, the Python scripts and the other pods.
