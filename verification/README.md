# A verified model of LevelDB and nanopb

Two libraries are vendored under `harusari/Pods`: LevelDB, an ordered key/value store, and nanopb,
a Protocol Buffers codec for C. This project models both in Dafny and proves what they promise.
Nothing is executed; `dafny verify dfyconfig.toml` checks everything.

## The store

One abstract object stands behind LevelDB: a set of entries, each a user key, a sequence number, a
type byte and a value. `Entries.Lookup` is what a read of a key as of a sequence number means
over any such set. Everything else is shown to be a faster form of that object, or to keep it.

* **One state, seven kinds of step.** `StoreState.Db` holds the memtable, the frozen memtable, the
  levels of files, the last sequence number and the snapshots held. `StoreRuns.Next` has the steps:
  write, freeze, flush, compact, move a file down, take and release a snapshot. An invariant holds
  in every state of every run, and `DbObject.DbImpl` is a class whose methods take exactly these
  steps; its `Get` returns what `Lookup` says of all entries.
* **Compaction**: `CompactionInputs` and `CompactionSetup` choose the files, `Store` merges them,
  `CompactionPass` drops what no reader can see, `CompactionCuts` says where its output is cut,
  `VersionBuilder` and `StoreState` install the result.
* **Cursors**: `Cursors`, `Merger`, `TwoLevel` and `DbIter` move in both directions, with direction
  switches, and refine a plain position in a sorted sequence; `StoreView` shows that what an
  iterator opened on a store walks is exactly what `Lookup` finds.
* **Bytes**: `Coding`, `Crc`, `ByteKeys`, `Log`, `BlockFormat`, `Block`, `Table`, `TableFilters`,
  `TableWriter`, `Bloom`, `FilterBlock`, `WriteBatch`, `VersionEdit` and `Manifest` pair every
  writer with its reader, also for a log or a manifest cut at any byte. `KnownBytes` fixes bytes of
  each format, so that the two cannot drift together.
* **Memory and threads**: `SkipLists` (one writer, readers between any two pointer stores),
  `GroupCommit` (the writer queue), `HandleTables` and `LruCache`, `Snapshots`.

#### Two properties that fail, and when they hold

A compaction may change what is read in two situations. Both come from what the drop loop of
`DoCompactionWork` takes for granted about entries it does not see.

1. **A user key split over two files of the output level.** A deletion marker is dropped when no
   level below the output level has the key. `SetupOtherInputs` adds boundary files, which hold
   older entries of the last user key picked, on the input level only. If the marker sits in the
   last file picked on the output level and an older value of the key in the file after it, the
   marker goes and the value shows. `StoreWitness.DeletedKeyReturns` is such a run from the empty
   store, thirteen steps long: a snapshot held while level 2 is written leaves marker and value in
   two files, and the next compaction makes the deleted key read as present.
   `StoreRuns.CompactReadsIff` gives the exact condition, for every compaction of every reachable
   store: reads stay as they were if and only if no dropped marker has, as the newest older entry
   of its key outside the inputs, one a read would report (`NothingExposed`).
   `StoreRuns.ClosedExposesNothing` shows that the check the code makes on the input level, made on
   the output level too, is enough.
2. **A key whose type byte does not parse.** The loop keeps such an entry and forgets the entry
   before it, so it keeps what a marker above had hidden. `StoreWitness.UnparsedEntryUnmasks` has a
   read that turns from missing to corrupted. `CompactionPass.ReadsPreservedIff` covers it: the
   unparsed entries count among those a dropped marker may expose.

`StoreRuns.HeldSnapshotIsStable` then says that a read at a snapshot never changes over a run as
long as the snapshot is held and every compaction of the run exposes nothing.

## The codec

`Nanopb` describes messages by their field descriptors; `NanopbEncode` has the output stream, with
its sizing mode, and the encoder; `NanopbDecode` says what decoding means and `NanopbReader` does it
over a bounded input stream with substreams. `NanopbRoundTrip.MessageRoundTrip` decodes what was
encoded for every descriptor and message, at every depth: the result is the message with what the
wire does not carry set to its default, and decoding fails exactly when a text was not terminated
within its array, which the encoder does not check. `NanopbPlain.PlainRoundTrip` gives the message back
as it was when it has nothing but what the wire carries.

What any bytes decode to is also said without the decoder. `NanopbRecords` tells the records on the
wire apart by tags and lengths alone: a message decodes only if every required field has a record,
and of several records for one value the last one counts. `NanopbArrays` gives the items of an
array from all its records, `NanopbLimits` shows that numbers out of range are refused and that
nothing decoded leaves its buffer, and `NanopbOlder` that a reader which lacks some of the fields
skips them and gets the others.

## Model

| member | source | states |
|---|---|---|
| Entries.LookupBySeek | harusari/Pods/leveldb-library/db/memtable.cc:100-136 | in a sorted run the newest entry visible at a sequence number is the first at or after the lookup key |
| Versions.FindFile | harusari/Pods/leveldb-library/db/version_set.cc:88-106 | binary search finds the first file whose largest key is not before the key |
| Versions.Get | harusari/Pods/leveldb-library/db/version_set.cc:326-421 | stopping at the first hit, level by level, returns what all entries of the version together say |
| CompactionInputs.GetOverlappingInputs | harusari/Pods/leveldb-library/db/version_set.cc:519-559 | the files that overlap a range; on level zero those of the least range around it that is closed under overlap, whatever the order of restarts |
| CompactionInputs.AddBoundaryInputs | harusari/Pods/leveldb-library/db/version_set.cc:1326-1401 | adds files until none starts after the largest key picked with the same user key; each one added is the boundary file with the least smallest key; a run of a sorted level stays a run |
| CompactionSetup.PickCompaction | harusari/Pods/leveldb-library/db/version_set.cc:1270-1322 | the first file past the compaction pointer or, past the last, the first of the level; on level zero all it overlaps through others |
| CompactionSetup.CompactRange | harusari/Pods/leveldb-library/db/version_set.cc:1464-1495 | the files of a range, on a sorted level cut after the file that reaches the size limit |
| CompactionSetup.SetupOtherInputs | harusari/Pods/leveldb-library/db/version_set.cc:1403-1462 | the input sets belong together; the input set is the whole range of both sets if and only if that gains files, stays below the limit and selects as many files of the output level, which it leaves as they were |
| CompactionSetup.OlderMovesFirst | harusari/Pods/leveldb-library/db/version_set.cc:1378-1401 | no file left on the input level holds an older entry of a key that moves down |
| CompactionSetup.UnpickedLieApart | harusari/Pods/leveldb-library/db/version_set.cc:1403-1462 | every file left on the output level lies wholly before or wholly after all inputs |
| CompactionPass.Compaction.IsBaseLevelForKey | harusari/Pods/leveldb-library/db/version_set.cc:1533-1552 | exact for keys asked in nondecreasing order, although each file is passed only once |
| CompactionPass.Compaction.ShouldStopBefore | harusari/Pods/leveldb-library/db/version_set.cc:1554-1576 | stops exactly when the grandparent bytes passed since the output began exceed the limit |
| CompactionPass.DoCompactionWork | harusari/Pods/leveldb-library/db/db_impl.cc:878-1060 | the outputs hold exactly the entries that survive, in order, in files that are sorted, disjoint and numbered in turn; an output is cut exactly where it has reached the size limit or a stop of the grandparent scan comes, and lies on one side of every stop |
| CompactionCuts.TrackStep | harusari/Pods/leveldb-library/db/version_set.cc:1554-1576 | the scan of the grandparents stops at an entry exactly if the files that ended since the last stop, or since the first entry, have more bytes than the limit |
| CompactionCuts.OverlapsLittle | harusari/Pods/leveldb-library/db/db_impl.cc:920-927 | between any two entries of one output no more grandparent bytes end than the limit allows |
| CompactionPass.NothingNeedless | harusari/Pods/leveldb-library/db/db_impl.cc:947-963 | of the entries of a key that the oldest snapshot sees only the newest is kept, as far as they parse, and no deletion marker there that has nothing below it |
| CompactionPass.ReadsPreservedIff | harusari/Pods/leveldb-library/db/db_impl.cc:890-999 | for all inputs, parsed or not: every read from the oldest snapshot on is unchanged if and only if no dropped marker exposes what lies behind it |
| VersionBuilder.Builder.Apply | harusari/Pods/leveldb-library/db/version_set.cc:650-693 | deletions and additions of an edit accumulate; an added number is no longer deleted |
| VersionBuilder.Builder.SaveTo | harusari/Pods/leveldb-library/db/version_set.cc:695-753 | each level of the new version has the base and added files that are not deleted, in order |
| Store.InstallEdit | harusari/Pods/leveldb-library/db/version_set.cc:801-820 | applying an edit to the current version changes the levels by exactly its deletions and additions |
| Store.Drain | harusari/Pods/leveldb-library/db/version_set.cc:1237-1268 | walking the merging iterator over the input files yields their sorted merge |
| Store.PickLevelForMemTableOutput | harusari/Pods/leveldb-library/db/version_set.cc:491-516 | the deepest level allowed for a flush: nothing overlaps down to it, and it stops only at an overlap, at too many grandparent bytes or at the limit |
| StoreState.AllKeysDistinct | harusari/Pods/leveldb-library/db/db_impl.cc:1205-1210 | in every reachable store no two entries share a user key, sequence number and type |
| StoreState.InstallKeepsWellFormed | harusari/Pods/leveldb-library/db/db_impl.cc:860-876 | installing outputs made of the inputs keeps levels sorted, disjoint and newest first |
| StoreRuns.WriteKeepsInv | harusari/Pods/leveldb-library/db/db_impl.cc:1185-1256 | a write keeps the invariant and changes no read at an earlier sequence number |
| StoreRuns.WriteIsRead | harusari/Pods/leveldb-library/db/write_batch.cc:116-129 | after a write, and at every number inside it, a key reads as the last update of it so far says: the value put, even an empty one, or missing; every other key reads as before |
| StoreRuns.FlushKeepsInv | harusari/Pods/leveldb-library/db/db_impl.cc:535-566 | moving the frozen memtable into a file, on whatever level was picked, changes no entry |
| StoreRuns.MoveKeepsInv | harusari/Pods/leveldb-library/db/db_impl.cc:718-733 | a trivial move changes no entry |
| StoreRuns.CompactKeepsInv | harusari/Pods/leveldb-library/db/db_impl.cc:860-1060 | every planned compaction keeps the invariant of the store |
| StoreRuns.CompactReadsIff | harusari/Pods/leveldb-library/db/db_impl.cc:890-999 | a compaction of a reachable store leaves all reads as they were if and only if it exposes nothing |
| StoreRuns.ClosedExposesNothing | harusari/Pods/leveldb-library/db/version_set.cc:1378-1411 | nothing is exposed when no boundary file is left on the output level either |
| StoreRuns.RunKeepsInv | harusari/Pods/leveldb-library/db/db_impl.cc:688-767 | the invariant holds in every state of every run from the empty store or any good one |
| StoreRuns.StepKeepsReads | harusari/Pods/leveldb-library/db/db_impl.cc:878-1060 | no step that exposes nothing changes a read between the oldest snapshot and the present |
| StoreRuns.HeldSnapshotIsStable | harusari/Pods/leveldb-library/db/db_impl.cc:1166-1175 | over any run whose compactions expose nothing, a read at a snapshot that stays held stays the same |
| StoreRuns.ClosedRunIsStable | harusari/Pods/leveldb-library/db/db_impl.cc:1166-1175 | the same when every compaction leaves no boundary file on its output level, a check on the plan alone |
| StoreWitness.DeletedKeyReturns | harusari/Pods/leveldb-library/db/version_set.cc:1403-1462 | a legal run from the empty store whose last compaction makes a deleted key read as present; that step is neither closed nor safe |
| StoreWitness.UnparsedEntryUnmasks | harusari/Pods/leveldb-library/db/db_impl.cc:931-935 | an unparsed key below a marker turns a missing key into a corrupted one |
| Snapshots.SnapshotList.New | harusari/Pods/leveldb-library/db/snapshot.h:57-71 | linking a snapshot into the ring appends it and keeps the numbers ascending |
| Snapshots.SnapshotList.Delete | harusari/Pods/leveldb-library/db/snapshot.h:79-89 | unlinking removes that snapshot and no other |
| Snapshots.SnapshotList.Oldest | harusari/Pods/leveldb-library/db/snapshot.h:47-50 | the node after the head has the least sequence number held |
| DbObject.DbImpl.Write | harusari/Pods/leveldb-library/db/db_impl.cc:1185-1256 | takes exactly the write step; afterwards each key of the batch reads as its last update says and every other key as before |
| DbObject.DbImpl.Get | harusari/Pods/leveldb-library/db/db_impl.cc:1100-1145 | memtable, frozen memtable, then files: the answer is what all entries of the store say |
| DbObject.DbImpl.CompactMemTable | harusari/Pods/leveldb-library/db/db_impl.cc:535-566 | takes exactly a flush step, on the deepest level that overlaps and grandparent bytes allow |
| DbObject.DbImpl.BackgroundCompaction | harusari/Pods/leveldb-library/db/db_impl.cc:688-767 | the inputs come from the file whose turn it is, grown where that pays; a lone file with little two levels down moves, anything else is merged with the oldest snapshot of that moment into outputs cut where they should be |
| DbObject.DbImpl.GetSnapshot | harusari/Pods/leveldb-library/db/db_impl.cc:1166-1169 | a new snapshot at the last sequence number joins the ring |
| DbObject.DbImpl.ReleaseSnapshot | harusari/Pods/leveldb-library/db/db_impl.cc:1171-1175 | the snapshot leaves the ring; the rest of the store stays |
| DbObject.DbImpl.NewIterator | harusari/Pods/leveldb-library/db/db_impl.cc:1062-1098 | a fresh iterator over the sorted merge of memtables and files |
| StoreView.StoreViewIsLookup | harusari/Pods/leveldb-library/db/db_impl.cc:1062-1157 | an iterator opened at a sequence number enumerates, in ascending key order, exactly the keys a lookup at that number finds, with their values |
| StoreView.MergeIsStore | harusari/Pods/leveldb-library/db/db_impl.cc:1062-1098 | the memtables and files are sorted runs without a common key, and their merge is the whole store |
| DbIter.ViewIsLookup | harusari/Pods/leveldb-library/db/db_iter.cc:168-198 | the live pairs of a sorted run at a sequence number are what lookups at that number find |
| DbIter.DBIter.Next | harusari/Pods/leveldb-library/db/db_iter.cc:141-166 | one position on in the live pairs, also right after moving back |
| DbIter.DBIter.Prev | harusari/Pods/leveldb-library/db/db_iter.cc:200-225 | one position back, also right after moving forward |
| DbIter.DBIter.Seek | harusari/Pods/leveldb-library/db/db_iter.cc:269-281 | stands on the first live key at or after the target |
| DbIter.DBIter.FindNextUserEntry | harusari/Pods/leveldb-library/db/db_iter.cc:168-198 | stops on the first entry to show and at no other; deletions hide what is older |
| DbIter.DBIter.FindPrevUserEntry | harusari/Pods/leveldb-library/db/db_iter.cc:227-267 | saves the last entry to show before where it began, if there is one |
| Merger.MergingIterator.Seek | harusari/Pods/leveldb-library/table/merger.cc:47-53 | stands where a seek in the sorted merge stands |
| Merger.MergingIterator.Next | harusari/Pods/leveldb-library/table/merger.cc:55-79 | one position on in the merge; a change of direction first puts every other child past the key |
| Merger.MergingIterator.Prev | harusari/Pods/leveldb-library/table/merger.cc:81-108 | one position back in the merge; a change of direction first puts every other child before the key |
| Cursors.MergeAllOk | harusari/Pods/leveldb-library/table/merger.cc:148-176 | sorted runs without a common key merge into a sorted run of all their entries |
| TwoLevel.SeekFlat | harusari/Pods/leveldb-library/table/two_level_iterator.cc:82-87 | seeking the index and then the block is seeking the concatenation |
| TwoLevel.TwoLevelIterator.Next | harusari/Pods/leveldb-library/table/two_level_iterator.cc:103-126 | one position on in the concatenation, over empty blocks |
| TwoLevel.TwoLevelIterator.Prev | harusari/Pods/leveldb-library/table/two_level_iterator.cc:109-139 | one position back in the concatenation, over empty blocks |
| ByteKeys.RankedOrder | harusari/Pods/leveldb-library/db/dbformat.cc:51-67 | ranking user keys in the comparator order orders internal keys as their bytes do |
| ByteKeys.FindShortestSeparator | harusari/Pods/leveldb-library/util/comparator.cc:29-50 | exact: the start, or the start cut after the first difference with that byte one up, strictly between the two |
| ByteKeys.FindShortSuccessor | harusari/Pods/leveldb-library/util/comparator.cc:52-63 | exact: the key cut after its first byte below 0xff, that byte one up |
| ByteKeys.InternalSeparator | harusari/Pods/leveldb-library/db/dbformat.cc:69-86 | an internal key at or after the start whose user key is before the limit |
| Coding.VarintRoundTrip | harusari/Pods/leveldb-library/util/coding.cc:81-157 | a varint is read back, whatever follows it, if the byte limit allows its length |
| Coding.GetVarint32 | harusari/Pods/leveldb-library/util/coding.cc:112-140 | reads back every 32-bit value; fails only where no varint of five bytes stands |
| Coding.GetVarint64 | harusari/Pods/leveldb-library/util/coding.cc:142-169 | reads back every 64-bit value; fails only where no varint of ten bytes stands |
| Coding.GetLengthPrefixedSlice | harusari/Pods/leveldb-library/util/coding.cc:181-192 | reads back every slice written with its length |
| Crc.MaskRoundTrip | harusari/Pods/leveldb-library/util/crc32c.h:29-38 | unmasking undoes masking |
| Log.Writer.AddRecord | harusari/Pods/leveldb-library/db/log_writer.cc:34-80 | appends the frames of one record: headers never split over blocks, trailers zero |
| Log.FillsBlock | harusari/Pods/leveldb-library/db/log_writer.cc:57-76 | a fragment that does not take all that is left ends its block |
| Log.Reader.ReadRecord | harusari/Pods/leveldb-library/db/log_reader.cc:56-174 | returns the next record of a log exactly when its last byte is in the file, and reports nothing; from any file at all a record is returned only if fragments typed as its parts stand there back to back, each, with checksums on, under the masked checksum of its type and data |
| Log.GatheredMore | harusari/Pods/leveldb-library/db/log_reader.cc:87-125 | a middle or last fragment that stands where the one before ended extends what was gathered by its data |
| Log.CrashRoundTrip | harusari/Pods/leveldb-library/db/log_reader.cc:56-271 | a log of any records, cut at any byte, reads back as exactly the records that end before the cut, without a report |
| BlockFormat.BlockBuilder.Finish | harusari/Pods/leveldb-library/table/block_builder.cc:62-70 | the bytes encode the entries added, below the 32-bit limit of the format; restarts come at the interval and every other entry leaves out all it shares with the key before it |
| Block.Iter.Seek | harusari/Pods/leveldb-library/table/block.cc:163-201 | binary search over restart points and a scan stop on the first key not before the target |
| Block.Iter.Prev | harusari/Pods/leveldb-library/table/block.cc:142-161 | one entry back, through an earlier restart point |
| Block.BlockRoundTrip | harusari/Pods/leveldb-library/table/block_builder.cc:62-106 | for any ascending entries and restart interval, forward and backward walks over the bytes give the entries |
| Table.FooterRoundTrip | harusari/Pods/leveldb-library/table/format.cc:31-62 | both handles are read back from the footer |
| Table.InternalGet | harusari/Pods/leveldb-library/table/table.cc:216-244 | one index entry, one filter question and one block deliver the first entry at or after the key, or rightly none for its user key |
| TableFilters.ReadMeta | harusari/Pods/leveldb-library/table/table.cc:84-134 | finds the filter block through the footer and the metaindex under the name of the policy |
| TableFilters.Get | harusari/Pods/leveldb-library/table/table.cc:38-134 | opening a table with or without its filter and looking a key up is exact |
| TableWriter.TableBuilder.Add | harusari/Pods/leveldb-library/table/table_builder.cc:94-123 | the entry joins the table; a data block is closed exactly when it has reached the block size; index entry, filter and blocks stay in step |
| TableWriter.TableBuilder.Finish | harusari/Pods/leveldb-library/table/table_builder.cc:198-253 | the file is a table of everything added, and its metaindex names a filter that has every key under the offset of its block |
| TableWriter.BuildAndGet | harusari/Pods/leveldb-library/table/table_builder.cc:94-253 | for any ascending entries, any block size and any filter policy, a lookup in the bytes written is exact |
| Bloom.BloomFilterPolicy.CreateFilter | harusari/Pods/leveldb-library/util/bloom.cc:28-54 | every key matches, and no bit is set that is not a probe of a key |
| Bloom.BloomFilterPolicy.KeyMayMatch | harusari/Pods/leveldb-library/util/bloom.cc:56-80 | true exactly if all probes of the key are set, or the filter is of a later kind |
| FilterBlock.NoFalseNegatives | harusari/Pods/leveldb-library/table/filter_block.cc:77-104 | a key filed under an offset is never turned away at that offset |
| FilterBlock.FilterRoundTrip | harusari/Pods/leveldb-library/table/filter_block.cc:21-104 | the same over every legal sequence of builder calls |
| FilterBlock.TableFilterIsSound | harusari/Pods/leveldb-library/table/table.cc:216-232 | such a filter turns no lookup of a key of the table away |
| WriteBatch.BodyRoundTrip | harusari/Pods/leveldb-library/db/write_batch.cc:42-80 | iterating a batch visits its updates, all and in order |
| WriteBatch.WriteBatch.Append | harusari/Pods/leveldb-library/db/write_batch.cc:144-148 | the bytes of the other batch follow and the count is the sum |
| WriteBatch.Apply | harusari/Pods/leveldb-library/db/write_batch.cc:132-137 | applying a batch applies exactly its updates under consecutive sequence numbers |
| VersionEdit.RecordRoundTrip | harusari/Pods/leveldb-library/db/version_edit.cc:41-205 | an edit decodes from its record |
| VersionEdit.DecodeFrom | harusari/Pods/leveldb-library/db/version_edit.cc:107-205 | decoding field by field to the end, or an error |
| KnownBytes.EditFields | harusari/Pods/leveldb-library/db/version_edit.cc:14-80 | the bytes of one edit field of each kind |
| KnownBytes.InternalKeys | harusari/Pods/leveldb-library/db/dbformat.cc:13-22 | an internal key ends in its sequence number and type, low byte first |
| KnownBytes.BatchOps | harusari/Pods/leveldb-library/db/write_batch.cc:98-110 | the bytes of a put and of a delete in a batch |
| KnownBytes.LogFragment | harusari/Pods/leveldb-library/db/log_writer.cc:82-109 | length and type behind the checksum of a log fragment |
| KnownBytes.BlockEntry | harusari/Pods/leveldb-library/table/block_builder.cc:92-99 | the bytes of a block entry that shares a prefix |
| KnownBytes.BloomNumbers | harusari/Pods/leveldb-library/util/bloom.cc:17-54 | probes per key, the least table and the second hash |
| KnownBytes.FooterEnd | harusari/Pods/leveldb-library/table/format.cc:31-62 | a table ends in the eight bytes of the magic number |
| KnownBytes.MessageFields | harusari/Pods/nanopb/pb_encode.c:660-698 | the bytes of fields of several kinds, tag and wire type included |
| KnownBytes.FixedField32 | harusari/Pods/nanopb/pb_encode.c:678-680 | a 32-bit field of tag 1 and value 1 is 0D 01 00 00 00 |
| KnownBytes.FixedField64 | harusari/Pods/nanopb/pb_encode.c:682-684 | a 64-bit field of tag 1 and value 1 is 09 and its eight bytes |
| KnownBytes.ZeroLeftOut | harusari/Pods/nanopb/pb_encode.c:227-328 | without a has-flag a zero is not written; with one that is set it is |
| KnownBytes.PackedArray | harusari/Pods/nanopb/pb_encode.c:138-201 | the bytes of an array of numbers under one tag |
| Manifest.VersionSet.LogAndApply | harusari/Pods/leveldb-library/db/version_set.cc:801-884 | the new version is the old one edited and the manifest keeps standing for it; the log numbers and compaction pointers are those the edit gives, or the old ones, and the record logged is the edit completed with them |
| Manifest.Recover | harusari/Pods/leveldb-library/db/version_set.cc:886-1011 | replaying a manifest cut at any byte gives the version after the last whole edit, and for each counter and each compaction pointer the last value any whole edit carries |
| Manifest.CrashAndRecover | harusari/Pods/leveldb-library/db/version_set.cc:886-1011 | recovery from a cut manifest gives a version that was current once; from the whole manifest the current one, the last counters logged and the compaction pointers as they are |
| GroupCommit.WriterQueue.BuildBatchGroup | harusari/Pods/leveldb-library/db/db_impl.cc:1260-1306 | the group is a prefix of the queue and its batch the updates of that prefix in order |
| GroupCommit.GroupIsLargest | harusari/Pods/leveldb-library/db/db_impl.cc:1260-1306 | the group takes writers until the first that would exceed the size or ask for a sync the leader did not |
| GroupCommit.NextKeepsInv | harusari/Pods/leveldb-library/db/db_impl.cc:1185-1256 | every step keeps queue, log, memtable and answers in agreement, and takes nothing back |
| GroupCommit.LoggedOnceInOrder | harusari/Pods/leveldb-library/db/db_impl.cc:1185-1256 | in every run each batch is logged at most once, in the order of arrival |
| GroupCommit.NumberedOnce | harusari/Pods/leveldb-library/db/db_impl.cc:1209-1216 | in every run sequence numbers follow the log order without repetition |
| GroupCommit.AcceptedIsKept | harusari/Pods/leveldb-library/db/db_impl.cc:1217-1250 | a writer told it succeeded has its batch, in one piece, in a record of the log and, under the numbers of that piece, in the memtable, and synced first if it asked for that |
| GroupCommit.GroupIsAnswered | harusari/Pods/leveldb-library/db/db_impl.cc:1217-1250 | a group succeeds as a whole if its record was appended and, where the leader asked, synced; else it fails as a whole and nothing is applied |
| GroupCommit.BrokenStays | harusari/Pods/leveldb-library/db/db_impl.cc:1228-1236 | in every run, after a failed sync each later write fails and nothing more is logged or applied |
| SkipLists.NothingMissed | harusari/Pods/leveldb-library/db/skiplist.h:254-281 | between any two stores of the writer: a search never passes a node that was in the list before it ended, and returns one that is |
| SkipLists.SearchIsAtomic | harusari/Pods/leveldb-library/db/skiplist.h:254-281 | what a search returns is the answer at the moment of its last load |
| SkipLists.NextKeepsInv | harusari/Pods/leveldb-library/db/skiplist.h:337-368 | after every single store each level is sorted, part of the level below, and never shrinks |
| SkipLists.SkipList.Insert | harusari/Pods/leveldb-library/db/skiplist.h:337-368 | the node stands after the last smaller one on each of its levels; other levels are as before |
| SkipLists.SkipList.FindGreaterOrEqual | harusari/Pods/leveldb-library/db/skiplist.h:260-281 | the first node at or after the key, and its predecessor on every level |
| SkipLists.SkipList.FindLessThan | harusari/Pods/leveldb-library/db/skiplist.h:283-302 | the last node before the key, or the head |
| HandleTables.HandleTable.Insert | harusari/Pods/leveldb-library/util/cache.cc:78-92 | the table stands for the map with the key replaced, through resizing |
| HandleTables.HandleTable.Resize | harusari/Pods/leveldb-library/util/cache.cc:122-146 | moving every chain to enough buckets loses no entry and doubles none |
| LruCache.LRUCache.Insert | harusari/Pods/leveldb-library/util/cache.cc:266-305 | the entry is there with one handle, found under its key in place of any other if the cache keeps anything; idle entries go, oldest first, until the charge fits or none is idle |
| LruCache.EvictKeepsInUse | harusari/Pods/leveldb-library/util/cache.cc:293-302 | eviction leaves every entry in use, and what the table finds of it, as it was |
| LruCache.EvictsOldest | harusari/Pods/leveldb-library/util/cache.cc:293-302 | eviction takes the oldest idle entries and runs each deleter once |
| LruCache.EvictsNoMore | harusari/Pods/leveldb-library/util/cache.cc:293-302 | eviction lowers the usage by the charges dropped, and without the last of them it was above the capacity |
| LruCache.InsertKeepsOrder | harusari/Pods/leveldb-library/util/cache.cc:194-217 | idle entries stay in the order in which they became idle; releasing, taking and erasing keep it too |
| LruCache.LRUCache.Release | harusari/Pods/leveldb-library/util/cache.cc:225-237 | the last reference runs the deleter; otherwise an entry only the cache holds becomes idle |
| LruCache.LRUCache.Erase | harusari/Pods/leveldb-library/util/cache.cc:307-321 | the key is gone from the table and its entry dies when its last handle does |
| LruCache.LRUCache.Prune | harusari/Pods/leveldb-library/util/cache.cc:323-333 | every idle entry goes, oldest first, and nothing in use |
| SkipLists.SkipList.Contains | harusari/Pods/leveldb-library/db/skiplist.h:370-378 | true exactly if the key is in the list |
| SkipLists.SkipList.FindLast | harusari/Pods/leveldb-library/db/skiplist.h:304-323 | the last node, or the head of an empty list |
| Nanopb.FieldIter.Find | harusari/Pods/nanopb/pb_common.c:78-97 | going once round the ring from anywhere finds the field with the tag, or leaves the iterator where it was |
| NanopbEncode.OStream.EncodeVarint | harusari/Pods/nanopb/pb_encode.c:599-619 | writes the varint, or fails exactly for want of room |
| NanopbEncode.EncodeSubmessage | harusari/Pods/nanopb/pb_encode.c:708-756 | the sizing pass counts the bytes the writing pass emits, at every depth |
| NanopbEncode.Encode | harusari/Pods/nanopb/pb_encode.c:519-541 | writes the fields in order, each under the wire type of its kind, or fails exactly if one cannot be encoded or the room runs out |
| NanopbOlder.ValueSkipped | harusari/Pods/nanopb/pb_encode.c:666-698 | every value is skipped to its end by the wire type it is written with, whoever reads it |
| NanopbEncode.GetEncodedSize | harusari/Pods/nanopb/pb_encode.c:558-567 | the size is that of the bytes encoding would write |
| NanopbReader.IStream.ReadVarint64 | harusari/Pods/nanopb/pb_decode.c:255-275 | agrees with the varint reading of at most ten bytes |
| NanopbReader.IStream.CloseSubstream | harusari/Pods/nanopb/pb_decode.c:387-402 | goes on after the substream, whatever of it was read |
| NanopbReader.DecodeNoInit | harusari/Pods/nanopb/pb_decode.c:925-1071 | the loop over the stream gives the fields the wire holds, or fails exactly when the bytes are no such message; if it succeeds every required field has come, every value is that of the last record for it, arrays hold the items of all records, and nothing has left its buffer |
| NanopbReader.Decode | harusari/Pods/nanopb/pb_decode.c:1075-1087 | the same into a structure set to its defaults |
| NanopbRecords.DecodesIff | harusari/Pods/nanopb/pb_decode.c:1023-1068 | a message decodes if and only if its records do, the last array without a counter is full and each of the first 64 required fields has a record |
| NanopbRecords.SkippedAlike | harusari/Pods/nanopb/pb_decode.c:321-331 | skipping a value by its wire type ends where reading it ends |
| NanopbRecords.LastWins | harusari/Pods/nanopb/pb_decode.c:406-424 | of several records for one slot, of one field or of the members of a union, the last alone says what a single value is; a slot without a record is left as it was |
| NanopbArrays.ArraysCome | harusari/Pods/nanopb/pb_decode.c:426-466 | a counted array grows by the items of all its records, packed or not; one without a counter must get whole sets and holds the last |
| NanopbLimits.SignedExact | harusari/Pods/nanopb/pb_decode.c:1329-1364 | a signed field takes exactly the number of its range that the low word of the varint stands for, and refuses the rest |
| NanopbLimits.UnsignedExact | harusari/Pods/nanopb/pb_decode.c:1366-1388 | an unsigned field takes exactly the numbers that fit its size |
| NanopbLimits.ZigZagExact | harusari/Pods/nanopb/pb_decode.c:1390-1412 | a zigzag field takes exactly the number of its range whose zigzag form the varint is |
| NanopbLimits.MessageWithin | harusari/Pods/nanopb/pb_decode.c:1431-1501 | whatever the bytes, nothing decoded is longer than its buffer or array, at any depth |
| NanopbOlder.OlderReader | harusari/Pods/nanopb/pb_decode.c:957-986 | decoding an encoded message with a descriptor that lacks some of its fields gives the others as if it had only them, and fails exactly if a text among these was not terminated |
| NanopbRoundTrip.Varint32Inverts | harusari/Pods/nanopb/pb_decode.c:187-252 | the 32-bit reader inverts the encoder |
| NanopbRoundTrip.ZigZagRoundTrip | harusari/Pods/nanopb/pb_decode.c:1269-1281 | signed numbers of every supported width come back from their zigzag form |
| NanopbRoundTrip.MessageRoundTrip | harusari/Pods/nanopb/pb_encode.c:519-541 | decoding what was encoded gives the message with defaults for what the wire does not carry, and fails exactly if a text emitted was not terminated |
| NanopbPlain.PlainRoundTrip | harusari/Pods/nanopb/pb_decode.c:1075-1087 | a message that has only what the wire carries comes back unchanged |

## Left out

What a model on values or with unbounded numbers does not capture:

- User keys are integers, their ranks in the comparator order, in the modules about order alone (entries, versions, compaction, cursors, skip list); `ByteKeys.RankedOrder` links ranks to bytes. Comparators other than the bytewise one are not modelled on bytes.
- Versions, files and memtables are values: reference counts of versions, the table cache, deletion of obsolete files and the encoding of memtable entries in the arena are not modelled. A memtable is its sorted run in `DbObject`; the skip list is proved by itself.
- `LruCache.LRUCache.Insert`: the two lists and the hash chains are sequences rather than linked nodes; sharding and the destructor are left out.
- `Block.BlockRoundTrip`: the sum of the two lengths at the head of an entry is taken without the 32-bit wrap of `table/block.cc:70`, which only bytes no builder wrote can reach.
- Sequence numbers do not wrap: a write must stay below the largest one, which the source does not check.
- `GroupCommit.AcceptedIsKept`: one log stands for all logs across memtable switches, and the insertion into the memtable does not fail once the batch is in the log.
- Memory orderings: every load and store of the skip list is one step in one order; a stretch under the mutex is one step.
- Checksums and hashes are arbitrary functions; of the checksum only masking is proved. Blocks are stored uncompressed.

What the libraries do that is not modelled:

- I/O errors, shutdown and background errors; the manifest is damaged only by being cut.
- `Manifest.Recover`: the bytes must be a prefix of a logged history; a damaged record in the middle is not covered. Replaying write-ahead logs into memtables and reusing a manifest are left out.
- `Log.CrashRoundTrip`: reading starts at offset zero; resynchronising from a later offset and the sizes in corruption reports are not modelled.
- Compaction scores, seek statistics, read sampling and the choice of the level to compact: any level with files may be compacted at any time, and the memtable may be frozen at any size.
- A flush while a compaction is running: every step is taken on the version it was computed from.
- Manual compaction as a loop over ranges, repair, dump tools, environments, loggers and the C interface.
- The two-level iterator runs over blocks given by a function on values, not over the bytes of a table.
- nanopb: callbacks, extensions, pointer fields with their allocation, and the delimited and null-terminated wrappers. The widths are those of the default build with 64-bit support and 32-bit field descriptors, and arrays are packed.
- `NanopbReader.DecodeNoInit`: what is in the destination after a failure is not stated, nor the raw storage of unions, nor the array items beyond the count.
- `NanopbRecords.LastWins`: records of a submessage are merged, and what that gives is said only by decoding them one after the other.
- `NanopbRoundTrip.MessageRoundTrip`: messages of 4 GiB and more, whose lengths do not fit the 32-bit length reader, are excluded.
- The Swift application, Firebase, gRPC and BoringSSL code of the repository.
