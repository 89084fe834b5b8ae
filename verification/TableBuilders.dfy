/** TableBuilder (table/table_builder.cc): entries go to data blocks, and each finished block gets its
    index entry once the first key of the next one, or the end, is known. */
module TableBuilders {
  import opened Wrappers
  import opened Coding
  import opened InternalKeys
  import opened Blocks
  import opened Filters
  import opened Tables

  /** The keys of the blocks, the index and the open block between two calls. */
  ghost predicate Building(blocks: seq<DataBlock>, index: seq<KeyValue>, data: seq<KeyValue>, lastKey: Bytes,
                           pending: bool, handle: Handle)
  {
    && GoodBlocks(blocks) && Ascending(CompareKeys, data) && LongKeys(data)
    && (data != [] ==> lastKey == LastKey(data))
    && (blocks != [] && data != [] ==> CompareKeys(LastKey(blocks[|blocks| - 1].entries), FirstKey(data)) < 0)
    && (pending ==> blocks != [] && |index| + 1 == |blocks|)
    && (pending ==> data == [] && lastKey == LastKey(blocks[|blocks| - 1].entries) && handle == HandleOf(blocks[|blocks| - 1]))
    && (!pending ==> |index| == |blocks| && (blocks != [] ==> data != []))
    && forall j :: 0 <= j < |index| ==> Indexed(blocks, data, j, index[j])
  }

  /** An index entry separates its block from what follows. */
  ghost predicate Indexed(blocks: seq<DataBlock>, data: seq<KeyValue>, j: nat, e: KeyValue) {
    && j < |blocks| && blocks[j].entries != [] && e.value == EncodeHandle(HandleOf(blocks[j]))
    && var next := if j + 1 < |blocks| then blocks[j + 1].entries else data;
       next != [] && Separates(LastKey(blocks[j].entries), e.key, FirstKey(next))
  }

  function HasEntries(blocks: seq<DataBlock>, data: seq<KeyValue>): bool { blocks != [] || data != [] }

  /** What every call may rely on: `lastKey` is the key added last. */
  lemma LastAdded(blocks: seq<DataBlock>, index: seq<KeyValue>, data: seq<KeyValue>, lastKey: Bytes, pending: bool, handle: Handle)
    requires Building(blocks, index, data, lastKey, pending, handle) && HasEntries(blocks, data)
    ensures |lastKey| >= 8
  {
    hide CompareKeys, IsBlock, Ascending;
    if blocks != [] { assert GoodBlock(blocks[|blocks| - 1]); }
  }

  lemma PendingWhenEmpty(blocks: seq<DataBlock>, index: seq<KeyValue>, data: seq<KeyValue>, lastKey: Bytes, pending: bool, handle: Handle)
    requires Building(blocks, index, data, lastKey, pending, handle)
    ensures data == [] && blocks != [] ==> pending
    ensures data != [] ==> !pending
  {
  }

  /** The first key of the next block settles the pending index entry. */
  lemma AddIndexEntry(blocks: seq<DataBlock>, index: seq<KeyValue>, lastKey: Bytes, handle: Handle, key: Bytes, value: Bytes, separator: Bytes)
    requires Building(blocks, index, [], lastKey, true, handle)
    requires |key| >= 8 && CompareKeys(lastKey, key) < 0 && Separates(lastKey, separator, key)
    ensures Building(blocks, index + [KeyValue(separator, EncodeHandle(handle))], [KeyValue(key, value)], key, false, handle)
  {
    hide CompareKeys, IsBlock, EncodeHandle, Separates;
    var index', data := index + [KeyValue(separator, EncodeHandle(handle))], [KeyValue(key, value)];
    assert GoodBlock(blocks[|blocks| - 1]);
    forall j | 0 <= j < |index'| ensures Indexed(blocks, data, j, index'[j]) {
      if j < |index| { assert Indexed(blocks, [], j, index[j]); }
    }
  }

  lemma AddToBlock(blocks: seq<DataBlock>, index: seq<KeyValue>, data: seq<KeyValue>, lastKey: Bytes, handle: Handle, key: Bytes, value: Bytes)
    requires Building(blocks, index, data, lastKey, false, handle)
    requires |key| >= 8 && (HasEntries(blocks, data) ==> CompareKeys(lastKey, key) < 0)
    ensures Building(blocks, index, data + [KeyValue(key, value)], key, false, handle)
  {
    hide CompareKeys, IsBlock, EncodeHandle, Separates, GoodBlocks;
    var data' := data + [KeyValue(key, value)];
    forall i | 0 <= i < |data| ensures CompareKeys(data[i].key, key) < 0 {
      if i < |data| - 1 { KeysTransitive(data[i].key, lastKey, key); }
    }
    forall j | 0 <= j < |index| ensures Indexed(blocks, data', j, index[j]) {
      assert Indexed(blocks, data, j, index[j]);
    }
  }

  lemma CloseBlock(blocks: seq<DataBlock>, index: seq<KeyValue>, data: seq<KeyValue>, lastKey: Bytes, handle: Handle, b: DataBlock)
    requires Building(blocks, index, data, lastKey, false, handle) && data != []
    requires b.entries == data && (|b.contents| < TWO_TO_THE_32 ==> IsBlock(b.contents, b.entries, b.restarts))
    ensures Building(blocks + [b], index, [], lastKey, true, HandleOf(b))
  {
    hide CompareKeys, IsBlock, EncodeHandle, Separates, Ascending, LongKeys;
    var blocks' := blocks + [b];
    assert GoodBlock(b);
    forall j | 0 <= j < |index| ensures Indexed(blocks', [], j, index[j]) {
      assert Indexed(blocks, data, j, index[j]);
    }
    EmptyAscends();
  }

  lemma EmptyAscends()
    ensures Ascending(CompareKeys, []) && LongKeys([])
  {
  }

  /** At the end the last key, or a short successor of it, closes the index. */
  lemma CloseIndex(blocks: seq<DataBlock>, index: seq<KeyValue>, lastKey: Bytes, handle: Handle, successor: Bytes)
    requires Building(blocks, index, [], lastKey, true, handle)
    requires successor == lastKey || CompareBytes(UserOf(lastKey), UserOf(successor)) < 0
    ensures GoodBlocks(blocks) && GoodIndex(blocks, index + [KeyValue(successor, EncodeHandle(handle))])
  {
    hide CompareKeys, CompareBytes, IsBlock, EncodeHandle, Separates, Ascending;
    var index' := index + [KeyValue(successor, EncodeHandle(handle))];
    forall j | 0 <= j < |blocks| ensures GoodIndexEntry(blocks, j, index'[j]) {
      if j < |index| { assert Indexed(blocks, [], j, index[j]); }
    }
  }

  /** A key of a block, with the offset of the block. */
  ghost predicate KeyOfBlock(blocks: seq<DataBlock>, block: nat, key: Bytes) {
    exists j, i :: 0 <= j < |blocks| && 0 <= i < |blocks[j].entries| && blocks[j].offset == block && blocks[j].entries[i].key == key
  }

  ghost predicate KeyOfData(data: seq<KeyValue>, key: Bytes) {
    exists i :: 0 <= i < |data| && data[i].key == key
  }

  /** What the filter was given is each entry, under the offset of its block. */
  ghost predicate Noted(blocks: seq<DataBlock>, data: seq<KeyValue>, offset: nat, added: set<(nat, Bytes)>) {
    forall block, key :: (block, key) in added <==> KeyOfBlock(blocks, block, key) || (block == offset && KeyOfData(data, key))
  }

  lemma NothingNoted(offset: nat)
    ensures Noted([], [], offset, {})
  {
  }

  lemma NoteKey(blocks: seq<DataBlock>, data: seq<KeyValue>, offset: nat, added: set<(nat, Bytes)>, e: KeyValue)
    requires Noted(blocks, data, offset, added)
    ensures Noted(blocks, data + [e], offset, added + {(offset, e.key)})
  {
    hide KeyOfBlock;
    forall key ensures KeyOfData(data + [e], key) <==> KeyOfData(data, key) || key == e.key {
      var more := data + [e];
      assert more[|data|] == e;
      if i :| 0 <= i < |data| && data[i].key == key { assert more[i].key == key; }
    }
  }

  lemma NoteBlock(blocks: seq<DataBlock>, data: seq<KeyValue>, offset: nat, added: set<(nat, Bytes)>, b: DataBlock, offset': nat)
    requires Noted(blocks, data, offset, added) && b.entries == data && b.offset == offset
    ensures Noted(blocks + [b], [], offset', added)
  {
    var more := blocks + [b];
    forall block, key ensures KeyOfBlock(more, block, key) <==> KeyOfBlock(blocks, block, key) || (block == offset && KeyOfData(data, key)) {
      assert more[|blocks|] == b;
      if j, i :| 0 <= j < |blocks| && 0 <= i < |blocks[j].entries| && blocks[j].offset == block && blocks[j].entries[i].key == key {
        assert more[j] == blocks[j];
      }
      if i :| 0 <= i < |data| && data[i].key == key && block == offset {
        assert more[|blocks|].entries[i].key == key;
      }
      if j, i :| 0 <= j < |more| && 0 <= i < |more[j].entries| && more[j].offset == block && more[j].entries[i].key == key {
        assert j < |blocks| ==> more[j] == blocks[j];
      }
    }
  }

  lemma NotedIsFiltered(blocks: seq<DataBlock>, offset: nat, added: set<(nat, Bytes)>, groups: seq<seq<Bytes>>)
    requires Noted(blocks, [], offset, added) && Covered(groups, added)
    ensures Filtered(blocks, groups)
  {
    forall g: nat, key ensures KeyBegins(blocks, g, key) <==> AddedAt(added, g, key) {
      if j, i :| 0 <= j < |blocks| && 0 <= i < |blocks[j].entries| && 2048 * g <= blocks[j].offset < 2048 * (g + 1) && blocks[j].entries[i].key == key {
        assert KeyOfBlock(blocks, blocks[j].offset, key);
        assert (blocks[j].offset, key) in added;
      }
      if block :| (block, key) in added && 2048 * g <= block < 2048 * (g + 1) {
        assert KeyOfBlock(blocks, block, key);
      }
    }
  }

  ghost predicate AllStored(file: Bytes, crc: Checksum, blocks: seq<DataBlock>) {
    forall j :: 0 <= j < |blocks| ==> StoredAt(file, crc, blocks[j].offset, blocks[j].contents)
  }

  lemma StoreMore(file: Bytes, crc: Checksum, blocks: seq<DataBlock>, more: Bytes)
    requires AllStored(file, crc, blocks)
    ensures AllStored(file + more, crc, blocks)
  {
    hide StoredAt;
    forall j | 0 <= j < |blocks| ensures StoredAt(file + more, crc, blocks[j].offset, blocks[j].contents) {
      StoredStays(file, more, crc, blocks[j].offset, blocks[j].contents);
    }
  }

  lemma StoreBlock(file: Bytes, crc: Checksum, blocks: seq<DataBlock>, b: DataBlock)
    requires AllStored(file, crc, blocks) && b.offset == |file|
    ensures AllStored(file + Stored(crc, b.contents), crc, blocks + [b])
  {
    hide StoredAt, Stored;
    StoreMore(file, crc, blocks, Stored(crc, b.contents));
    JustStored(file, crc, b.contents);
  }

  /** A block that was closed as soon as it was large enough, or at the end: beyond the block size there is
      at most its last entry. */
  ghost predicate CutBlock(b: DataBlock, blockSize: nat, interval: nat) {
    && b.entries != []
    && |b.contents| < blockSize + |b.entries[|b.entries| - 1].key| + |b.entries[|b.entries| - 1].value| + 28
    && (|b.contents| < TWO_TO_THE_32 ==> RestartsAt(b.restarts, interval, |b.entries|))
  }

  /** And all of the first n blocks were large enough. */
  ghost predicate WellCut(blocks: seq<DataBlock>, n: nat, blockSize: nat, interval: nat) {
    && (forall j :: 0 <= j < |blocks| ==> CutBlock(blocks[j], blockSize, interval))
    && (forall j :: 0 <= j < |blocks| && j < n ==> blockSize <= |blocks[j].contents|)
  }

  lemma CutOneMore(blocks: seq<DataBlock>, b: DataBlock, blockSize: nat, interval: nat)
    requires WellCut(blocks, |blocks|, blockSize, interval) && CutBlock(b, blockSize, interval)
    ensures WellCut(blocks + [b], |blocks|, blockSize, interval)
    ensures |b.contents| >= blockSize ==> WellCut(blocks + [b], |blocks| + 1, blockSize, interval)
  {
    hide CutBlock;
  }

  lemma NothingBuilt(crc: Checksum, blockSize: nat, interval: nat)
    ensures Building([], [], [], [], false, Handle(0, 0)) && AllStored([], crc, []) && WellCut([], 0, blockSize, interval)
  {
    EmptyAscends();
  }

  class TableBuilder {
    const crc: Checksum
    const blockSize: nat
    const interval: nat
    const hasFilter: bool
    const policy: Policy
    const name: Bytes           // of the policy
    const dataBlock: BlockBuilder
    const indexBlock: BlockBuilder
    const filterBlock: FilterBlockBuilder
    var file: Bytes             // what has been written; its length is the offset
    var lastKey: Bytes
    var numEntries: nat
    var closed: bool
    var pendingIndexEntry: bool
    var pendingHandle: Handle
    ghost var blocks: seq<DataBlock>

    ghost predicate Valid()
      reads this, dataBlock, indexBlock, filterBlock
    {
      Consistent() && InTime()
    }

    /** The open block is not large enough yet, and the others were not closed before they were. */
    ghost predicate InTime()
      reads this, dataBlock, indexBlock
    {
      && dataBlock.interval == interval && indexBlock.interval == 1
      && WellCut(blocks, |blocks|, blockSize, interval)
      && (if dataBlock.entries == [] then dataBlock.Size() == 8 else dataBlock.Size() < blockSize)
    }

    ghost predicate Consistent()
      reads this, dataBlock, indexBlock, filterBlock
    {
      && dataBlock != indexBlock && interval > 0 && |FilterName(name)| < TWO_TO_THE_32
      && dataBlock.Valid() && indexBlock.Valid() && filterBlock.Valid()
      && Building(blocks, indexBlock.entries, dataBlock.entries, lastKey, pendingIndexEntry, pendingHandle)
      && AllStored(file, crc, blocks)
      && filterBlock.policy == InternalPolicy(policy)
      && (hasFilter ==> filterBlock.block == |file| && Noted(blocks, dataBlock.entries, |file|, filterBlock.added))
      && (numEntries > 0 <==> HasEntries(blocks, dataBlock.entries)) && |lastKey| < TWO_TO_THE_32
    }

    constructor (crc: Checksum, blockSize: nat, interval: nat, policy: Option<Policy>, name: Bytes)
      requires interval > 0 && |FilterName(name)| < TWO_TO_THE_32
      ensures Valid() && fresh(dataBlock) && fresh(indexBlock) && fresh(filterBlock)
      ensures !closed && blocks == [] && dataBlock.entries == [] && file == []
      ensures hasFilter == policy.Some? && (policy.Some? ==> this.policy == policy.value)
      ensures this.crc == crc && this.name == name && this.blockSize == blockSize && this.interval == interval
    {
      hide Building, AllStored, WellCut, Noted, BlockBuilder.Valid, FilterBlockBuilder.Valid, BlockBuilder.Size, Filtered;
      var p := if policy.Some? then policy.value else Policy(keys => [], (k, f) => true);
      this.crc, this.blockSize, this.interval, this.hasFilter, this.policy, this.name := crc, blockSize, interval, policy.Some?, p, name;
      dataBlock := new BlockBuilder(interval);
      indexBlock := new BlockBuilder(1);
      filterBlock := new FilterBlockBuilder(InternalPolicy(p));
      file, lastKey, numEntries, closed, pendingIndexEntry, pendingHandle := [], [], 0, false, false, Handle(0, 0);
      blocks := [];
      new;
      NothingNoted(0);
      NothingBuilt(crc, blockSize, interval);
      filterBlock.StartBlock(0);
    }

    /** All entries added so far, block by block. */
    ghost function Entries(): seq<KeyValue>
      reads this, dataBlock
    {
      EntriesOf(blocks) + dataBlock.entries
    }

    method Add(key: Bytes, value: Bytes)
      requires Valid() && !closed && 8 <= |key| < TWO_TO_THE_32 && |value| < TWO_TO_THE_32
      requires numEntries > 0 ==> CompareKeys(lastKey, key) < 0
      modifies this, dataBlock, indexBlock, filterBlock
      ensures Valid() && !closed && Entries() == old(Entries()) + [KeyValue(key, value)]
    {
      hide Building, AllStored, Noted, CompareKeys, EntriesOf, BlockBuilder.Valid, FilterBlockBuilder.Valid, BlockBuilder.Size, WellCut;
      SettleIndex(key, value);
      if hasFilter {
        NoteKey(blocks, dataBlock.entries, |file|, filterBlock.added, KeyValue(key, value));
        filterBlock.AddKey(key);
      }
      lastKey := key;
      numEntries := numEntries + 1;
      dataBlock.Add(key, value);
      var size := dataBlock.CurrentSizeEstimate();
      ghost var before, data := blocks, dataBlock.entries;
      if size >= blockSize {
        Flush();
        CutIsMore(before, data, size, blocks);
      }
    }

    lemma LastCut(before: seq<DataBlock>, data: seq<KeyValue>, size: nat, after: seq<DataBlock>)
      requires WellCut(before, |before|, blockSize, interval) && Closes(before, data, size, after) && (data != [] ==> size < blockSize)
      ensures after != [] ==> WellCut(after, |after| - 1, blockSize, interval)
    {
      if data == [] {
        hide CutBlock;
      } else {
        CutIsMore(before, data, size, after);
      }
    }

    /** One more block, when it is as large as it may be. */
    lemma CutIsMore(before: seq<DataBlock>, data: seq<KeyValue>, size: nat, after: seq<DataBlock>)
      requires WellCut(before, |before|, blockSize, interval) && data != [] && Closes(before, data, size, after)
      requires size < blockSize + |data[|data| - 1].key| + |data[|data| - 1].value| + 28
      ensures WellCut(after, |before|, blockSize, interval) && |after| == |before| + 1
      ensures size >= blockSize ==> WellCut(after, |after|, blockSize, interval)
    {
      hide WellCut;
      CutOneMore(before, after[|before|], blockSize, interval);
      assert after == before + [after[|before|]];
    }

    /** Before a key is added: the index entry that waits for it is written. */
    method SettleIndex(key: Bytes, value: Bytes)
      requires Consistent() && 8 <= |key|
      requires numEntries > 0 ==> CompareKeys(lastKey, key) < 0
      modifies `lastKey, `pendingIndexEntry, indexBlock
      ensures indexBlock.Valid() && !pendingIndexEntry
      ensures Building(blocks, indexBlock.entries, dataBlock.entries + [KeyValue(key, value)], key, false, pendingHandle)
    {
      hide CompareKeys, GoodBlocks, Ascending, AllStored, Noted, IsBlock, Separates, EncodeHandle, BlockBuilder.Size, FilterBlockBuilder.Valid, Indexed;
      if pendingIndexEntry {
        LastAdded(blocks, indexBlock.entries, dataBlock.entries, lastKey, true, pendingHandle);
        ghost var was := lastKey;
        lastKey := FindInternalSeparator(lastKey, key);
        AddIndexEntry(blocks, indexBlock.entries, was, pendingHandle, key, value, lastKey);
        HandleLength(pendingHandle);
        indexBlock.Add(lastKey, EncodeHandle(pendingHandle));
        pendingIndexEntry := false;
        assert dataBlock.entries + [KeyValue(key, value)] == [KeyValue(key, value)];
      } else {
        AddToBlock(blocks, indexBlock.entries, dataBlock.entries, lastKey, pendingHandle, key, value);
      }
    }

    /** The open block, unless it is empty, is written; its index entry stays pending. */
    method Flush()
      requires Consistent() && dataBlock.interval == interval
      requires dataBlock.entries == [] ==> dataBlock.Size() == 8
      modifies this, dataBlock, filterBlock
      ensures dataBlock.Size() == 8 && Closes(old(blocks), old(dataBlock.entries), old(dataBlock.Size()), blocks)
      ensures Consistent() && closed == old(closed) && dataBlock.entries == [] && Entries() == old(Entries())
      ensures old(HasEntries(blocks, dataBlock.entries)) ==> pendingIndexEntry
      ensures filterBlock.added == old(filterBlock.added)
    {
      hide Building, AllStored, Noted, CompareKeys, EntriesOf, BlockBuilder.Valid, FilterBlockBuilder.Valid, IsBlock, Stored;
      PendingWhenEmpty(blocks, indexBlock.entries, dataBlock.entries, lastKey, pendingIndexEntry, pendingHandle);
      var empty := dataBlock.IsEmpty();
      if empty { return; }
      ghost var data, restarts, offset := dataBlock.entries, dataBlock.restartEntries, |file|;
      var contents := dataBlock.Finish();
      ghost var b := DataBlock(data, restarts, contents, offset);
      CloseBlock(blocks, indexBlock.entries, data, lastKey, pendingHandle, b);
      StoreBlock(file, crc, blocks, b);
      if hasFilter { NoteBlock(blocks, data, offset, filterBlock.added, b, offset + |contents| + TRAILER_SIZE); }
      BlockEntries(blocks, b);
      pendingHandle := Handle(|file|, |contents|);
      file := file + Stored(crc, contents);
      dataBlock.Reset();
      blocks := blocks + [b];
      pendingIndexEntry := true;
      if hasFilter {
        filterBlock.StartBlock(|file|);
      }
    }

    /** The open block has become one more block, if there was anything in it. */
    ghost predicate Closes(before: seq<DataBlock>, data: seq<KeyValue>, size: nat, after: seq<DataBlock>) {
      if data == [] then after == before
      else
        && |after| == |before| + 1 && after[..|before|] == before
        && var b := after[|before|];
           b.entries == data && |b.contents| == size && (size < TWO_TO_THE_32 ==> RestartsAt(b.restarts, interval, |data|))
    }

    method WriteRawBlock(contents: Bytes) returns (h: Handle)
      modifies `file
      ensures file == old(file) + Stored(crc, contents)
      ensures h == Handle(|old(file)|, |contents|) && StoredAt(file, crc, h.offset, contents)
    {
      JustStored(file, crc, contents);
      h := Handle(|file|, |contents|);
      file := file + Stored(crc, contents);
    }

    /** The finished file, unless it outgrows 32 bits, is a complete table of the entries added. */
    method Finish() returns (ghost im: Image)
      requires Valid() && !closed
      modifies this, dataBlock, indexBlock, filterBlock
      ensures closed
      ensures |file| < TWO_TO_THE_32 ==> GoodImage(file, crc, im) && EntriesOf(im.blocks) == old(Entries())
      ensures |file| < TWO_TO_THE_32 && hasFilter ==> HasFilter(file, crc, policy, name, im)
      ensures !hasFilter ==> im.meta == []
      ensures im.blocks != [] ==> WellCut(im.blocks, |im.blocks| - 1, blockSize, interval)
      ensures |im.indexData| < TWO_TO_THE_32 ==> RestartsAt(im.indexRestarts, 1, |im.index|)
    {
      hide Building, AllStored, Noted, CompareKeys, EntriesOf, BlockBuilder.Valid, FilterBlockBuilder.Valid, GoodImage, HasFilter,
           BlockBuilder.Size, WellCut, RestartsAt;
      ghost var before, data, size := blocks, dataBlock.entries, dataBlock.Size();
      Flush();
      LastCut(before, data, size, blocks);
      closed := true;
      assert EntriesOf(blocks) + [] == EntriesOf(blocks);
      im := WriteEnd();
    }

    /** What follows the data blocks: filter, metaindex, index and footer. */
    method WriteEnd() returns (ghost im: Image)
      requires Consistent() && dataBlock.entries == [] && indexBlock.interval == 1
      modifies `file, `lastKey, `pendingIndexEntry, indexBlock, filterBlock
      ensures im.blocks == blocks
      ensures |file| < TWO_TO_THE_32 ==> GoodImage(file, crc, im)
      ensures |file| < TWO_TO_THE_32 && hasFilter ==> HasFilter(file, crc, policy, name, im)
      ensures !hasFilter ==> im.meta == []
      ensures |im.indexData| < TWO_TO_THE_32 ==> RestartsAt(im.indexRestarts, 1, |im.index|)
    {
      hide Building, AllStored, Noted, CompareKeys, EntriesOf, BlockBuilder.Valid, FilterBlockBuilder.Valid, IsBlock, Stored, StoredAt,
           Footer, IsFilterBlock, Covered, GoodBlocks, GoodIndex, GoodImage, HasFilter, EncodeHandle, BlockBuilder.Size, RestartsAt;
      ghost var done, added, offset := file, filterBlock.added, |file|;
      var filterHandle, filterData := Handle(0, 0), [];
      if hasFilter {
        filterData := filterBlock.Finish();
        filterHandle := WriteRawBlock(filterData);
      }
      ghost var withFilter := file;
      ghost var meta, metaRestarts;
      var metaHandle, metaData;
      metaHandle, metaData, meta, metaRestarts := WriteMeta(filterHandle);
      ghost var withMeta := file;
      CloseTheIndex();
      var indexData := indexBlock.Finish();
      var indexHandle := WriteRawBlock(indexData);
      ghost var withIndex := file;
      file := file + Footer(metaHandle, indexHandle);
      im := Image(blocks, indexBlock.entries, indexBlock.restartEntries, indexData, indexHandle.offset, meta, metaRestarts, metaData,
                  metaHandle.offset, filterBlock.groups, filterData, filterHandle.offset);
      if |file| < TWO_TO_THE_32 {
        CompleteFile(file, crc, im, done, withMeta, withIndex);
        if hasFilter { CompleteFilter(file, crc, policy, name, im, withFilter, offset, added); }
      }
    }

    /** The metaindex block names the filter block. */
    method WriteMeta(filterHandle: Handle) returns (h: Handle, metaData: Bytes, ghost meta: seq<KeyValue>, ghost restarts: seq<nat>)
      requires interval > 0 && |FilterName(name)| < TWO_TO_THE_32
      modifies `file
      ensures file == old(file) + Stored(crc, metaData) && h == Handle(|old(file)|, |metaData|) && StoredAt(file, crc, h.offset, metaData)
      ensures meta == if hasFilter then [KeyValue(FilterName(name), EncodeHandle(filterHandle))] else []
      ensures |metaData| < TWO_TO_THE_32 ==> IsBlock(metaData, meta, restarts)
    {
      hide IsBlock, Stored, StoredAt, FilterName, BlockBuilder.Valid;
      HandleLength(filterHandle);
      hide EncodeHandle;
      var block := new BlockBuilder(interval);
      if hasFilter {
        block.Add(FilterName(name), EncodeHandle(filterHandle));
      }
      metaData := block.Finish();
      meta, restarts := block.entries, block.restartEntries;
      h := WriteRawBlock(metaData);
    }

    /** The last index entry, if one is pending. */
    method CloseTheIndex()
      requires indexBlock.Valid() && |lastKey| < TWO_TO_THE_32
      requires Building(blocks, indexBlock.entries, [], lastKey, pendingIndexEntry, pendingHandle)
      modifies `lastKey, `pendingIndexEntry, indexBlock
      ensures indexBlock.Valid() && GoodBlocks(blocks) && GoodIndex(blocks, indexBlock.entries)
    {
      hide CompareKeys, CompareBytes, GoodBlocks, GoodIndex, Ascending, IsBlock, EncodeHandle, BlockBuilder.Valid, LongKeys, Indexed;
      if pendingIndexEntry {
        LastAdded(blocks, indexBlock.entries, [], lastKey, true, pendingHandle);
        ghost var was := lastKey;
        lastKey := FindInternalSuccessor(lastKey);
        CloseIndex(blocks, indexBlock.entries, was, pendingHandle, lastKey);
        HandleLength(pendingHandle);
        indexBlock.Add(lastKey, EncodeHandle(pendingHandle));
        pendingIndexEntry := false;
      } else {
        NothingToIndex(blocks, indexBlock.entries, lastKey, pendingHandle);
      }
    }
  }

  lemma NothingToIndex(blocks: seq<DataBlock>, index: seq<KeyValue>, lastKey: Bytes, handle: Handle)
    requires Building(blocks, index, [], lastKey, false, handle)
    ensures GoodBlocks(blocks) && GoodIndex(blocks, index)
  {
  }

  /** The parts written one after the other make a complete table. */
  lemma CompleteFile(file: Bytes, crc: Checksum, im: Image, done: Bytes, withMeta: Bytes, withIndex: Bytes)
    requires |file| < TWO_TO_THE_32 && done <= file && withMeta <= file && withIndex <= file
    requires AllStored(done, crc, im.blocks) && StoredAt(withMeta, crc, im.metaOffset, im.metaData)
    requires StoredAt(withIndex, crc, im.indexOffset, im.indexData)
    requires GoodBlocks(im.blocks) && GoodIndex(im.blocks, im.index) && |im.meta| <= 1
    requires |im.metaData| < TWO_TO_THE_32 ==> IsBlock(im.metaData, im.meta, im.metaRestarts)
    requires |im.indexData| < TWO_TO_THE_32 ==> IsBlock(im.indexData, im.index, im.indexRestarts)
    requires file == withIndex + Footer(Handle(im.metaOffset, |im.metaData|), Handle(im.indexOffset, |im.indexData|))
    ensures GoodImage(file, crc, im)
  {
    hide IsBlock, GoodBlocks, GoodIndex, Stored, Footer;
    forall j | 0 <= j < |im.blocks| ensures StoredAt(file, crc, im.blocks[j].offset, im.blocks[j].contents) {
      StillStored(done, file, crc, im.blocks[j].offset, im.blocks[j].contents);
    }
    StillStored(withMeta, file, crc, im.metaOffset, im.metaData);
    StillStored(withIndex, file, crc, im.indexOffset, im.indexData);
  }

  lemma CompleteFilter(file: Bytes, crc: Checksum, policy: Policy, name: Bytes, im: Image, withFilter: Bytes, offset: nat, added: set<(nat, Bytes)>)
    requires |file| < TWO_TO_THE_32 && withFilter <= file && StoredAt(withFilter, crc, im.filterOffset, im.filterData)
    requires im.meta == [KeyValue(FilterName(name), EncodeHandle(Handle(im.filterOffset, |im.filterData|)))]
    requires |im.filterData| < TWO_TO_THE_32 ==> IsFilterBlock(InternalPolicy(policy), im.groups, im.filterData)
    requires Noted(im.blocks, [], offset, added) && Covered(im.groups, added)
    ensures HasFilter(file, crc, policy, name, im)
  {
    hide IsFilterBlock, Noted, Covered, EncodeHandle, Filtered, Stored;
    StillStored(withFilter, file, crc, im.filterOffset, im.filterData);
    NotedIsFiltered(im.blocks, offset, added, im.groups);
  }

  /** Bytes already written stay where they are. */
  lemma StillStored(file: Bytes, all: Bytes, crc: Checksum, offset: nat, contents: Bytes)
    requires StoredAt(file, crc, offset, contents) && file <= all
    ensures StoredAt(all, crc, offset, contents)
  {
    hide StoredAt;
    assert all == file + all[|file|..];
    StoredStays(file, all[|file|..], crc, offset, contents);
  }

  lemma BlockEntries(blocks: seq<DataBlock>, b: DataBlock)
    ensures EntriesOf(blocks + [b]) == EntriesOf(blocks) + b.entries
  {
    assert (blocks + [b])[..|blocks|] == blocks;
  }

  function EntriesOf(blocks: seq<DataBlock>): seq<KeyValue> {
    if blocks == [] then [] else EntriesOf(blocks[..|blocks| - 1]) + blocks[|blocks| - 1].entries
  }
}
