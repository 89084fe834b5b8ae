/** Iteration over an index and the blocks it leads to (table/two_level_iterator.cc): tables run it over
    index and data blocks, levels over the file list and the files. */
module TwoLevel {
  import opened Wrappers
  import opened DbFormat
  import opened Lookup
  import opened Cursors
  import opened Versions
  import States

  // What the block function opens for the value of an index entry.
  type Blocks = map<Value, seq<Entry>>

  function BlockAt(index: seq<Entry>, blocks: Blocks, i: nat): seq<Entry>
    requires i < |index|
  {
    if index[i].value in blocks then blocks[index[i].value] else []
  }

  /** The entries of the blocks of the first n index entries. */
  function Whole(index: seq<Entry>, blocks: Blocks, n: nat): seq<Entry>
    requires n <= |index|
  {
    if n == 0 then [] else Whole(index, blocks, n - 1) + BlockAt(index, blocks, n - 1)
  }

  function All(index: seq<Entry>, blocks: Blocks): seq<Entry> {
    Whole(index, blocks, |index|)
  }

  function Start(index: seq<Entry>, blocks: Blocks, i: nat): nat
    requires i <= |index|
  {
    |Whole(index, blocks, i)|
  }

  /** Every index key is at or after the keys of its block, and before those of the later blocks. */
  ghost predicate Indexes(index: seq<Entry>, blocks: Blocks) {
    && Sorted(index) && Sorted(All(index, blocks))
    && (forall i, d :: 0 <= i < |index| && 0 <= d < |BlockAt(index, blocks, i)| ==> AtOrBefore(BlockAt(index, blocks, i)[d].key, index[i].key))
    && (forall i, j, d :: 0 <= i < j < |index| && 0 <= d < |BlockAt(index, blocks, j)| ==> Before(index[i].key, BlockAt(index, blocks, j)[d].key))
  }

  lemma {:induction false} WholeGrows(index: seq<Entry>, blocks: Blocks, i: nat, n: nat)
    requires i <= n <= |index|
    ensures Whole(index, blocks, i) <= Whole(index, blocks, n)
  {
    if i < n { WholeGrows(index, blocks, i, n - 1); }
  }

  lemma NoneBefore(index: seq<Entry>, blocks: Blocks)
    ensures Start(index, blocks, 0) == 0 && (index == [] ==> All(index, blocks) == [])
  {
  }

  lemma EntryIn(index: seq<Entry>, blocks: Blocks, i: nat)
    requires i < |index|
    ensures Start(index, blocks, i + 1) == Start(index, blocks, i) + |BlockAt(index, blocks, i)| <= |All(index, blocks)|
    ensures forall d :: 0 <= d < |BlockAt(index, blocks, i)| ==>
      All(index, blocks)[Start(index, blocks, i) + d] == BlockAt(index, blocks, i)[d]
  {
    WholeGrows(index, blocks, i + 1, |index|);
    var w, b := Whole(index, blocks, i), BlockAt(index, blocks, i);
    forall d | 0 <= d < |b| ensures All(index, blocks)[|w| + d] == b[d] {
      assert (w + b)[|w| + d] == b[d];
      assert All(index, blocks)[|w| + d] == Whole(index, blocks, i + 1)[|w| + d];
    }
  }

  /** Which block an entry of the whole is in. */
  lemma {:induction false} BlockOf(index: seq<Entry>, blocks: Blocks, n: nat, k: nat) returns (i: nat, d: nat)
    requires n <= |index| && k < Start(index, blocks, n)
    ensures i < n && d < |BlockAt(index, blocks, i)| && k == Start(index, blocks, i) + d
  {
    if k < Start(index, blocks, n - 1) {
      i, d := BlockOf(index, blocks, n - 1, k);
    } else {
      i, d := n - 1, k - Start(index, blocks, n - 1);
    }
  }

  lemma BlockSorted(index: seq<Entry>, blocks: Blocks, i: nat)
    requires Indexes(index, blocks) && i < |index|
    ensures Sorted(BlockAt(index, blocks, i))
  {
    EntryIn(index, blocks, i);
    var b, s := BlockAt(index, blocks, i), Start(index, blocks, i);
    forall x, y | 0 <= x < y < |b| ensures Before(b[x].key, b[y].key) {
      SortedAt(All(index, blocks), s + x, s + y);
    }
  }

  lemma EarlierBlock(index: seq<Entry>, blocks: Blocks, target: InternalKey, c: nat, d: nat)
    requires Indexes(index, blocks) && c < Seek(index, target) && c < |index| && d < |BlockAt(index, blocks, c)|
    ensures Before(BlockAt(index, blocks, c)[d].key, target)
  {
    assert AtOrBefore(BlockAt(index, blocks, c)[d].key, index[c].key) && Before(index[c].key, target);
  }

  lemma LaterBlock(index: seq<Entry>, blocks: Blocks, target: InternalKey, c: nat, d: nat)
    requires Indexes(index, blocks) && Seek(index, target) < c < |index| && d < |BlockAt(index, blocks, c)|
    ensures AtOrBefore(target, BlockAt(index, blocks, c)[d].key)
  {
    var i := Seek(index, target);
    assert AtOrBefore(target, index[i].key) && Before(index[i].key, BlockAt(index, blocks, c)[d].key);
  }

  lemma SameBlock(index: seq<Entry>, blocks: Blocks, target: InternalKey, i: nat, d: nat)
    requires Indexes(index, blocks) && i < |index| && d < |BlockAt(index, blocks, i)|
    ensures d < Seek(BlockAt(index, blocks, i), target) ==> Before(BlockAt(index, blocks, i)[d].key, target)
    ensures d >= Seek(BlockAt(index, blocks, i), target) ==> AtOrBefore(target, BlockAt(index, blocks, i)[d].key)
  {
    var b := BlockAt(index, blocks, i);
    BlockSorted(index, blocks, i);
    SeekSplits(b, target, d);
    CompareMeaning(b[d].key, target);
  }

  lemma SeekBound(es: seq<Entry>, key: InternalKey)
    ensures Seek(es, key) <= |es|
  {
  }

  /** Where a seek through the index and then in one block comes out. */
  function SeekPoint(index: seq<Entry>, blocks: Blocks, target: InternalKey): nat {
    var i := Seek(index, target);
    if i < |index| then Start(index, blocks, i) + Seek(BlockAt(index, blocks, i), target) else |All(index, blocks)|
  }

  lemma JustBefore(index: seq<Entry>, blocks: Blocks, target: InternalKey)
    requires Indexes(index, blocks)
    ensures SeekPoint(index, blocks, target) <= |All(index, blocks)|
    ensures SeekPoint(index, blocks, target) > 0 ==> Before(All(index, blocks)[SeekPoint(index, blocks, target) - 1].key, target)
  {
    hide Before, AtOrBefore, Seek, Indexes, Whole;
    var n, i := SeekPoint(index, blocks, target), Seek(index, target);
    SeekBound(index, target);
    if i < |index| { EntryIn(index, blocks, i); SeekBound(BlockAt(index, blocks, i), target); }
    if n > 0 {
      var c, d := BlockOf(index, blocks, |index|, n - 1);
      EntryIn(index, blocks, c);
      if c < i {
        EarlierBlock(index, blocks, target, c, d);
      } else {
        if c > i { WholeGrows(index, blocks, i + 1, c); }
        SameBlock(index, blocks, target, i, d);
      }
    }
  }

  lemma JustAfter(index: seq<Entry>, blocks: Blocks, target: InternalKey)
    requires Indexes(index, blocks) && SeekPoint(index, blocks, target) < |All(index, blocks)|
    ensures AtOrBefore(target, All(index, blocks)[SeekPoint(index, blocks, target)].key)
  {
    hide Before, AtOrBefore, Seek, Indexes, Whole;
    var n, i := SeekPoint(index, blocks, target), Seek(index, target);
    SeekBound(index, target);
    if i < |index| { EntryIn(index, blocks, i); SeekBound(BlockAt(index, blocks, i), target); }
    var c, d := BlockOf(index, blocks, |index|, n);
    EntryIn(index, blocks, c);
    if c > i {
      LaterBlock(index, blocks, target, c, d);
    } else {
      if c < i { WholeGrows(index, blocks, c + 1, i); }
      SameBlock(index, blocks, target, i, d);
    }
  }

  lemma SeekWhole(index: seq<Entry>, blocks: Blocks, target: InternalKey)
    requires Indexes(index, blocks)
    ensures Seek(All(index, blocks), target) == SeekPoint(index, blocks, target)
  {
    JustBefore(index, blocks, target);
    var n := SeekPoint(index, blocks, target);
    if n < |All(index, blocks)| { JustAfter(index, blocks, target); }
    hide SeekPoint;
    SeekIs(All(index, blocks), target, n);
  }

  /** The positions of the two iterators, the one over the index and the one over a block. */
  ghost predicate Placed(index: seq<Entry>, blocks: Blocks, indexAt: Option<nat>, hasData: bool, dataAt: Option<nat>, handle: Value) {
    && (indexAt.Some? ==> indexAt.value < |index|)
    && (hasData <==> indexAt.Some?)
    && (hasData ==> handle == index[indexAt.value].value)
    && (hasData && dataAt.Some? ==> dataAt.value < |BlockAt(index, blocks, indexAt.value)|)
  }

  /** The first entry at or after the two positions. */
  ghost predicate Ahead(index: seq<Entry>, blocks: Blocks, indexAt: Option<nat>, dataAt: Option<nat>, n: nat) {
    match indexAt
    case None => n == |All(index, blocks)|
    case Some(i) => i < |index| && n == if dataAt.Some? then Start(index, blocks, i) + dataAt.value else Start(index, blocks, i + 1)
  }

  /** The number of entries up to and including the two positions. */
  ghost predicate Behind(index: seq<Entry>, blocks: Blocks, indexAt: Option<nat>, dataAt: Option<nat>, n: nat) {
    match indexAt
    case None => n == 0
    case Some(i) => i < |index| && n == if dataAt.Some? then Start(index, blocks, i) + dataAt.value + 1 else Start(index, blocks, i)
  }

  class TwoLevelIterator {
    const index: seq<Entry>
    const blocks: Blocks
    var indexAt: Option<nat>
    var hasData: bool
    var dataAt: Option<nat>
    var handle: Value

    ghost predicate Shape()
      reads this
    {
      Placed(index, blocks, indexAt, hasData, dataAt, handle)
    }

    ghost predicate Valid()
      reads this
    {
      Shape() && Indexes(index, blocks) && (hasData ==> dataAt.Some?)
    }

    /** The index of the current entry among the entries of all blocks. */
    ghost function At(): Option<nat>
      requires Valid()
      reads this
    {
      if hasData then Some(Start(index, blocks, indexAt.value) + dataAt.value) else None
    }

    constructor (index: seq<Entry>, blocks: Blocks)
      requires Indexes(index, blocks)
      ensures Valid() && At() == None && this.index == index && this.blocks == blocks
    {
      this.index, this.blocks := index, blocks;
      indexAt, hasData, dataAt, handle := None, false, None, "";
    }

    method CurrentEntry() returns (e: Entry)
      requires Valid() && hasData
      ensures At().Some? && At().value < |All(index, blocks)| && e == All(index, blocks)[At().value]
    {
      hide Indexes, Whole, Seek;
      EntryIn(index, blocks, indexAt.value);
      e := BlockAt(index, blocks, indexAt.value)[dataAt.value];
    }

    /** Opens the block that the index is at, unless it is open already. */
    method InitDataBlock()
      requires indexAt.Some? ==> indexAt.value < |index|
      modifies `hasData, `dataAt, `handle
      ensures hasData <==> indexAt.Some?
      ensures hasData ==> handle == index[indexAt.value].value
    {
      if indexAt == None {
        hasData := false;
      } else if hasData && handle == index[indexAt.value].value {
        // The block is open already.
      } else {
        hasData, dataAt, handle := true, None, index[indexAt.value].value;
      }
    }

    method SkipEmptyDataBlocksForward(ghost n: nat)
      requires Shape() && Indexes(index, blocks) && Ahead(index, blocks, indexAt, dataAt, n)
      modifies this
      ensures Valid() && At() == IfInside(n, |All(index, blocks)|)
    {
      hide Indexes, Whole, Seek;
      NoneBefore(index, blocks);
      while !hasData || dataAt == None
        invariant Shape() && Ahead(index, blocks, indexAt, dataAt, n)
        decreases if indexAt == None then 0 else |index| - indexAt.value
      {
        if indexAt == None {
          hasData := false;
          return;
        }
        EntryIn(index, blocks, indexAt.value);
        indexAt := Move(index, indexAt, Next);
        InitDataBlock();
        if hasData {
          EntryIn(index, blocks, indexAt.value);
          dataAt := Move(BlockAt(index, blocks, indexAt.value), dataAt, ToFirst);
        }
      }
      EntryIn(index, blocks, indexAt.value);
    }

    method SkipEmptyDataBlocksBackward(ghost n: nat)
      requires Shape() && Indexes(index, blocks) && Behind(index, blocks, indexAt, dataAt, n)
      modifies this
      ensures Valid() && At() == IfInside(n - 1, |All(index, blocks)|)
    {
      hide Indexes, Whole, Seek;
      NoneBefore(index, blocks);
      while !hasData || dataAt == None
        invariant Shape() && Behind(index, blocks, indexAt, dataAt, n)
        decreases if indexAt == None then 0 else indexAt.value + 1
      {
        if indexAt == None {
          hasData := false;
          return;
        }
        indexAt := Move(index, indexAt, Prev);
        InitDataBlock();
        if hasData {
          EntryIn(index, blocks, indexAt.value);
          dataAt := Move(BlockAt(index, blocks, indexAt.value), dataAt, ToLast);
        }
      }
      EntryIn(index, blocks, indexAt.value);
    }

    method SeekTarget(target: InternalKey)
      requires Valid()
      modifies this
      ensures Valid() && At() == Move(All(index, blocks), old(At()), SeekTo(target))
    {
      hide Indexes, Whole, Seek;
      indexAt := Move(index, indexAt, SeekTo(target));
      InitDataBlock();
      SeekWhole(index, blocks, target);
      if hasData {
        dataAt := Move(BlockAt(index, blocks, indexAt.value), dataAt, SeekTo(target));
        EntryIn(index, blocks, indexAt.value);
      }
      SkipEmptyDataBlocksForward(SeekPoint(index, blocks, target));
    }

    method SeekToFirst()
      requires Valid()
      modifies this
      ensures Valid() && At() == Move(All(index, blocks), old(At()), ToFirst)
    {
      hide Indexes, Whole, Seek;
      NoneBefore(index, blocks);
      indexAt := Move(index, indexAt, ToFirst);
      InitDataBlock();
      if hasData {
        dataAt := Move(BlockAt(index, blocks, indexAt.value), dataAt, ToFirst);
        EntryIn(index, blocks, 0);
      }
      SkipEmptyDataBlocksForward(0);
    }

    method SeekToLast()
      requires Valid()
      modifies this
      ensures Valid() && At() == Move(All(index, blocks), old(At()), ToLast)
    {
      hide Indexes, Whole, Seek;
      NoneBefore(index, blocks);
      indexAt := Move(index, indexAt, ToLast);
      InitDataBlock();
      if hasData {
        dataAt := Move(BlockAt(index, blocks, indexAt.value), dataAt, ToLast);
        EntryIn(index, blocks, indexAt.value);
      }
      SkipEmptyDataBlocksBackward(|All(index, blocks)|);
    }

    method MoveNext()
      requires Valid() && hasData
      modifies this
      ensures old(At()).Some? && Valid() && At() == Move(All(index, blocks), old(At()), Next)
    {
      hide Indexes, Whole, Seek;
      ghost var n := At().value;
      EntryIn(index, blocks, indexAt.value);
      dataAt := Move(BlockAt(index, blocks, indexAt.value), dataAt, Next);
      SkipEmptyDataBlocksForward(n + 1);
    }

    method MovePrev()
      requires Valid() && hasData
      modifies this
      ensures old(At()).Some? && Valid() && At() == Move(All(index, blocks), old(At()), Prev)
    {
      hide Indexes, Whole, Seek;
      ghost var n := At().value;
      EntryIn(index, blocks, indexAt.value);
      dataAt := Move(BlockAt(index, blocks, indexAt.value), dataAt, Prev);
      SkipEmptyDataBlocksBackward(n);
    }
  }

  // ---------------------------------------------------------------- levels

  /** The index over a sorted level: each file under its largest key. */
  function FileIndex(files: seq<File>, name: nat -> Value): (index: seq<Entry>)
    ensures |index| == |files| && forall i :: 0 <= i < |files| ==> index[i] == Entry(files[i].largest, name(files[i].number))
  {
    seq(|files|, i requires 0 <= i < |files| => Entry(files[i].largest, name(files[i].number)))
  }

  ghost predicate FileBlocks(files: seq<File>, name: nat -> Value, blocks: Blocks) {
    forall i :: 0 <= i < |files| ==> name(files[i].number) in blocks && blocks[name(files[i].number)] == files[i].entries
  }

  lemma FileBounds(files: seq<File>, i: nat, d: nat)
    requires Disjoint(files) && i < |files|
    ensures d < |files[i].entries| ==> AtOrBefore(files[i].smallest, files[i].entries[d].key) && AtOrBefore(files[i].entries[d].key, files[i].largest)
    ensures AtOrBefore(files[i].smallest, files[i].largest)
  {
    assert WellFormed(files[i]);
    EntryRange(files[i], files[i].entries[0]);
    if d < |files[i].entries| { EntryRange(files[i], files[i].entries[d]); }
  }

  lemma FileBeforeFile(files: seq<File>, i: nat, j: nat, d: nat)
    requires Disjoint(files) && i < j < |files|
    ensures Before(files[i].largest, files[j].largest)
    ensures d < |files[j].entries| ==> Before(files[i].largest, files[j].entries[d].key)
  {
    FileBounds(files, j, d);
    assert Before(files[i].largest, files[j].smallest);
  }

  lemma LevelEntriesAre(files: seq<File>, index: seq<Entry>, blocks: Blocks, e: Entry)
    requires |index| == |files| && forall i :: 0 <= i < |index| ==> BlockAt(index, blocks, i) == files[i].entries
    ensures e in All(index, blocks) <==> e in States.LevelEntries(files)
  {
    hide Whole, BlockAt;
    var all := All(index, blocks);
    if e in all {
      var k :| 0 <= k < |all| && all[k] == e;
      var c, d := BlockOf(index, blocks, |index|, k);
      EntryIn(index, blocks, c);
      assert files[c] in files && files[c].entries[d] in files[c].entries;
    }
    if e in States.LevelEntries(files) {
      var f :| f in files && e in f.entries;
      var i :| 0 <= i < |files| && files[i] == f;
      var d :| 0 <= d < |f.entries| && f.entries[d] == e;
      EntryIn(index, blocks, i);
    }
  }

  /** The iterator over a level's files runs through all entries of the level in order. */
  lemma LevelIsIndexed(files: seq<File>, name: nat -> Value, blocks: Blocks)
    requires Disjoint(files) && FileBlocks(files, name, blocks)
    ensures Indexes(FileIndex(files, name), blocks)
    ensures forall e :: e in All(FileIndex(files, name), blocks) <==> e in States.LevelEntries(files)
  {
    var index := FileIndex(files, name);
    var all := All(index, blocks);
    forall i | 0 <= i < |index| ensures BlockAt(index, blocks, i) == files[i].entries {}
    hide Whole, FileIndex, BlockAt, Disjoint, FileBlocks, AtOrBefore, Before;
    forall i, d | 0 <= i < |index| && 0 <= d < |files[i].entries| ensures AtOrBefore(files[i].entries[d].key, files[i].largest) {
      FileBounds(files, i, d);
    }
    forall i, j, d | 0 <= i < j < |index| && 0 <= d < |files[j].entries| ensures Before(files[i].largest, files[j].entries[d].key) {
      FileBeforeFile(files, i, j, d);
    }
    forall i, j | 0 <= i < j < |index| ensures Before(index[i].key, index[j].key) {
      FileBeforeFile(files, i, j, 0);
    }
    forall k, m | 0 <= k < m < |all| ensures Before(all[k].key, all[m].key) {
      EntriesInOrder(files, index, blocks, k, m);
    }
    forall e ensures e in all <==> e in States.LevelEntries(files) {
      LevelEntriesAre(files, index, blocks, e);
    }
  }

  lemma EntriesInOrder(files: seq<File>, index: seq<Entry>, blocks: Blocks, k: nat, m: nat)
    requires Disjoint(files) && |index| == |files| && forall i :: 0 <= i < |index| ==> BlockAt(index, blocks, i) == files[i].entries
    requires k < m < |All(index, blocks)|
    requires forall i, j, d :: 0 <= i < j < |index| && 0 <= d < |files[j].entries| ==> Before(files[i].largest, files[j].entries[d].key)
    requires forall i, d :: 0 <= i < |index| && 0 <= d < |files[i].entries| ==> AtOrBefore(files[i].entries[d].key, files[i].largest)
    ensures Before(All(index, blocks)[k].key, All(index, blocks)[m].key)
  {
    hide Whole, BlockAt;
    var a, x := BlockOf(index, blocks, |index|, k);
    var b, y := BlockOf(index, blocks, |index|, m);
    EntryIn(index, blocks, a);
    EntryIn(index, blocks, b);
    if a > b {
      WholeGrows(index, blocks, b + 1, a);
    } else if a < b {
      KeyOrder(files[a].entries[x].key, files[a].largest, files[b].entries[y].key);
    } else {
      assert files[a] in files && WellFormed(files[a]);
      FileSorted(files[a], x, y);
    }
  }

  lemma FileSorted(f: File, x: nat, y: nat)
    requires WellFormed(f) && x < y < |f.entries|
    ensures Before(f.entries[x].key, f.entries[y].key)
  {
  }

  lemma KeyOrder(a: InternalKey, b: InternalKey, c: InternalKey)
    requires AtOrBefore(a, b) && Before(b, c)
    ensures Before(a, c)
  {
  }
}
