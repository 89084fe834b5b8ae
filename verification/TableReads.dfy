/** Point lookup through table files (Version::Get in db/version_set.cc, TableCache::Get in
    db/table_cache.cc): every file of a version is a table in bytes. A lookup answers as the search of the
    decoded entries does, and a table that was built and opened (db/builder.cc) may stand for its file. */
module TableReads {
  import opened Wrappers
  import opened Coding
  import opened InternalKeys
  import opened Blocks
  import opened Filters
  import opened Tables
  import opened TableBuilders
  import opened DbFormat
  import opened Versions
  import opened Compactions
  import opened ByteKeys
  import opened States
  import Lookup

  /** The pairs of a table lie in its blocks. */
  lemma {:induction false} EntriesAreIn(blocks: seq<DataBlock>, e: KeyValue)
    ensures e in EntriesOf(blocks) <==> IsEntry(blocks, e)
  {
    if blocks != [] {
      var front, last := blocks[..|blocks| - 1], blocks[|blocks| - 1];
      EntriesAreIn(front, e);
      if e in last.entries {
        assert e in blocks[|blocks| - 1].entries;
      }
      if IsEntry(blocks, e) {
        var j :| 0 <= j < |blocks| && e in blocks[j].entries;
        assert j < |front| ==> e in front[j].entries;
      }
    }
  }

  /** A table holds the entries of a file. */
  ghost predicate Holds(t: Table, f: File) {
    && t.Valid() && AllKeys(EntriesOf(t.blocks))
    && f.entries == EntriesIn(EntriesOf(t.blocks)) && Sorted(f.entries)
  }

  lemma AnswersFirstOrNone(blocks: seq<DataBlock>, k: Bytes, r: Option<KeyValue>)
    requires Answers(blocks, k, r)
    ensures FirstOrNone(EntriesOf(blocks), k, r)
  {
    hide CompareKeys, UserOf, IsEntry;
    forall e ensures e in EntriesOf(blocks) <==> IsEntry(blocks, e) {
      EntriesAreIn(blocks, e);
    }
  }

  // What the callback of a lookup keeps.
  datatype Saved = NotThere | SavedValue(value: Bytes) | SavedDeletion | Corrupt

  /** It is what a search of the entries ends at. */
  ghost predicate Saves(saved: Saved, hit: Option<Entry>) {
    match hit
    case None => saved == NotThere
    case Some(e) => if e.key.typ.TypeValue? then saved.SavedValue? && Text(saved.value) == e.value else saved == SavedDeletion
  }

  /** SaveValue: an entry of another user key counts for nothing. */
  method SaveValue(user: Bytes, ikey: Bytes, v: Bytes) returns (saved: Saved)
    ensures !IsKey(ikey) ==> saved == Corrupt
    ensures IsKey(ikey) ==> Saves(saved, if UserOf(ikey) == user then Some(EntryOf(KeyValue(ikey, v))) else None)
  {
    if IsKey(ikey) {
      TagFits(ikey);
      hide TagOf, UserOf;
      var parsed := ParseInternalKey(ikey);
      ComparesEqual(parsed.value.user, user);
      if CompareBytes(parsed.value.user, user) == 0 {
        saved := if parsed.value.typ == TYPE_VALUE then SavedValue(v) else SavedDeletion;
      } else {
        saved := NotThere;
      }
    } else {
      saved := Corrupt;
    }
  }

  /** TableCache::Get with SaveValue: the table says what the file's entries say. */
  method GetFromTable(t: Table, user: Bytes, s: SequenceNumber, ghost f: File) returns (saved: Saved)
    requires Holds(t, f)
    ensures Saves(saved, Lookup.GetFrom(f.entries, Rank(user), s))
  {
    var r := t.InternalGet(SeekBytes(user, s));
    AnswersFirstOrNone(t.blocks, SeekBytes(user, s), r);
    FirstIsGet(EntriesOf(t.blocks), user, s, r);
    hide IsKey, UserOf, KeyOf, EntryOf, SeekBytes, Rank, Lookup.GetFrom, EntriesOf, Answers, FirstOrNone;
    if r.Some? {
      saved := SaveValue(user, r.value.key, r.value.value);
    } else {
      saved := NotThere;
    }
  }

  /** Every file of the version is open as a table under its number. */
  ghost predicate Opened(levels: seq<seq<File>>, tables: map<nat, Table>) {
    forall l, f :: 0 <= l < |levels| && f in levels[l] ==> f.number in tables && Holds(tables[f.number], f)
  }

  ghost predicate FilesOpened(files: seq<File>, tables: map<nat, Table>) {
    forall f :: f in files ==> f.number in tables && Holds(tables[f.number], f)
  }

  /** The files a level gives to search, in order. */
  function Asked(files: seq<File>, level: nat, user: UserKey, s: SequenceNumber): (r: seq<File>)
    ensures forall f :: f in r ==> f in files
  {
    if level == 0 then Lookup.NewestFirst(Lookup.Holding(files, user))
    else
      var index := Search(files, LookupKey(user, s), 0, |files|);
      if index >= |files| || user < files[index].smallest.user then [] else [files[index]]
  }

  lemma AskedDecides(files: seq<File>, level: nat, user: UserKey, s: SequenceNumber)
    ensures Lookup.FirstOf(Asked(files, level, user, s), user, s) == Lookup.FromLevel(files, level, user, s)
  {
    hide Lookup.GetFrom, Search, Lookup.NewestFirst, Lookup.Holding;
    var asked := Asked(files, level, user, s);
    if level > 0 && asked != [] {
      assert asked == [asked[0]] && asked[1..] == [];
    }
  }

  /** The files of one level, asked one after the other. */
  method AskFiles(files: seq<File>, tables: map<nat, Table>, user: Bytes, s: SequenceNumber) returns (saved: Saved)
    requires FilesOpened(files, tables)
    ensures Saves(saved, Lookup.FirstOf(files, Rank(user), s))
  {
    hide Holds, Lookup.GetFrom, Rank;
    for i := 0 to |files|
      invariant Lookup.FirstOf(files, Rank(user), s) == Lookup.FirstOf(files[i..], Rank(user), s)
    {
      saved := GetFromTable(tables[files[i].number], user, s, files[i]);
      if saved != NotThere { return; }
      assert files[i..][1..] == files[i + 1..];
    }
    saved := NotThere;
  }

  /** Version::Get: level by level; where a file is asked, its table is. */
  method VersionGet(st: State, tables: map<nat, Table>, user: Bytes, s: SequenceNumber) returns (saved: Saved)
    requires |st.levels| == NUM_LEVELS && Opened(st.levels, tables)
    ensures Saves(saved, Lookup.HitFrom(st, 2, Rank(user), s))
  {
    hide Holds, Saves, Rank, Lookup.FromLevel, Lookup.FirstOf, Lookup.Holding, Lookup.NewestFirst, Search;
    for level := 0 to NUM_LEVELS
      invariant Lookup.HitFrom(st, 2, Rank(user), s) == Lookup.HitFrom(st, level + 2, Rank(user), s)
    {
      var files := st.levels[level];
      var asked;
      if level == 0 {
        asked := Lookup.HoldingFiles(files, Rank(user));
        asked := Lookup.NewestFirst(asked);
      } else {
        var index := FindFile(files, LookupKey(Rank(user), s));
        asked := if index >= |files| || Rank(user) < files[index].smallest.user then [] else [files[index]];
      }
      assert asked == Asked(files, level, Rank(user), s);
      AskedDecides(files, level, Rank(user), s);
      saved := AskFiles(asked, tables, user, s);
      SavesNothing(saved, Lookup.FromLevel(files, level, Rank(user), s));
      if saved != NotThere { return; }
    }
    saved := NotThere;
    SavesNothing(saved, None);
  }

  lemma SavesNothing(saved: Saved, hit: Option<Entry>)
    ensures Saves(saved, hit) ==> (saved == NotThere <==> hit == None)
    ensures Saves(NotThere, None)
  {
  }

  function ResultOf(saved: Saved): GetResult {
    if saved.SavedValue? then Found(Text(saved.value)) else NotFound
  }

  /** MAIN: DBImpl::Get over memtables and table files ends where the search of the state ends; under the
      invariant it returns the newest value at or below the sequence number, over everything stored. */
  method Get(st: State, tables: map<nat, Table>, user: Bytes, s: SequenceNumber) returns (r: GetResult)
    requires |st.levels| == NUM_LEVELS && Opened(st.levels, tables)
    ensures r == Lookup.Outcome(Lookup.Hit(st, Rank(user), s))
    ensures Inv(st) ==> r == Read(All(st), Rank(user), s)
  {
    if Inv(st) { Lookup.HitIsNewest(st, Rank(user), s); }
    hide Inv, Opened, Rank, Lookup.GetFrom, Lookup.FromLevel, Saves;
    var hit := Lookup.GetFrom(st.mem, Rank(user), s);
    if hit.Some? {
      return States.ResultOf(hit.value);
    }
    if st.imm.Some? {
      hit := Lookup.GetFrom(st.imm.value, Rank(user), s);
      if hit.Some? {
        return States.ResultOf(hit.value);
      }
    }
    var saved := VersionGet(st, tables, user, s);
    SavesOutcome(saved, Lookup.HitFrom(st, 2, Rank(user), s));
    r := ResultOf(saved);
  }

  lemma SavesOutcome(saved: Saved, hit: Option<Entry>)
    requires Saves(saved, hit)
    ensures ResultOf(saved) == Lookup.Outcome(hit)
  {
  }

  /** Pairs a table can be built of, in key order. */
  ghost predicate Buildable(kvs: seq<KeyValue>) {
    && kvs != [] && AllKeys(kvs) && Ascending(CompareKeys, kvs)
    && forall i :: 0 <= i < |kvs| ==> |kvs[i].key| < TWO_TO_THE_32 && |kvs[i].value| < TWO_TO_THE_32
  }

  /** The file description BuildTable fills in, with the entries it stands for. */
  ghost function FileOf(number: nat, size: nat, kvs: seq<KeyValue>): File
    requires Buildable(kvs)
  {
    File(number, size, KeyOf(kvs[0].key), KeyOf(kvs[|kvs| - 1].key), EntriesIn(kvs))
  }

  lemma FileIsWellFormed(number: nat, size: nat, kvs: seq<KeyValue>)
    requires Buildable(kvs)
    ensures WellFormed(FileOf(number, size, kvs))
  {
    AscendingIsSorted(kvs);
  }

  /** BuildTable: all pairs are added to a builder in order. */
  method BuildTable(crc: Checksum, blockSize: nat, interval: nat, policy: Option<Policy>, name: Bytes, kvs: seq<KeyValue>)
    returns (file: Bytes, ghost im: Image)
    requires interval > 0 && |FilterName(name)| < TWO_TO_THE_32 && Buildable(kvs)
    ensures |file| < TWO_TO_THE_32 ==> GoodImage(file, crc, im) && EntriesOf(im.blocks) == kvs
    ensures |file| < TWO_TO_THE_32 && policy.Some? ==> HasFilter(file, crc, policy.value, name, im)
    ensures policy.None? ==> im.meta == []
  {
    hide TableBuilder.Valid, CompareKeys, ParseInternalKey, FilterName, GoodImage, HasFilter, Ascending;
    var builder := new TableBuilder(crc, blockSize, interval, policy, name);
    assert EntriesOf([]) + [] == kvs[..0];
    for i := 0 to |kvs|
      invariant builder.Valid() && !builder.closed && builder.Entries() == kvs[..i]
      invariant fresh(builder) && fresh(builder.dataBlock) && fresh(builder.indexBlock) && fresh(builder.filterBlock)
    {
      LastIsBefore(builder, kvs, i);
      assert kvs[..i + 1] == kvs[..i] + [kvs[i]];
      builder.Add(kvs[i].key, kvs[i].value);
    }
    assert kvs[..|kvs|] == kvs;
    im := builder.Finish();
    file := builder.file;
  }

  /** What a builder was given last is the last pair added. */
  lemma LastOfAdded(blocks: seq<DataBlock>, index: seq<KeyValue>, data: seq<KeyValue>, lastKey: Bytes, pending: bool, handle: Handle, all: seq<KeyValue>)
    requires Building(blocks, index, data, lastKey, pending, handle) && HasEntries(blocks, data)
    requires all == EntriesOf(blocks) + data
    ensures all != [] && lastKey == all[|all| - 1].key
  {
    hide CompareKeys, IsBlock, Indexed;
    if data == [] {
      var last := blocks[|blocks| - 1];
      assert GoodBlock(last) && all == EntriesOf(blocks[..|blocks| - 1]) + last.entries;
    }
  }

  /** The next pair comes after it. */
  lemma LastIsBefore(builder: TableBuilder, kvs: seq<KeyValue>, i: nat)
    requires i < |kvs| && Buildable(kvs) && builder.Valid() && builder.Entries() == kvs[..i]
    ensures builder.numEntries > 0 ==> CompareKeys(builder.lastKey, kvs[i].key) < 0
    ensures 8 <= |kvs[i].key|
  {
    hide CompareKeys, BlockBuilder.Valid, FilterBlockBuilder.Valid, AllStored, Noted, Building, EntriesOf, FilterName;
    if builder.numEntries > 0 {
      LastOfAdded(builder.blocks, builder.indexBlock.entries, builder.dataBlock.entries, builder.lastKey, builder.pendingIndexEntry,
                  builder.pendingHandle, kvs[..i]);
    }
  }

  /** The metaindex names the filter of the name it was built with, and no other. */
  lemma FilterNamed(file: Bytes, crc: Checksum, policy: Option<Policy>, name: Bytes, readName: Bytes, im: Image)
    requires if policy.Some? then HasFilter(file, crc, policy.value, name, im) else im.meta == []
    ensures Names(im, readName) ==> policy.Some? && name == readName && HasFilter(file, crc, policy.value, readName, im)
  {
    hide StoredAt, IsFilterBlock, Filtered, EncodeHandle;
    assert FilterName(name)[7..] == name && FilterName(readName)[7..] == readName;
  }

  /** MAIN: a table built of some pairs and opened again stands for the file with these entries, whatever
      the block size, the restart interval and the policies on either side. */
  method BuildAndOpen(crc: Checksum, blockSize: nat, interval: nat, policy: Option<Policy>, name: Bytes, verify: bool,
                      readPolicy: Option<Policy>, readName: Bytes, number: nat, kvs: seq<KeyValue>)
    returns (t: Option<Table>, size: nat)
    requires interval > 0 && |FilterName(name)| < TWO_TO_THE_32 && Buildable(kvs)
    requires readPolicy.Some? ==> Sound(readPolicy.value)
    requires policy.Some? && readPolicy.Some? && name == readName ==> policy == readPolicy
    ensures size < TWO_TO_THE_32 ==> t.Some? && Holds(t.value, FileOf(number, size, kvs)) && WellFormed(FileOf(number, size, kvs))
  {
    hide CompareKeys, ParseInternalKey, FilterName, GoodImage, HasFilter, Ascending, Sound, Table.Valid;
    var file;
    ghost var im;
    file, im := BuildTable(crc, blockSize, interval, policy, name, kvs);
    size := |file|;
    if size >= TWO_TO_THE_32 { return None, size; }
    FilterNamed(file, crc, policy, name, readName, im);
    t := Open(file, crc, verify, readPolicy, readName, im);
    FileIsWellFormed(number, size, kvs);
  }
}
