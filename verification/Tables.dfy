/** Table files (table/table_builder.cc, table/table.cc, table/format.cc): data blocks, an index of
    shortened keys, and a filter. A lookup reads one data block and misses nothing. */
module Tables {
  import opened Wrappers
  import opened Coding
  import opened InternalKeys
  import opened Blocks
  import opened Filters

  datatype Handle = Handle(offset: nat, size: nat)

  /** Offset and size, kept in 64 bits. */
  function EncodeHandle(h: Handle): Bytes {
    Varint(h.offset % TWO_TO_THE_64) + Varint(h.size % TWO_TO_THE_64)
  }

  lemma HandleLength(h: Handle)
    ensures |EncodeHandle(h)| <= 20
  {
    VarintLengths(h.offset % TWO_TO_THE_64);
    VarintLengths(h.size % TWO_TO_THE_64);
  }

  function DecodeHandle(s: Bytes): Option<(Handle, Bytes)> {
    match GetVarint64(s)
    case None => None
    case Some((offset, s1)) =>
      match GetVarint64(s1)
      case None => None
      case Some((size, rest)) => Some((Handle(offset, size), rest))
  }

  lemma HandleRoundTrip(h: Handle, rest: Bytes)
    requires h.offset < TWO_TO_THE_64 && h.size < TWO_TO_THE_64
    ensures DecodeHandle(EncodeHandle(h) + rest) == Some((h, rest))
  {
    hide GetVarint64, Varint;
    assert EncodeHandle(h) + rest == Varint(h.offset) + (Varint(h.size) + rest);
    Varint64RoundTrip(h.offset, Varint(h.size) + rest);
    Varint64RoundTrip(h.size, rest);
  }

  const NO_COMPRESSION: Byte := 0
  const TRAILER_SIZE := 5

  /** A block as stored: its contents, the compression type and their checksum. */
  function Stored(crc: Checksum, contents: Bytes): (r: Bytes)
    ensures |r| == |contents| + TRAILER_SIZE
  {
    contents + ([NO_COMPRESSION] + EncodeFixed32(Mask(crc(contents + [NO_COMPRESSION])) as nat))
  }

  ghost predicate StoredAt(file: Bytes, crc: Checksum, offset: nat, contents: Bytes) {
    && offset + |contents| + TRAILER_SIZE <= |file|
    && file[offset..offset + |contents| + TRAILER_SIZE] == Stored(crc, contents)
  }

  lemma StoredStays(file: Bytes, more: Bytes, crc: Checksum, offset: nat, contents: Bytes)
    requires StoredAt(file, crc, offset, contents)
    ensures StoredAt(file + more, crc, offset, contents)
  {
    hide Stored;
  }

  lemma JustStored(file: Bytes, crc: Checksum, contents: Bytes)
    ensures StoredAt(file + Stored(crc, contents), crc, |file|, contents)
  {
    var all := file + Stored(crc, contents);
    assert all[|file|..|all|] == Stored(crc, contents);
  }

  /** ReadBlock: the block a handle names, or none when what is there is no good block. */
  method ReadBlock(file: Bytes, crc: Checksum, verify: bool, h: Handle, ghost contents: Bytes) returns (r: Option<Bytes>)
    ensures StoredAt(file, crc, h.offset, contents) && |contents| == h.size ==> r == Some(contents)
  {
    StoredParts(crc, contents);
    hide Stored, DecodeFixed32, Unmask;
    var n := h.size;
    if h.offset + n + TRAILER_SIZE > |file| { return None; }
    var data := file[h.offset..h.offset + n + TRAILER_SIZE];
    if verify && crc(data[..n + 1]) != Unmask(DecodeFixed32(data[n + 1..]) as bv32) { return None; }
    if data[n] != NO_COMPRESSION { return None; }
    return Some(data[..n]);
  }

  lemma StoredParts(crc: Checksum, contents: Bytes)
    ensures var data, n := Stored(crc, contents), |contents|;
      && data[..n] == contents && data[n] == NO_COMPRESSION && data[..n + 1] == contents + [NO_COMPRESSION]
      && Unmask(DecodeFixed32(data[n + 1..]) as bv32) == crc(data[..n + 1])
  {
    hide EncodeFixed32, DecodeFixed32, Mask, Unmask;
    var data, n := Stored(crc, contents), |contents|;
    assert data[..n + 1] == contents + [NO_COMPRESSION];
    var sum := EncodeFixed32(Mask(crc(data[..n + 1])) as nat);
    assert data[n + 1..] == sum + [];
    StoredChecksum(crc(data[..n + 1]), []);
  }

  // A data block as built, and where it is stored.
  datatype DataBlock = DataBlock(entries: seq<KeyValue>, restarts: seq<nat>, contents: Bytes, offset: nat)

  function HandleOf(b: DataBlock): Handle {
    Handle(b.offset, |b.contents|)
  }

  function FirstKey(es: seq<KeyValue>): Bytes
    requires es != []
  {
    es[0].key
  }

  function LastKey(es: seq<KeyValue>): Bytes
    requires es != []
  {
    es[|es| - 1].key
  }

  ghost predicate LongKeys(es: seq<KeyValue>) {
    forall i :: 0 <= i < |es| ==> |es[i].key| >= 8
  }

  ghost predicate GoodBlock(b: DataBlock) {
    && b.entries != [] && Ascending(CompareKeys, b.entries) && LongKeys(b.entries)
    && (|b.contents| < TWO_TO_THE_32 ==> IsBlock(b.contents, b.entries, b.restarts))
  }

  /** Blocks in key order. */
  ghost predicate GoodBlocks(blocks: seq<DataBlock>) {
    && (forall j :: 0 <= j < |blocks| ==> GoodBlock(blocks[j]))
    && (forall j :: 0 < j < |blocks| ==> CompareKeys(LastKey(blocks[j - 1].entries), FirstKey(blocks[j].entries)) < 0)
  }

  /** The index names every block under a key that separates it from the next. */
  ghost predicate GoodIndexEntry(blocks: seq<DataBlock>, j: nat, e: KeyValue)
    requires j < |blocks| && blocks[j].entries != []
    requires j + 1 < |blocks| ==> blocks[j + 1].entries != []
  {
    && e.value == EncodeHandle(HandleOf(blocks[j]))
    && if j + 1 < |blocks| then Separates(LastKey(blocks[j].entries), e.key, FirstKey(blocks[j + 1].entries))
       else e.key == LastKey(blocks[j].entries) || CompareBytes(UserOf(LastKey(blocks[j].entries)), UserOf(e.key)) < 0
  }

  ghost predicate GoodIndex(blocks: seq<DataBlock>, index: seq<KeyValue>)
    requires GoodBlocks(blocks)
  {
    |index| == |blocks| && forall j :: 0 <= j < |blocks| ==> GoodIndexEntry(blocks, j, index[j])
  }

  ghost predicate IsEntry(blocks: seq<DataBlock>, e: KeyValue) {
    exists j :: 0 <= j < |blocks| && e in blocks[j].entries
  }

  /** What a lookup may hand to its caller: the first entry of the table at or past the key, or
      nothing if no such entry has its user key. (The caller drops an entry of another user key.) */
  ghost predicate Answers(blocks: seq<DataBlock>, k: Bytes, r: Option<KeyValue>) {
    if r.Some? then
      && IsEntry(blocks, r.value) && CompareKeys(r.value.key, k) >= 0
      && forall e :: IsEntry(blocks, e) && CompareKeys(e.key, k) >= 0 ==> CompareKeys(r.value.key, e.key) <= 0
    else
      NoneAtOrPast(blocks, k)
  }

  /** No entry at or past the key has its user key. */
  ghost predicate NoneAtOrPast(blocks: seq<DataBlock>, k: Bytes) {
    forall e :: IsEntry(blocks, e) && UserOf(e.key) == UserOf(k) ==> CompareKeys(e.key, k) < 0
  }

  /** An entry of another user key says so, too. */
  lemma OtherUserMeansNone(blocks: seq<DataBlock>, k: Bytes, r: KeyValue)
    requires Answers(blocks, k, Some(r)) && UserOf(r.key) != UserOf(k)
    ensures NoneAtOrPast(blocks, k)
  {
    hide CompareKeys, UserOf, IsEntry;
    forall e | IsEntry(blocks, e) && UserOf(e.key) == UserOf(k) ensures CompareKeys(e.key, k) < 0 {
      if CompareKeys(e.key, k) >= 0 {
        UserPast(k, r.key, e.key);
      }
    }
  }

  lemma InBlock(b: DataBlock, e: KeyValue)
    requires GoodBlock(b) && e in b.entries
    ensures CompareKeys(FirstKey(b.entries), e.key) <= 0 && CompareKeys(e.key, LastKey(b.entries)) <= 0
  {
    hide CompareKeys, IsBlock;
    var i :| 0 <= i < |b.entries| && b.entries[i] == e;
    KeyEqualsItself(e.key);
  }

  lemma KeyEqualsItself(k: Bytes)
    ensures CompareKeys(k, k) == 0
  {
    ComparesEqual(UserOf(k), UserOf(k));
  }

  /** Every key of an earlier block comes before the first key of a later one. */
  lemma {:induction false} EarlierBlock(blocks: seq<DataBlock>, i: nat, j: nat)
    requires GoodBlocks(blocks) && i < j < |blocks|
    ensures CompareKeys(LastKey(blocks[i].entries), FirstKey(blocks[j].entries)) < 0
    decreases j
  {
    hide CompareKeys, IsBlock;
    if i + 1 < j {
      EarlierBlock(blocks, i, j - 1);
      InBlock(blocks[j - 1], blocks[j - 1].entries[0]);
      KeysTransitive(LastKey(blocks[i].entries), FirstKey(blocks[j - 1].entries), LastKey(blocks[j - 1].entries));
      KeysTransitive(LastKey(blocks[i].entries), LastKey(blocks[j - 1].entries), FirstKey(blocks[j].entries));
    }
  }

  /** MAIN: what the index and one block give answers the lookup. Entries of earlier blocks come
      before the key; entries of later ones come after the one found, or have another user key. */
  lemma IndexAnswers(blocks: seq<DataBlock>, index: seq<KeyValue>, k: Bytes, j: nat, p: nat, r: Option<KeyValue>)
    requires GoodBlocks(blocks) && GoodIndex(blocks, index) && FirstAtOrPast(CompareKeys, index, k, j)
    requires j < |blocks| ==> FirstAtOrPast(CompareKeys, blocks[j].entries, k, p) && r == FoundAt(blocks[j].entries, p)
    requires j == |blocks| ==> r == None
    ensures Answers(blocks, k, r)
  {
    assert j <= |blocks|;
    hide CompareKeys, IsBlock, FirstAtOrPast;
    forall i, e | 0 <= i < |blocks| && e in blocks[i].entries
      ensures CompareKeys(e.key, k) >= 0 ==> if r.Some? then CompareKeys(r.value.key, e.key) <= 0 else UserOf(e.key) != UserOf(k)
    {
      if i < j {
        EntryBeforeKey(blocks, index, k, j, i, e);
      } else {
        EntryNotBeforeBlock(blocks, index, k, j, p, r, i, e);
      }
    }
    if r.Some? { FoundIsEntry(blocks, k, j, p); }
  }

  function FoundAt(es: seq<KeyValue>, p: nat): Option<KeyValue> {
    if p < |es| then Some(es[p]) else None
  }

  lemma FoundIsEntry(blocks: seq<DataBlock>, k: Bytes, j: nat, p: nat)
    requires j < |blocks| && FirstAtOrPast(CompareKeys, blocks[j].entries, k, p) && p < |blocks[j].entries|
    ensures IsEntry(blocks, blocks[j].entries[p]) && CompareKeys(blocks[j].entries[p].key, k) >= 0
  {
    hide CompareKeys;
    assert blocks[j].entries[p] in blocks[j].entries;
  }

  lemma EntryBeforeKey(blocks: seq<DataBlock>, index: seq<KeyValue>, k: Bytes, j: nat, i: nat, e: KeyValue)
    requires GoodBlocks(blocks) && GoodIndex(blocks, index) && FirstAtOrPast(CompareKeys, index, k, j)
    requires i < j && i < |blocks| && e in blocks[i].entries
    ensures CompareKeys(e.key, k) < 0
  {
    InBlock(blocks[i], e);
    IndexKeyPlace(blocks, index, i);
    hide CompareKeys, IsBlock, GoodIndexEntry;
    KeysTransitive(e.key, LastKey(blocks[i].entries), index[i].key);
    KeysTransitive(e.key, index[i].key, k);
    KeysAtMost(e.key, LastKey(blocks[i].entries), index[i].key);
  }

  lemma KeysAtMost(a: Bytes, b: Bytes, c: Bytes)
    ensures CompareKeys(a, b) <= 0 && CompareKeys(b, c) <= 0 ==> CompareKeys(a, c) <= 0
  {
    hide CompareBytes, TagOf, UserOf;
    if CompareKeys(a, b) <= 0 && CompareKeys(b, c) <= 0 {
      ComparesTransitively(UserOf(a), UserOf(b), UserOf(c));
      ComparesEqual(UserOf(a), UserOf(b));
      ComparesEqual(UserOf(b), UserOf(c));
      ComparesEqual(UserOf(a), UserOf(c));
    }
  }

  /** An index key is at or past the last key of its block and before the next block. */
  lemma IndexKeyPlace(blocks: seq<DataBlock>, index: seq<KeyValue>, i: nat)
    requires GoodBlocks(blocks) && GoodIndex(blocks, index) && i < |blocks|
    ensures CompareKeys(LastKey(blocks[i].entries), index[i].key) <= 0
    ensures i + 1 < |blocks| ==> CompareKeys(index[i].key, FirstKey(blocks[i + 1].entries)) < 0
  {
    assert GoodIndexEntry(blocks, i, index[i]);
    KeyEqualsItself(index[i].key);
    if i + 1 < |blocks| {
      SeparatorLiesBetween(LastKey(blocks[i].entries), index[i].key, FirstKey(blocks[i + 1].entries));
    }
  }

  lemma EntryNotBeforeBlock(blocks: seq<DataBlock>, index: seq<KeyValue>, k: Bytes, j: nat, p: nat, r: Option<KeyValue>, i: nat, e: KeyValue)
    requires GoodBlocks(blocks) && GoodIndex(blocks, index) && FirstAtOrPast(CompareKeys, index, k, j)
    requires j <= i < |blocks| && e in blocks[i].entries
    requires FirstAtOrPast(CompareKeys, blocks[j].entries, k, p) && r == FoundAt(blocks[j].entries, p)
    ensures CompareKeys(e.key, k) >= 0 ==> if r.Some? then CompareKeys(r.value.key, e.key) <= 0 else UserOf(e.key) != UserOf(k)
  {
    if CompareKeys(e.key, k) >= 0 {
      if r.Some? {
        FoundFirst(blocks, k, j, p, i, e);
      } else {
        NothingLater(blocks, index, k, j, i, e);
      }
    }
  }

  lemma FoundFirst(blocks: seq<DataBlock>, k: Bytes, j: nat, p: nat, i: nat, e: KeyValue)
    requires GoodBlocks(blocks) && j <= i < |blocks| && e in blocks[i].entries && CompareKeys(e.key, k) >= 0
    requires FirstAtOrPast(CompareKeys, blocks[j].entries, k, p) && p < |blocks[j].entries|
    ensures CompareKeys(blocks[j].entries[p].key, e.key) <= 0
    ensures CompareKeys(blocks[j].entries[p].key, k) >= 0
  {
    hide CompareKeys, IsBlock;
    var x := blocks[j].entries[p];
    if i == j {
      var q :| 0 <= q < |blocks[i].entries| && blocks[i].entries[q] == e;
      KeyEqualsItself(e.key);
    } else {
      assert x in blocks[j].entries;
      InBlock(blocks[j], x);
      InBlock(blocks[i], e);
      EarlierBlock(blocks, j, i);
      KeysTransitive(x.key, LastKey(blocks[j].entries), FirstKey(blocks[i].entries));
      KeysTransitive(x.key, FirstKey(blocks[i].entries), e.key);
    }
  }

  /** Past a key of another user key no entry has the user key looked for. */
  lemma UserPast(k: Bytes, x: Bytes, e: Bytes)
    requires CompareKeys(x, k) >= 0 && CompareKeys(x, e) <= 0
    ensures UserOf(x) == UserOf(k) || UserOf(e) != UserOf(k)
  {
    hide CompareBytes, TagOf, UserOf;
    ComparesEqual(UserOf(x), UserOf(k));
    ComparesEqual(UserOf(k), UserOf(x));
    ComparesEqual(UserOf(x), UserOf(e));
    if UserOf(e) == UserOf(k) {
      ComparesTransitively(UserOf(k), UserOf(x), UserOf(e));
    }
  }

  lemma NothingLater(blocks: seq<DataBlock>, index: seq<KeyValue>, k: Bytes, j: nat, i: nat, e: KeyValue)
    requires GoodBlocks(blocks) && GoodIndex(blocks, index) && FirstAtOrPast(CompareKeys, index, k, j)
    requires j <= i < |blocks| && e in blocks[i].entries && CompareKeys(e.key, k) >= 0
    requires FirstAtOrPast(CompareKeys, blocks[j].entries, k, |blocks[j].entries|)
    ensures UserOf(e.key) != UserOf(k)
  {
    hide CompareKeys, IsBlock;
    if i > j {
      var last, next := LastKey(blocks[j].entries), FirstKey(blocks[j + 1].entries);
      assert GoodIndexEntry(blocks, j, index[j]);
      assert blocks[j].entries[|blocks[j].entries| - 1].key == last;
      KeysOpposite(index[j].key, k);
      KeysOpposite(k, index[j].key);
      InBlock(blocks[i], e);
      if j + 1 < i {
        EarlierBlock(blocks, j + 1, i);
        InBlock(blocks[j + 1], blocks[j + 1].entries[0]);
        KeysTransitive(next, LastKey(blocks[j + 1].entries), FirstKey(blocks[i].entries));
        KeysTransitive(next, FirstKey(blocks[i].entries), e.key);
      }
      GapHasNoUser(last, index[j].key, next, k, e.key);
    }
  }

  lemma KeysOrder()
    ensures Transitive(CompareKeys)
  {
    hide CompareKeys;
    forall a, b, c | CompareKeys(a, b) < 0 && CompareKeys(b, c) < 0 ensures CompareKeys(a, c) < 0 {
      KeysTransitive(a, b, c);
    }
  }

  lemma IndexAscends(blocks: seq<DataBlock>, index: seq<KeyValue>)
    requires GoodBlocks(blocks) && GoodIndex(blocks, index)
    ensures Ascending(CompareKeys, index)
  {
    hide CompareKeys, IsBlock, GoodIndexEntry;
    forall i, j | 0 <= i < j < |index| ensures CompareKeys(index[i].key, index[j].key) < 0 {
      IndexKeyPlace(blocks, index, i);
      IndexKeyPlace(blocks, index, j);
      var first, last := FirstKey(blocks[i + 1].entries), LastKey(blocks[j].entries);
      InBlock(blocks[j], blocks[j].entries[0]);
      if i + 1 < j {
        InBlock(blocks[i + 1], blocks[i + 1].entries[0]);
        EarlierBlock(blocks, i + 1, j);
        KeysTransitive(first, LastKey(blocks[i + 1].entries), FirstKey(blocks[j].entries));
        KeysTransitive(first, FirstKey(blocks[j].entries), last);
      }
      KeysTransitive(index[i].key, first, last);
      KeysTransitive(index[i].key, last, index[j].key);
    }
  }

  /** InternalFilterPolicy: filters are made of user keys. */
  function UserKeys(keys: seq<Bytes>): (r: seq<Bytes>)
    ensures |r| == |keys| && forall i :: 0 <= i < |r| ==> r[i] == UserOf(keys[i])
  {
    seq(|keys|, i requires 0 <= i < |keys| => UserOf(keys[i]))
  }

  function InternalPolicy(policy: Policy): Policy {
    Policy(keys => policy.create(UserKeys(keys)), (key, filter) => policy.mayMatch(UserOf(key), filter))
  }

  /** Some block that begins in the g-th 2 KB of the file has an entry with the key. */
  ghost predicate KeyBegins(blocks: seq<DataBlock>, g: nat, key: Bytes) {
    exists j, i :: 0 <= j < |blocks| && 0 <= i < |blocks[j].entries| && 2048 * g <= blocks[j].offset < 2048 * (g + 1) && blocks[j].entries[i].key == key
  }

  /** The keys of a filter are those of the blocks that begin at its place. */
  ghost predicate Filtered(blocks: seq<DataBlock>, groups: seq<seq<Bytes>>) {
    forall g: nat, key :: KeyBegins(blocks, g, key) <==> g < |groups| && key in groups[g]
  }

  ghost predicate KeyFiltered(offset: nat, key: Bytes, groups: seq<seq<Bytes>>) {
    offset / BASE < |groups| && key in groups[offset / BASE]
  }

  lemma EntryFiltered(blocks: seq<DataBlock>, groups: seq<seq<Bytes>>, j: nat, i: nat)
    requires Filtered(blocks, groups) && j < |blocks| && i < |blocks[j].entries|
    ensures KeyFiltered(blocks[j].offset, blocks[j].entries[i].key, groups)
  {
    assert KeyBegins(blocks, blocks[j].offset / BASE, blocks[j].entries[i].key);
  }

  /** A filter that denies a key leaves no entry of its user key in the block. */
  lemma DeniedMeansAbsent(policy: Policy, blocks: seq<DataBlock>, groups: seq<seq<Bytes>>, j: nat, k: Bytes)
    requires Sound(policy) && Filtered(blocks, groups) && j < |blocks| && blocks[j].entries != []
    requires !(blocks[j].offset / BASE < |groups| ==>
      InternalPolicy(policy).mayMatch(k, FilterOf(InternalPolicy(policy), groups[blocks[j].offset / BASE])))
    ensures forall i :: 0 <= i < |blocks[j].entries| ==> UserOf(blocks[j].entries[i].key) != UserOf(k)
  {
    EntryFiltered(blocks, groups, j, 0);
    var group := groups[blocks[j].offset / BASE];
    forall i | 0 <= i < |blocks[j].entries| ensures UserOf(blocks[j].entries[i].key) != UserOf(k) {
      EntryFiltered(blocks, groups, j, i);
      var g :| 0 <= g < |group| && group[g] == blocks[j].entries[i].key;
      assert UserKeys(group)[g] == UserOf(blocks[j].entries[i].key);
      assert policy.mayMatch(UserKeys(group)[g], policy.create(UserKeys(group)));
    }
  }

  /** A block without the user key may be skipped. */
  lemma SkippedAnswers(blocks: seq<DataBlock>, index: seq<KeyValue>, k: Bytes, j: nat)
    requires GoodBlocks(blocks) && GoodIndex(blocks, index) && FirstAtOrPast(CompareKeys, index, k, j) && j < |blocks|
    requires forall i :: 0 <= i < |blocks[j].entries| ==> UserOf(blocks[j].entries[i].key) != UserOf(k)
    ensures Answers(blocks, k, None)
  {
    hide CompareKeys, IsBlock, GoodIndexEntry;
    var p := FirstExists(blocks[j].entries, k);
    var r := FoundAt(blocks[j].entries, p);
    IndexAnswers(blocks, index, k, j, p, r);
    if r.Some? {
      assert r.value == blocks[j].entries[p];
      OtherUserMeansNone(blocks, k, r.value);
    }
  }

  lemma {:induction false} FirstExists(es: seq<KeyValue>, k: Bytes) returns (p: nat)
    requires Ascending(CompareKeys, es)
    ensures FirstAtOrPast(CompareKeys, es, k, p)
  {
    KeysOrder();
    hide CompareKeys;
    p := 0;
    while p < |es| && CompareKeys(es[p].key, k) < 0
      invariant p <= |es| && forall j :: 0 <= j < p ==> CompareKeys(es[j].key, k) < 0
    {
      p := p + 1;
    }
    FirstFound(CompareKeys, es, k, p);
  }

  lemma FoundInside(cmp: Comparator, es: seq<KeyValue>, k: Bytes, p: nat)
    requires FirstAtOrPast(cmp, es, k, p)
    ensures p <= |es| && (FoundAt(es, p) == None <==> p == |es|)
  {
  }

  class Table {
    const file: Bytes
    const crc: Checksum
    const verify: bool
    const indexData: Bytes
    const policy: Policy
    const filter: Option<FilterBlockReader>
    ghost const blocks: seq<DataBlock>
    ghost const index: seq<KeyValue>
    ghost const indexRestarts: seq<nat>
    ghost const groups: seq<seq<Bytes>>

    constructor (file: Bytes, crc: Checksum, verify: bool, indexData: Bytes, policy: Policy, filter: Option<FilterBlockReader>,
                 ghost blocks: seq<DataBlock>, ghost index: seq<KeyValue>, ghost indexRestarts: seq<nat>, ghost groups: seq<seq<Bytes>>)
      ensures this.file == file && this.crc == crc && this.indexData == indexData && this.policy == policy && this.filter == filter
      ensures this.blocks == blocks && this.index == index && this.indexRestarts == indexRestarts && this.groups == groups
    {
      this.file, this.crc, this.verify, this.indexData, this.policy, this.filter := file, crc, verify, indexData, policy, filter;
      this.blocks, this.index, this.indexRestarts, this.groups := blocks, index, indexRestarts, groups;
    }

    ghost predicate Valid() {
      && GoodTable(file, crc, blocks, index)
      && IsBlock(indexData, index, indexRestarts)
      && (filter.Some? ==> filter.value.Valid() && GoodFilter(policy, filter.value.policy, filter.value.data, blocks, groups))
    }

    /** The filter of the block's place does not match the key. */
    ghost predicate Denied(j: nat, k: Bytes)
      requires j < |blocks|
    {
      var g, internal := blocks[j].offset / BASE, InternalPolicy(policy);
      filter.Some? && g < |groups| && !internal.mayMatch(k, FilterOf(internal, groups[g]))
    }

    /** What is handed over comes from the one block that the index names, unless the filter denies the key. */
    ghost predicate LooksInto(k: Bytes, r: Option<KeyValue>) {
      exists j: nat :: FirstAtOrPast(CompareKeys, index, k, j) && j <= |blocks| &&
                  if j == |blocks| || Denied(j, k) then r == None
                  else exists p: nat :: FirstAtOrPast(CompareKeys, blocks[j].entries, k, p) && r == FoundAt(blocks[j].entries, p)
    }

    lemma SameLength(j: nat)
      requires Valid() && j <= |index|
      ensures |index| == |blocks|
    {
      hide IsBlock, StoredAt, GoodFilter, GoodBlocks;
    }

    /** Table::InternalGet looks into one data block at most, and answers for all of them. */
    method InternalGet(k: Bytes) returns (r: Option<KeyValue>)
      requires Valid()
      ensures Answers(blocks, k, r) && LooksInto(k, r)
    {
      IndexAscends(blocks, index);
      KeysOrder();
      SameLength(0);
      hide Transitive, CompareKeys, IsBlock, GoodBlocks, GoodIndex, Answers, StoredAt, Ascending, FirstAtOrPast, GoodFilter, Denied, FoundAt;
      ghost var j;
      var entry;
      entry, j := SeekInBlock(CompareKeys, indexData, k, index, indexRestarts);
      FoundInside(CompareKeys, index, k, j);
      if entry.None? {
        PastIndex(blocks, index, k, j);
        return None;
      }
      IndexHandle(file, crc, blocks, index, k, j);
      var handle := DecodeHandle(entry.value.value).value.0;
      var may := FilterMayMatch(handle.offset, k, j);
      if !may {
        SkippedAnswers(blocks, index, k, j);
        return None;
      }
      var contents := ReadBlock(file, crc, verify, handle, blocks[j].contents);
      ghost var p;
      r, p := SeekInBlock(CompareKeys, contents.value, k, blocks[j].entries, blocks[j].restarts);
      IndexAnswers(blocks, index, k, j, p, r);
    }

    method FilterMayMatch(offset: nat, k: Bytes, ghost j: nat) returns (may: bool)
      requires Valid() && j < |blocks| && offset == blocks[j].offset
      ensures may <==> !Denied(j, k)
      ensures !may ==> forall i :: 0 <= i < |blocks[j].entries| ==> UserOf(blocks[j].entries[i].key) != UserOf(k)
    {
      if filter.None? { return true; }
      hide CompareKeys, IsBlock, Sound, Filtered, IsFilterBlock, FilterOf, GoodIndex;
      assert GoodBlock(blocks[j]);
      may := filter.value.KeyMayMatch(offset, k, groups);
      if !may {
        DeniedMeansAbsent(policy, blocks, groups, j, k);
      }
    }
  }

  /** The filter block was made for the entries, over user keys, by a policy that denies nothing it
      was given. */
  ghost predicate GoodFilter(policy: Policy, internal: Policy, data: Bytes, blocks: seq<DataBlock>, groups: seq<seq<Bytes>>) {
    Sound(policy) && internal == InternalPolicy(policy) && IsFilterBlock(internal, groups, data) && Filtered(blocks, groups)
  }

  /** A cursor over one block, sent to a key. */
  method SeekInBlock(cmp: Comparator, data: Bytes, k: Bytes, ghost es: seq<KeyValue>, ghost restarts: seq<nat>)
    returns (r: Option<KeyValue>, ghost p: nat)
    requires IsBlock(data, es, restarts) && Transitive(cmp) && Ascending(cmp, es)
    ensures FirstAtOrPast(cmp, es, k, p) && r == FoundAt(es, p)
  {
    hide IsBlock, Ascending, Transitive;
    var iter := new Iter(cmp, data, es, restarts);
    p := iter.Seek(k);
    var valid := iter.IsValid();
    if !valid { return None, p; }
    var key := iter.CurrentKey();
    var value := iter.CurrentValue();
    r := Some(KeyValue(key, value));
  }

  ghost predicate GoodTable(file: Bytes, crc: Checksum, blocks: seq<DataBlock>, index: seq<KeyValue>) {
    && GoodBlocks(blocks) && GoodIndex(blocks, index) && |file| < TWO_TO_THE_64
    && (forall j :: 0 <= j < |blocks| ==> StoredAt(file, crc, blocks[j].offset, blocks[j].contents))
    && (forall j :: 0 <= j < |blocks| ==> |blocks[j].contents| < TWO_TO_THE_32)
  }

  lemma PastIndex(blocks: seq<DataBlock>, index: seq<KeyValue>, k: Bytes, j: nat)
    requires GoodBlocks(blocks) && GoodIndex(blocks, index) && FirstAtOrPast(CompareKeys, index, k, j) && j >= |index|
    ensures Answers(blocks, k, None)
  {
    IndexAnswers(blocks, index, k, j, 0, None);
  }

  lemma IndexHandle(file: Bytes, crc: Checksum, blocks: seq<DataBlock>, index: seq<KeyValue>, k: Bytes, j: nat)
    requires GoodTable(file, crc, blocks, index) && j < |index|
    ensures j < |blocks| && DecodeHandle(index[j].value) == Some((HandleOf(blocks[j]), []))
    ensures StoredAt(file, crc, blocks[j].offset, blocks[j].contents)
    ensures blocks[j].entries != [] && Ascending(CompareKeys, blocks[j].entries)
    ensures IsBlock(blocks[j].contents, blocks[j].entries, blocks[j].restarts)
  {
    hide CompareKeys, IsBlock, EncodeHandle, DecodeHandle;
    assert GoodIndexEntry(blocks, j, index[j]) && GoodBlock(blocks[j]);
    HandleRoundTrip(HandleOf(blocks[j]), []);
    assert index[j].value + [] == index[j].value;
  }

  const MAGIC: nat := 0xdb4775248b80fb57
  const HANDLES_SIZE := 40
  const FOOTER_SIZE := 48

  /** The fixed-size end of a table file: two handles, padding and the magic number. */
  function Footer(meta: Handle, index: Handle): (r: Bytes)
    ensures |r| == FOOTER_SIZE
  {
    HandleLength(meta);
    HandleLength(index);
    var handles := EncodeHandle(meta) + EncodeHandle(index);
    handles + Zeros(HANDLES_SIZE - |handles|) + EncodeFixed64(MAGIC)
  }

  function DecodeFooter(s: Bytes): Option<(Handle, Handle)>
    requires |s| == FOOTER_SIZE
  {
    if DecodeFixed64(s[HANDLES_SIZE..]) != MAGIC then None
    else match DecodeHandle(s)
      case None => None
      case Some((meta, rest)) =>
        match DecodeHandle(rest)
        case None => None
        case Some((index, _)) => Some((meta, index))
  }

  lemma FooterRoundTrip(meta: Handle, index: Handle)
    requires meta.offset < TWO_TO_THE_64 && meta.size < TWO_TO_THE_64 && index.offset < TWO_TO_THE_64 && index.size < TWO_TO_THE_64
    ensures DecodeFooter(Footer(meta, index)) == Some((meta, index))
  {
    hide EncodeHandle, DecodeHandle, EncodeFixed64, DecodeFixed64;
    HandleLength(meta);
    HandleLength(index);
    var handles := EncodeHandle(meta) + EncodeHandle(index);
    var rest := Zeros(HANDLES_SIZE - |handles|) + EncodeFixed64(MAGIC);
    var s := Footer(meta, index);
    assert s == EncodeHandle(meta) + (EncodeHandle(index) + rest);
    HandleRoundTrip(meta, EncodeHandle(index) + rest);
    HandleRoundTrip(index, rest);
    assert s[HANDLES_SIZE..] == EncodeFixed64(MAGIC) + [];
    Fixed64RoundTrip(MAGIC, []);
  }

  /** The key of the filter in the metaindex block: "filter." and the name of the policy. */
  function FilterName(name: Bytes): Bytes {
    [0x66, 0x69, 0x6c, 0x74, 0x65, 0x72, 0x2e] + name
  }

  // Everything a table file holds besides its data blocks, and where.
  datatype Image = Image(blocks: seq<DataBlock>, index: seq<KeyValue>, indexRestarts: seq<nat>, indexData: Bytes, indexOffset: nat,
                         meta: seq<KeyValue>, metaRestarts: seq<nat>, metaData: Bytes, metaOffset: nat,
                         groups: seq<seq<Bytes>>, filterData: Bytes, filterOffset: nat)

  ghost predicate HasFilter(file: Bytes, crc: Checksum, policy: Policy, name: Bytes, im: Image) {
    && im.meta == [KeyValue(FilterName(name), EncodeHandle(Handle(im.filterOffset, |im.filterData|)))]
    && StoredAt(file, crc, im.filterOffset, im.filterData)
    && IsFilterBlock(InternalPolicy(policy), im.groups, im.filterData) && Filtered(im.blocks, im.groups)
  }

  /** A complete table file. */
  ghost predicate GoodImage(file: Bytes, crc: Checksum, im: Image) {
    && GoodTable(file, crc, im.blocks, im.index)
    && StoredAt(file, crc, im.indexOffset, im.indexData) && IsBlock(im.indexData, im.index, im.indexRestarts)
    && StoredAt(file, crc, im.metaOffset, im.metaData) && IsBlock(im.metaData, im.meta, im.metaRestarts) && |im.meta| <= 1
    && |file| >= FOOTER_SIZE
    && file[|file| - FOOTER_SIZE..] == Footer(Handle(im.metaOffset, |im.metaData|), Handle(im.indexOffset, |im.indexData|))
  }

  lemma BytesOrder()
    ensures Transitive(CompareBytes)
  {
    hide CompareBytes;
    forall a, b, c | CompareBytes(a, b) < 0 && CompareBytes(b, c) < 0 ensures CompareBytes(a, c) < 0 {
      ComparesTransitively(a, b, c);
    }
  }

  /** The metaindex block names a filter of that policy name. */
  predicate Names(im: Image, name: Bytes) {
    im.meta != [] && im.meta[0].key == FilterName(name)
  }

  /** Table::ReadMeta and ReadFilter: the filter block, if the metaindex block names one for the policy.
      A policy name stands for one policy. */
  method ReadMeta(file: Bytes, crc: Checksum, verify: bool, metaData: Bytes, policy: Policy, name: Bytes, ghost im: Image)
    returns (filter: Option<FilterBlockReader>)
    requires metaData == im.metaData && IsBlock(im.metaData, im.meta, im.metaRestarts) && |im.meta| <= 1 && |file| < TWO_TO_THE_64
    requires Names(im, name) ==> HasFilter(file, crc, policy, name, im)
    ensures filter.Some? <==> Names(im, name)
    ensures filter.Some? ==> filter.value.Valid() && filter.value.policy == InternalPolicy(policy) && filter.value.data == im.filterData
  {
    BytesOrder();
    OneAscends(im.meta);
    if Names(im, name) { FilterHandle(file, crc, policy, name, im); }
    hide IsBlock, StoredAt, HasFilter, DecodeHandle, Transitive, Ascending, CompareBytes, FirstAtOrPast, FilterBlockReader.Valid, FilterName;
    ghost var p;
    var entry;
    entry, p := SeekInBlock(CompareBytes, metaData, FilterName(name), im.meta, im.metaRestarts);
    MetaFound(im.meta, FilterName(name), p);
    if entry.None? || entry.value.key != FilterName(name) {
      return None;
    }
    var handle := DecodeHandle(entry.value.value).value.0;
    var contents := ReadBlock(file, crc, verify, handle, im.filterData);
    var reader := new FilterBlockReader(InternalPolicy(policy), contents.value);
    filter := Some(reader);
  }

  lemma OneAscends(meta: seq<KeyValue>)
    requires |meta| <= 1
    ensures Ascending(CompareBytes, meta)
  {
  }

  lemma FilterHandle(file: Bytes, crc: Checksum, policy: Policy, name: Bytes, im: Image)
    requires HasFilter(file, crc, policy, name, im) && |file| < TWO_TO_THE_64
    ensures |im.meta| == 1 && im.meta[0].key == FilterName(name) && Ascending(CompareBytes, im.meta)
    ensures DecodeHandle(im.meta[0].value) == Some((Handle(im.filterOffset, |im.filterData|), []))
    ensures StoredAt(file, crc, im.filterOffset, im.filterData)
  {
    hide IsFilterBlock, Filtered, EncodeHandle, DecodeHandle, CompareBytes;
    var h := Handle(im.filterOffset, |im.filterData|);
    HandleRoundTrip(h, []);
    assert EncodeHandle(h) + [] == EncodeHandle(h);
  }

  lemma MetaFound(meta: seq<KeyValue>, name: Bytes, p: nat)
    requires |meta| <= 1 && FirstAtOrPast(CompareBytes, meta, name, p)
    ensures meta != [] && meta[0].key == name ==> p == 0
  {
    ComparesEqual(name, name);
  }

  /** Table::Open on a complete table file: the filter is read exactly if a policy is given and the file
      has a filter of its name. */
  method Open(file: Bytes, crc: Checksum, verify: bool, policy: Option<Policy>, name: Bytes, ghost im: Image) returns (t: Option<Table>)
    requires GoodImage(file, crc, im)
    requires policy.Some? && Names(im, name) ==> Sound(policy.value) && HasFilter(file, crc, policy.value, name, im)
    ensures t.Some? && t.value.Valid() && t.value.blocks == im.blocks
    ensures t.value.filter.Some? <==> policy.Some? && Names(im, name)
  {
    ImageFits(file, crc, im);
    hide IsBlock, StoredAt, GoodTable, Footer, IsFilterBlock, Filtered, Sound, EncodeHandle, FilterName;
    FooterRoundTrip(Handle(im.metaOffset, |im.metaData|), Handle(im.indexOffset, |im.indexData|));
    var footer := DecodeFooter(file[|file| - FOOTER_SIZE..]);
    if footer.None? { return None; }
    var (metaHandle, indexHandle) := footer.value;
    var indexData := ReadBlock(file, crc, verify, indexHandle, im.indexData);
    if indexData.None? { return None; }
    var filter: Option<FilterBlockReader> := None;
    if policy.Some? {
      var metaData := ReadBlock(file, crc, verify, metaHandle, im.metaData);
      filter := ReadMeta(file, crc, verify, metaData.value, policy.value, name, im);
    }
    var table := new Table(file, crc, verify, indexData.value, if policy.Some? then policy.value else Policy(keys => [], (k, f) => true),
                           filter, im.blocks, im.index, im.indexRestarts, im.groups);
    t := Some(table);
  }

  lemma ImageFits(file: Bytes, crc: Checksum, im: Image)
    requires GoodImage(file, crc, im)
    ensures |file| < TWO_TO_THE_64 && im.metaOffset + |im.metaData| <= |file| && im.indexOffset + |im.indexData| <= |file|
  {
  }
}
