/** DB::NewIterator (db/db_impl.cc): one child for each memtable, each level-0 file and each deeper
    level, merged, and seen at one sequence number. What such an iterator lists is what reads return. */
module NewIterators {
  import opened Wrappers
  import opened DbFormat
  import opened Versions
  import opened VersionBuilder
  import opened Compactions
  import opened States
  import opened Structure
  import opened Lookup
  import opened Merger
  import opened DbIter
  import Store
  import TwoLevel

  ghost predicate Apart(a: set<Entry>, b: set<Entry>) {
    forall x, y :: x in a && y in b ==> x.key != y.key
  }

  /** Children that can be merged, holding exactly the entries `es`. */
  ghost predicate Covers(children: seq<seq<Entry>>, es: set<Entry>) {
    Mergeable(children) && forall e :: e in es <==> exists c :: 0 <= c < |children| && e in children[c]
  }

  lemma AddChild(children: seq<seq<Entry>>, es: set<Entry>, child: seq<Entry>)
    requires Covers(children, es) && Sorted(child) && Apart(es, Entries(child))
    ensures Covers(children + [child], es + Entries(child))
  {
    var more := children + [child];
    forall c, e | 0 <= c < |children| && e in children[c] ensures e in es {}
    forall c, d, x: Entry, y: Entry | 0 <= c < |more| && 0 <= d < |more| && c != d && x in more[c] && y in more[d]
      ensures x.key != y.key
    {
      assert c == |children| ==> x in Entries(child);
      assert d == |children| ==> y in Entries(child);
    }
    forall e ensures e in es + Entries(child) <==> exists c :: 0 <= c < |more| && e in more[c] {
      if e in es {
        var c :| 0 <= c < |children| && e in children[c];
        assert e in more[c];
      }
      if e in child { assert e in more[|children|]; }
      if c :| 0 <= c < |more| && e in more[c] {
        assert c < |children| ==> e in children[c];
      }
    }
  }

  /** Everything in the first `n` places a read looks. */
  ghost function Upto(st: State, n: nat): set<Entry>
    requires n <= NUM_SOURCES && |st.levels| == NUM_LEVELS
  {
    set i, e | 0 <= i < n && e in Source(st, i) :: e
  }

  lemma NextSource(st: State, n: nat)
    requires Inv(st) && n < NUM_SOURCES
    ensures Upto(st, n + 1) == Upto(st, n) + Source(st, n) && Apart(Upto(st, n), Source(st, n))
  {
    forall x, y | x in Upto(st, n) && y in Source(st, n) ensures x.key != y.key {
      var i :| 0 <= i < n && x in Source(st, i);
      assert Newer(Source(st, i), Source(st, n));
    }
    forall e ensures e in Upto(st, n + 1) <==> e in Upto(st, n) || e in Source(st, n) {
    }
  }

  /** Two level-0 files share no key. */
  lemma FilesApart(st: State, j: nat, i: nat)
    requires Inv(st) && j < i < |st.levels[0]|
    ensures Apart(Entries(st.levels[0][j].entries), Entries(st.levels[0][i].entries))
  {
    var f, g := st.levels[0][j], st.levels[0][i];
    assert BySmallestKey(f, g) && f in st.levels[0] && g in st.levels[0];
    NumberNames(st, 0, f, 0, g);
    assert Newer(Entries(f.entries), Entries(g.entries)) || Newer(Entries(g.entries), Entries(f.entries));
  }

  lemma FileApartFromAbove(st: State, i: nat)
    requires Inv(st) && i < |st.levels[0]|
    ensures Sorted(st.levels[0][i].entries) && Apart(Upto(st, 2), Entries(st.levels[0][i].entries))
  {
    assert st.levels[0][i] in st.levels[0] && WellFormed(st.levels[0][i]);
    NextSource(st, 2);
  }

  lemma LevelGrows(files: seq<File>, i: nat)
    requires i < |files|
    ensures LevelEntries(files[..i + 1]) == LevelEntries(files[..i]) + Entries(files[i].entries)
    ensures forall x :: x in LevelEntries(files[..i]) <==> exists j :: 0 <= j < i && x in files[j].entries
  {
    assert files[..i + 1] == files[..i] + [files[i]];
  }

  /** A level-0 file shares no key with the memtables or with the files before it. */
  lemma NextFile(st: State, i: nat)
    requires Inv(st) && i < |st.levels[0]|
    ensures var file := st.levels[0][i]; var before := Upto(st, 2) + LevelEntries(st.levels[0][..i]);
      Sorted(file.entries) && Apart(before, Entries(file.entries)) &&
      Upto(st, 2) + LevelEntries(st.levels[0][..i + 1]) == before + Entries(file.entries)
  {
    var files := st.levels[0];
    FileApartFromAbove(st, i);
    LevelGrows(files, i);
    hide Inv, Upto, LevelEntries, Sorted;
    forall x, y | x in LevelEntries(files[..i]) && y in Entries(files[i].entries) ensures x.key != y.key {
      var j :| 0 <= j < i && x in files[j].entries;
      FilesApart(st, j, i);
      assert x in Entries(files[j].entries);
    }
  }

  lemma EmptyLevel(st: State, l: nat)
    requires |st.levels| == NUM_LEVELS && l < NUM_LEVELS && st.levels[l] == []
    ensures Source(st, l + 2) == {}
  {
  }

  /** Version::AddIterators: level-0 files one by one, every other level that has files as one sequence. */
  method AddIterators(ghost st: State, levels: seq<seq<File>>, list0: seq<seq<Entry>>) returns (list: seq<seq<Entry>>)
    requires |levels| == NUM_LEVELS && Inv(st) && levels == st.levels && Covers(list0, Upto(st, 2))
    ensures Covers(list, All(st))
  {
    hide Covers, Inv, Upto, Sorted, Apart;
    list := list0;
    assert Upto(st, 2) + LevelEntries(levels[0][..0]) == Upto(st, 2);
    for i := 0 to |levels[0]|
      invariant Covers(list, Upto(st, 2) + LevelEntries(levels[0][..i]))
    {
      NextFile(st, i);
      AddChild(list, Upto(st, 2) + LevelEntries(levels[0][..i]), levels[0][i].entries);
      list := list + [levels[0][i].entries];
    }
    assert levels[0][..|levels[0]|] == levels[0];
    NextSource(st, 2);
    for level := 1 to NUM_LEVELS
      invariant Covers(list, Upto(st, level + 2))
    {
      NextSource(st, level + 2);
      if levels[level] != [] {
        DeepLevel(st, level);
        AddChild(list, Upto(st, level + 2), Flatten(levels[level]));
        list := list + [Flatten(levels[level])];
      } else {
        EmptyLevel(st, level);
        assert Upto(st, level + 2) + {} == Upto(st, level + 2);
      }
    }
    UptoAll(st);
  }

  lemma DeepLevel(st: State, level: nat)
    requires Inv(st) && 1 <= level < NUM_LEVELS
    ensures Sorted(Flatten(st.levels[level])) && Entries(Flatten(st.levels[level])) == Source(st, level + 2)
  {
    Store.FlattenSorted(st.levels[level]);
  }

  lemma UptoAll(st: State)
    requires |st.levels| == NUM_LEVELS
    ensures Upto(st, NUM_SOURCES) == All(st)
  {
  }

  /** A level read through its index of files (NewConcatenatingIterator) is that sequence. */
  lemma ConcatenatedIs(files: seq<File>, name: nat -> Value, blocks: TwoLevel.Blocks)
    requires Disjoint(files) && TwoLevel.FileBlocks(files, name, blocks)
    ensures TwoLevel.All(TwoLevel.FileIndex(files, name), blocks) == Flatten(files)
  {
    var all := TwoLevel.All(TwoLevel.FileIndex(files, name), blocks);
    TwoLevel.LevelIsIndexed(files, name, blocks);
    Store.FlattenSorted(files);
    forall e ensures e in all <==> e in Flatten(files) {
      assert e in Flatten(files) <==> e in Entries(Flatten(files));
    }
    SortedUnique(all, Flatten(files));
  }

  /** The memtables come first. */
  lemma MemTables(st: State)
    requires Inv(st)
    ensures Covers([st.mem], Upto(st, 1))
    ensures st.imm.None? ==> Upto(st, 2) == Upto(st, 1)
    ensures st.imm.Some? ==> Sorted(st.imm.value) && Apart(Upto(st, 1), Entries(st.imm.value)) &&
                             Upto(st, 2) == Upto(st, 1) + Entries(st.imm.value)
  {
    NextSource(st, 0);
    NextSource(st, 1);
    AddChild([], {}, st.mem);
    assert [] + [st.mem] == [st.mem];
    assert Upto(st, 0) == {} && {} + Entries(st.mem) == Upto(st, 1);
  }

  /** DBImpl::NewInternalIterator: a merge of everything stored. */
  method NewInternalIterator(db: Store.DB) returns (it: MergingIterator)
    requires db.Valid()
    ensures fresh(it) && fresh(it.positions) && it.Valid() && it.at == None
    ensures Sorted(it.merged) && Entries(it.merged) == All(db.Abs())
  {
    ghost var st := db.Abs();
    MemTables(st);
    var list := [db.mem];
    if db.imm.Some? {
      AddChild(list, Upto(st, 1), db.imm.value);
      list := list + [db.imm.value];
    }
    list := AddIterators(st, db.levels, list);
    it := new MergingIterator(list);
    assert forall e :: e in Entries(it.merged) <==> e in it.merged;
  }

  /** DBImpl::NewIterator: at the snapshot given, or at the last sequence number. */
  method NewIterator(db: Store.DB, snapshot: Option<SequenceNumber>) returns (it: DBIter)
    requires db.Valid()
    ensures fresh(it) && fresh(it.iter) && fresh(it.iter.positions) && it.Valid() && it.at == None
    ensures it.sequence == if snapshot.Some? then snapshot.value else db.lastSequence
    ensures Sorted(it.iter.merged) && Entries(it.iter.merged) == All(db.Abs())
  {
    var internal := NewInternalIterator(db);
    var s: SequenceNumber := if snapshot.Some? then snapshot.value else db.lastSequence;
    it := new DBIter(internal, s);
  }

  /** What an iterator shows, from first to last. */
  ghost function Shown(es: seq<Entry>, s: nat): (r: seq<(UserKey, Value)>)
    ensures |r| == |LiveList(es, s)|
  {
    LiveIndicesAre(es, s, |es|);
    seq(|LiveList(es, s)|, i requires 0 <= i < |LiveList(es, s)| =>
      (es[LiveList(es, s)[i]].key.user, es[LiveList(es, s)[i]].value))
  }

  lemma ShownAt(es: seq<Entry>, s: nat, r: nat)
    requires r < |LiveList(es, s)|
    ensures |Shown(es, s)| == |LiveList(es, s)| && LiveList(es, s)[r] < |es| && Live(es, s, LiveList(es, s)[r])
    ensures Shown(es, s)[r] == (es[LiveList(es, s)[r]].key.user, es[LiveList(es, s)[r]].value)
  {
    LiveIndicesAre(es, s, |es|);
  }

  /** What is shown is what the live entries hold. */
  lemma ShownIsLive(es: seq<Entry>, s: nat, user: UserKey, value: Value)
    ensures (user, value) in Shown(es, s) <==>
      exists r :: 0 <= r < |LiveList(es, s)| && LiveList(es, s)[r] < |es| && es[LiveList(es, s)[r]].key.user == user && es[LiveList(es, s)[r]].value == value
  {
    var live, shown := LiveList(es, s), Shown(es, s);
    hide LiveList, Shown, Live;
    if (user, value) in shown {
      var r :| 0 <= r < |shown| && shown[r] == (user, value);
      ShownAt(es, s, r);
    }
    if r :| 0 <= r < |live| && live[r] < |es| && es[live[r]].key.user == user && es[live[r]].value == value {
      ShownAt(es, s, r);
    }
  }

  lemma ShownAscends(es: seq<Entry>, s: nat, i: nat, j: nat)
    requires Sorted(es) && i < j < |Shown(es, s)|
    ensures Shown(es, s)[i].0 < Shown(es, s)[j].0
  {
    var live := LiveList(es, s);
    LiveIndicesAre(es, s, |es|);
    ShownAt(es, s, i);
    ShownAt(es, s, j);
    DbIter.UsersAscend(es, live[i], live[j]);
  }

  /** An iterator over everything stored shows each key that a read at its sequence number finds,
      with the value the read returns, once, in key order, and no other. */
  lemma ScanIsReads(st: State, es: seq<Entry>, s: nat)
    requires Inv(st) && Sorted(es) && Entries(es) == All(st)
    ensures forall user, value :: (user, value) in Shown(es, s) <==> Read(All(st), user, s) == Found(value)
    ensures forall i, j :: 0 <= i < j < |Shown(es, s)| ==> Shown(es, s)[i].0 < Shown(es, s)[j].0
  {
    AllUnique(st);
    hide Inv, LiveList, Shown, All, Read, Sorted, Unique;
    forall user: UserKey, value: Value ensures (user, value) in Shown(es, s) <==> Read(All(st), user, s) == Found(value) {
      LiveIsRead(es, s, user, value);
      ShownIsLive(es, s, user, value);
    }
    forall i, j | 0 <= i < j < |Shown(es, s)| ensures Shown(es, s)[i].0 < Shown(es, s)[j].0 {
      ShownAscends(es, s, i, j);
    }
  }
}
