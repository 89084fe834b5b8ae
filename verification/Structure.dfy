/** Every step keeps the structural invariant: levels stay ordered and disjoint, and shallower
    sources keep strictly newer entries of every user key. */
module Structure {
  import opened Wrappers
  import opened DbFormat
  import opened Versions
  import opened VersionBuilder
  import opened Boundary
  import opened Inputs
  import opened Compactions
  import opened States
  import opened Steps

  ghost predicate Apart(f: File, g: File) {
    Before(f.largest, g.smallest) || Before(g.largest, f.smallest)
  }

  /** Key order and pairwise separation together make a level disjoint. */
  lemma DisjointFromPairs(files: seq<File>)
    requires Ordered(files) && forall f :: f in files ==> WellFormed(f)
    requires forall f, g :: f in files && g in files && f != g ==> Apart(f, g)
    ensures Disjoint(files)
  {
    forall i, j | 0 <= i < j < |files| ensures Before(files[i].largest, files[j].smallest) {
      FileRange(files[i]);
      FileRange(files[j]);
      assert BySmallestKey(files[i], files[j]);
      assert files[i] != files[j];
      assert Apart(files[i], files[j]);
      OneSide(files[i], files[j]);
    }
  }

  lemma OneSide(f: File, g: File)
    requires Apart(f, g) && BySmallestKey(f, g) && AtOrBefore(f.smallest, f.largest) && AtOrBefore(g.smallest, g.largest)
    ensures Before(f.largest, g.smallest)
  {
    CompareMeaning(f.smallest, g.smallest);
    CompareMeaning(g.smallest, g.largest);
    CompareMeaning(g.largest, f.smallest);
  }

  lemma PairsFromDisjoint(files: seq<File>, f: File, g: File)
    requires Disjoint(files) && f in files && g in files && f != g
    ensures Apart(f, g)
  {
    OneFirst(files, f, g);
  }

  /** A level stays disjoint when some files leave and files apart from the rest arrive. */
  lemma UpdateDisjoint(before: seq<File>, leaving: seq<File>, arriving: seq<File>, after: seq<File>)
    requires Disjoint(before) && Disjoint(arriving) && Ordered(after)
    requires Members(after) == Members(before) - Members(leaving) + Members(arriving)
    requires forall f, g :: f in before && f !in leaving && g in arriving ==> Apart(f, g)
    ensures Disjoint(after)
  {
    forall f | f in after ensures WellFormed(f) && (f in arriving || (f in before && f !in leaving)) {
      assert f in Members(after);
    }
    forall f, g | f in after && g in after && f != g ensures Apart(f, g) {
      if f in arriving && g in arriving {
        PairsFromDisjoint(arriving, f, g);
      } else if f !in arriving && g !in arriving {
        PairsFromDisjoint(before, f, g);
      }
    }
    DisjointFromPairs(after);
  }

  /** No entry is stored twice within a level. */
  lemma OneFilePerEntry(st: State, level: nat, f: File, g: File, e: Entry)
    requires Inv(st) && level < NUM_LEVELS && f in st.levels[level] && g in st.levels[level] && f != g
    requires e in f.entries
    ensures e !in g.entries
  {
    if level == 0 {
      NumberNames(st, 0, f, 0, g);
      assert e in Entries(f.entries);
      assert Newer(Entries(f.entries), Entries(g.entries)) || Newer(Entries(g.entries), Entries(f.entries));
      assert e !in Entries(g.entries);
    } else {
      PairsFromDisjoint(st.levels[level], f, g);
      EntryRange(f, e);
      if e in g.entries {
        EntryRange(g, e);
      }
    }
  }

  /** Sources may lose entries, and source `t` may take over entries `moved` from a shallower
      source `h`, as long as what stays between the two is newer than what moves. */
  lemma Demotion(st: State, st': State, h: nat, t: nat, moved: set<Entry>)
    requires |st.levels| == |st'.levels| == NUM_LEVELS && SourceOrder(st)
    requires h < t < NUM_SOURCES && moved <= Source(st, h)
    requires forall i :: 0 <= i < NUM_SOURCES && i != t ==> Source(st', i) <= Source(st, i)
    requires Source(st', t) <= Source(st, t) + moved
    requires forall i :: h <= i < t ==> Newer(Source(st', i), moved)
    ensures SourceOrder(st')
  {
    forall i, j | 0 <= i < j < NUM_SOURCES ensures Newer(Source(st', i), Source(st', j)) {
      DemotionPair(st, st', h, t, moved, i, j);
    }
    forall i | 0 <= i < NUM_SOURCES ensures Unique(Source(st', i)) {
      assert Unique(Source(st, i)) && Unique(Source(st, h)) && Newer(Source(st, h), Source(st, t));
    }
  }

  lemma DemotionPair(st: State, st': State, h: nat, t: nat, moved: set<Entry>, i: nat, j: nat)
    requires |st.levels| == |st'.levels| == NUM_LEVELS && SourceOrder(st)
    requires h < t < NUM_SOURCES && i < j < NUM_SOURCES && moved <= Source(st, h)
    requires i != t ==> Source(st', i) <= Source(st, i)
    requires j != t ==> Source(st', j) <= Source(st, j)
    requires Source(st', t) <= Source(st, t) + moved
    requires h <= i < t ==> Newer(Source(st', i), moved)
    ensures Newer(Source(st', i), Source(st', j))
  {
    assert Newer(Source(st, i), Source(st, j));
    assert i < h ==> Newer(Source(st, i), Source(st, h));
    assert h < j ==> Newer(Source(st, h), Source(st, j));
  }

  /** What stays at the level of a compaction is newer than what it moves down. */
  ghost predicate RemainderNewer(files: seq<File>, in0: seq<File>) {
    forall g, c :: g in files && g !in in0 && c in in0 ==> Newer(Entries(g.entries), Entries(c.entries))
  }

  lemma ClosedRemainder(files: seq<File>, in0: seq<File>)
    requires UserClosed(files, in0)
    requires forall f :: f in files ==> WellFormed(f)
    requires forall f :: f in in0 ==> f in files
    ensures RemainderNewer(files, in0)
  {
    forall g, c | g in files && g !in in0 && c in in0
      ensures forall x, y :: x in g.entries && y in c.entries ==> x.key.user != y.key.user
    {
      forall x, y | x in g.entries && y in c.entries ensures x.key.user != y.key.user {
        EntryRange(g, x);
        EntryRange(c, y);
      }
    }
  }

  lemma EarlierFileNewer(g: File, c: File, all: set<Entry>)
    requires WellFormed(g) && WellFormed(c) && Before(g.largest, c.smallest)
    requires Unique(all) && Entries(g.entries) <= all && Entries(c.entries) <= all
    ensures Newer(Entries(g.entries), Entries(c.entries))
  {
    forall x, y | x in Entries(g.entries) && y in Entries(c.entries) && x.key.user == y.key.user ensures x.key.sn > y.key.sn {
      EntryRange(g, x);
      EntryRange(c, y);
      assert Before(x.key, y.key) && x != y;
    }
  }

  lemma LaterFileApart(g: File, c: File, key: InternalKey)
    requires WellFormed(g) && WellFormed(c) && AtOrBefore(c.largest, key) && Before(key, g.smallest) && !StartsAfter(g, key)
    ensures Newer(Entries(g.entries), Entries(c.entries))
  {
    forall x, y | x in Entries(g.entries) && y in Entries(c.entries) ensures x.key.user != y.key.user {
      EntryRange(g, x);
      EntryRange(c, y);
    }
  }

  lemma ContiguousRemainder(files: seq<File>, in0: seq<File>)
    requires Disjoint(files) && Contiguous(files, in0) && Unique(LevelEntries(files))
    requires in0 != [] && forall f :: f in in0 ==> f in files
    requires forall g :: g in files ==> !StartsAfter(g, LargestKey(in0))
    ensures RemainderNewer(files, in0)
  {
    LargestKeyIsMaximum(in0);
    forall g, c | g in files && g !in in0 && c in in0
      ensures Newer(Entries(g.entries), Entries(c.entries))
    {
      if Before(g.largest, c.smallest) {
        EarlierFileNewer(g, c, LevelEntries(files));
      } else {
        LaterFileApart(g, c, LargestKey(in0));
      }
    }
  }

  lemma InputsRemainder(st: State, level: nat, in0: seq<File>, in1: seq<File>)
    requires Inv(st) && level + 1 < NUM_LEVELS && LegalInputs(st.levels, level, in0, in1)
    ensures RemainderNewer(st.levels[level], in0)
  {
    if level == 0 {
      ClosedRemainder(st.levels[0], in0);
    } else {
      assert Unique(Source(st, level + 2));
      ContiguousRemainder(st.levels[level], in0);
    }
  }

  /** A file that is no input one level down lies on one side of everything the inputs hold. */
  lemma OutputsApart(levels: seq<seq<File>>, level: nat, in0: seq<File>, in1: seq<File>, outputs: seq<File>, g: File, o: File)
    requires ValidLevels(levels) && level + 1 < NUM_LEVELS && LegalInputs(levels, level, in0, in1)
    requires Disjoint(outputs) && LevelEntries(outputs) <= LevelEntries(in0) + LevelEntries(in1)
    requires g in levels[level + 1] && g !in in1 && o in outputs
    ensures Apart(g, o)
  {
    var lo, hi := SmallestKey(in0).user, LargestKey(in0).user;
    SmallestKeyIsMinimum(in0);
    LargestKeyIsMaximum(in0);
    assert WellFormed(o) && WellFormed(g);
    FileRange(g);
    var first, last := o.entries[0], o.entries[|o.entries| - 1];
    assert first in o.entries && last in o.entries;
    assert first in LevelEntries(outputs) && last in LevelEntries(outputs);
    InputSide(levels, level, in0, in1, g, first);
    InputSide(levels, level, in0, in1, g, last);
  }

  lemma InputSide(levels: seq<seq<File>>, level: nat, in0: seq<File>, in1: seq<File>, g: File, e: Entry)
    requires ValidLevels(levels) && level + 1 < NUM_LEVELS && LegalInputs(levels, level, in0, in1)
    requires g in levels[level + 1] && g !in in1 && e in LevelEntries(in0) + LevelEntries(in1)
    ensures if g.largest.user < SmallestKey(in0).user then Before(g.largest, e.key) else Before(e.key, g.smallest)
  {
    SmallestKeyIsMinimum(in0);
    LargestKeyIsMaximum(in0);
    var lo, hi := SmallestKey(in0).user, LargestKey(in0).user;
    assert !Meets(g, Some(lo), Some(hi));
    if e in LevelEntries(in0) {
      var c :| c in in0 && e in c.entries;
      LevelFacts0(levels, level, c);
      EntryRange(c, e);
    } else {
      var c :| c in in1 && e in c.entries;
      assert Meets(c, Some(lo), Some(hi));
      PairsFromDisjoint(levels[level + 1], c, g);
      SideOf(g, c, e, lo, hi);
    }
  }

  lemma LevelFacts0(levels: seq<seq<File>>, level: nat, f: File)
    requires ValidLevels(levels) && level < NUM_LEVELS && f in levels[level]
    ensures WellFormed(f)
  {
  }

  lemma SideOf(g: File, c: File, e: Entry, lo: UserKey, hi: UserKey)
    requires WellFormed(g) && WellFormed(c) && Apart(c, g) && e in c.entries
    requires Meets(c, Some(lo), Some(hi)) && !Meets(g, Some(lo), Some(hi))
    ensures if g.largest.user < lo then Before(g.largest, e.key) else Before(e.key, g.smallest)
  {
    FileRange(g);
    EntryRange(c, e);
  }

  ghost predicate ApartFromRest(files: seq<File>, leaving: seq<File>, arriving: seq<File>) {
    forall g, o :: g in files && g !in leaving && o in arriving ==> Apart(g, o)
  }

  lemma InstallLevels(before: seq<seq<File>>, after: seq<seq<File>>, target: nat,
                      in0: seq<File>, in1: seq<File>, outputs: seq<File>)
    requires ValidLevels(before) && target < NUM_LEVELS && Installs(before, after, target, in0, in1, outputs)
    requires Disjoint(outputs)
    requires target > 0 ==> ApartFromRest(before[target], in1, outputs)
    ensures ValidLevels(after)
  {
    forall f | f in after[0] ensures WellFormed(f) {
      assert f in Members(after[0]);
      assert f in before[0] || f in outputs;
    }
    forall l | 1 <= l < NUM_LEVELS ensures Disjoint(after[l]) {
      if l == target {
        UpdateDisjoint(before[l], in1, outputs, after[l]);
      } else if l + 1 == target {
        UpdateDisjoint(before[l], in0, [], after[l]);
      } else {
        UpdateDisjoint(before[l], [], [], after[l]);
      }
    }
  }

  lemma InstallSources(st: State, st': State, target: nat, in0: seq<File>, in1: seq<File>, outputs: seq<File>, moved: set<Entry>)
    requires |st.levels| == NUM_LEVELS && target < NUM_LEVELS
    requires Installs(st.levels, st'.levels, target, in0, in1, outputs)
    requires LevelEntries(outputs) <= moved + LevelEntries(in1) && forall f :: f in in1 ==> f in st.levels[target]
    requires st'.mem == st.mem && (st'.imm == st.imm || st'.imm == None)
    ensures forall i :: 0 <= i < NUM_SOURCES && i != target + 2 ==> Source(st', i) <= Source(st, i)
    ensures Source(st', target + 2) <= Source(st, target + 2) + moved
  {
    forall i | 2 <= i < NUM_SOURCES && i != target + 2 ensures Source(st', i) <= Source(st, i) {
      KeptEntries(st.levels[i - 2], st'.levels[i - 2]);
    }
    forall f, e | f in st'.levels[target] && e in f.entries ensures e in Source(st, target + 2) + moved {
      assert f in Members(st'.levels[target]);
      if f in outputs {
        assert e in LevelEntries(outputs);
      }
    }
  }

  lemma KeptEntries(before: seq<File>, after: seq<File>)
    requires Members(after) <= Members(before)
    ensures LevelEntries(after) <= LevelEntries(before)
  {
    forall f, e | f in after && e in f.entries ensures e in LevelEntries(before) {
      assert f in Members(after);
    }
  }

  lemma InstallNumbers(st: State, st': State, target: nat, in0: seq<File>, in1: seq<File>, outputs: seq<File>)
    requires |st.levels| == NUM_LEVELS && NumbersDistinct(st) && target < NUM_LEVELS
    requires Installs(st.levels, st'.levels, target, in0, in1, outputs)
    requires forall j :: 0 <= j < |outputs| ==> outputs[j].number == st.nextFile + j
    requires st'.nextFile == st.nextFile + |outputs|
    ensures NumbersDistinct(st')
  {
    forall l, f | 0 <= l < NUM_LEVELS && f in st'.levels[l] ensures OldOrNew(st, l, f, target, outputs) {
      assert f in Members(st'.levels[l]);
    }
    forall l, f, m, g | 0 <= l < NUM_LEVELS && 0 <= m < NUM_LEVELS && f in st'.levels[l] && g in st'.levels[m] && SameNumber(f, g)
      ensures l == m && f == g
    {
      assert OldOrNew(st, l, f, target, outputs) && OldOrNew(st, m, g, target, outputs);
    }
    forall l, f | 0 <= l < NUM_LEVELS && f in st'.levels[l] ensures f.number < st'.nextFile {
      assert OldOrNew(st, l, f, target, outputs);
    }
  }

  ghost predicate OldOrNew(st: State, l: nat, f: File, target: nat, outputs: seq<File>)
    requires l < |st.levels|
  {
    if f.number < st.nextFile then f in st.levels[l]
    else l == target && f.number < st.nextFile + |outputs| && outputs[f.number - st.nextFile] == f
  }

  lemma MoveNumbers(st: State, st': State, target: nat, f: File)
    requires |st.levels| == NUM_LEVELS && NumbersDistinct(st) && 0 < target < NUM_LEVELS && f in st.levels[target - 1]
    requires Installs(st.levels, st'.levels, target, [f], [], [f]) && st'.nextFile == st.nextFile
    ensures NumbersDistinct(st')
  {
    forall l, g | 0 <= l < NUM_LEVELS && g in st'.levels[l] ensures Unmoved(st, target, f, l, g) {
      assert g in Members(st'.levels[l]);
      if g in st.levels[l] { NumberNames(st, l, g, target - 1, f); }
    }
    forall l, g, m, h | 0 <= l < NUM_LEVELS && 0 <= m < NUM_LEVELS && g in st'.levels[l] && h in st'.levels[m] && SameNumber(g, h)
      ensures l == m && g == h
    {
      assert Unmoved(st, target, f, l, g) && Unmoved(st, target, f, m, h);
    }
    forall l, g | 0 <= l < NUM_LEVELS && g in st'.levels[l] ensures g.number < st'.nextFile {
      assert Unmoved(st, target, f, l, g);
    }
  }

  ghost predicate Unmoved(st: State, target: nat, f: File, l: nat, g: File)
    requires l < |st.levels| && 0 < target <= |st.levels|
  {
    if g == f then l == target && g in st.levels[target - 1] else g in st.levels[l]
  }
}
