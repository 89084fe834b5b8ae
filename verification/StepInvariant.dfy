/** The invariant is kept by every single step. */
module StepInvariant {
  import opened Wrappers
  import opened DbFormat
  import opened Versions
  import opened VersionBuilder
  import opened Boundary
  import opened Inputs
  import opened Compactions
  import opened States
  import opened Steps
  import opened Structure

  lemma BatchFacts(ops: seq<Op>, first: nat)
    requires first + |ops| <= MAX_SEQUENCE_NUMBER
    ensures forall e :: e in BatchEntries(ops, first) ==> first <= e.key.sn < first + |ops|
    ensures Unique(BatchEntries(ops, first))
  {
  }

  lemma WriteSources(st: State, ops: seq<Op>, st': State)
    requires |st.levels| == NUM_LEVELS && WriteTo(st, ops, st')
    ensures Source(st', 0) == Source(st, 0) + BatchEntries(ops, st.lastSequence + 1)
    ensures forall i :: 0 < i < NUM_SOURCES ==> Source(st', i) == Source(st, i)
  {
  }

  lemma WriteInv(st: State, ops: seq<Op>, st': State)
    requires Inv(st) && WriteTo(st, ops, st')
    ensures Inv(st')
  {
    InvParts(st);
    hide Shape, SourceOrder, Level0Order, NumbersDistinct, Bounded;
    WriteSources(st, ops, st');
    BatchFacts(ops, st.lastSequence + 1);
    var batch := BatchEntries(ops, st.lastSequence + 1);
    BatchIsNewer(st, batch);
    NewerBatch(st, st', batch);
    BoundedBatch(st, st', batch);
    SameLevels(st, st');
    SameShape(st, st');
  }

  lemma BoundedBatch(st: State, st': State, batch: set<Entry>)
    requires |st.levels| == |st'.levels| == NUM_LEVELS && Bounded(st)
    requires st.lastSequence <= st'.lastSequence < MAX_SEQUENCE_NUMBER && st'.snapshots == st.snapshots
    requires forall e :: e in batch ==> e.key.sn <= st'.lastSequence
    requires forall i :: 0 <= i < NUM_SOURCES ==> Source(st', i) == if i == 0 then Source(st, 0) + batch else Source(st, i)
    ensures Bounded(st')
  {
    forall i, e | 0 <= i < NUM_SOURCES && e in Source(st', i) ensures e.key.sn <= st'.lastSequence {
      assert e in batch || e in Source(st, i);
    }
  }

  lemma BatchIsNewer(st: State, batch: set<Entry>)
    requires |st.levels| == NUM_LEVELS && Bounded(st) && forall e :: e in batch ==> e.key.sn > st.lastSequence
    ensures forall i, x, y :: 0 <= i < NUM_SOURCES && x in batch && y in Source(st, i) ==> x.key.sn > y.key.sn
  {
  }

  lemma SameShape(st: State, st': State)
    requires Shape(st) && st'.levels == st.levels && Sorted(st'.mem) && (st'.imm.Some? ==> Sorted(st'.imm.value))
    ensures Shape(st')
  {
  }

  lemma InvParts(st: State)
    requires Inv(st)
    ensures ValidLevels(st.levels) && st.lastSequence < MAX_SEQUENCE_NUMBER
    ensures Sorted(st.mem) && (st.imm.Some? ==> Sorted(st.imm.value))
  {
  }

  lemma NewerBatch(st: State, st': State, batch: set<Entry>)
    requires |st.levels| == |st'.levels| == NUM_LEVELS && SourceOrder(st) && Unique(batch)
    requires forall i, x, y :: 0 <= i < NUM_SOURCES && x in batch && y in Source(st, i) ==> x.key.sn > y.key.sn
    requires forall i :: 0 <= i < NUM_SOURCES ==> Source(st', i) == if i == 0 then Source(st, 0) + batch else Source(st, i)
    ensures SourceOrder(st')
  {
    forall i, j | 0 <= i < j < NUM_SOURCES ensures Newer(Source(st', i), Source(st', j)) {
      assert Newer(Source(st, i), Source(st, j));
    }
    forall i | 0 <= i < NUM_SOURCES ensures Unique(Source(st', i)) {
      assert Unique(Source(st, i));
    }
  }

  lemma SwitchSources(st: State, st': State)
    requires |st.levels| == NUM_LEVELS && SwitchTo(st, st')
    ensures Source(st', 0) == {} && Source(st', 1) == Source(st, 0) && Source(st, 1) == {}
    ensures forall i :: 2 <= i < NUM_SOURCES ==> Source(st', i) == Source(st, i)
  {
  }

  lemma SwitchInv(st: State, st': State)
    requires Inv(st) && SwitchTo(st, st')
    ensures Inv(st')
  {
    SwitchSources(st, st');
    SwitchOrder(st, st');
    SameLevels(st, st');
  }

  lemma SwitchOrder(st: State, st': State)
    requires |st.levels| == |st'.levels| == NUM_LEVELS && SourceOrder(st)
    requires Source(st', 0) == {} && Source(st', 1) == Source(st, 0)
    requires forall i :: 2 <= i < NUM_SOURCES ==> Source(st', i) == Source(st, i)
    ensures SourceOrder(st')
  {
    forall i, j | 0 <= i < j < NUM_SOURCES ensures Newer(Source(st', i), Source(st', j)) {
      assert Newer(Source(st, if i == 1 then 0 else i), Source(st, j));
    }
    forall i | 0 <= i < NUM_SOURCES ensures Unique(Source(st', i)) {
      assert Unique(Source(st, if i == 1 then 0 else i));
    }
  }

  lemma SameLevels(st: State, st': State)
    requires |st.levels| == NUM_LEVELS && st'.levels == st.levels && st'.nextFile >= st.nextFile
    requires Level0Order(st) && NumbersDistinct(st)
    ensures Level0Order(st') && NumbersDistinct(st')
  {
  }

  lemma FlushNothingInv(st: State, st': State)
    requires Inv(st) && FlushNothingTo(st, st')
    ensures Inv(st')
  {
    SameSources(st, st');
  }

  lemma SameSources(st: State, st': State)
    requires |st.levels| == NUM_LEVELS && SourceOrder(st) && Bounded(st)
    requires st'.mem == st.mem && st'.levels == st.levels && st'.lastSequence == st.lastSequence
    requires st'.imm == st.imm || (st.imm == Some([]) && st'.imm == None)
    ensures forall i :: 0 <= i < NUM_SOURCES ==> Source(st', i) == Source(st, i)
    ensures SourceOrder(st')
    ensures st'.snapshots == st.snapshots ==> Bounded(st')
  {
    assert forall i :: 0 <= i < NUM_SOURCES ==> Source(st', i) == Source(st, i);
    forall i, j | 0 <= i < j < NUM_SOURCES ensures Newer(Source(st', i), Source(st', j)) {
      assert Newer(Source(st, i), Source(st, j));
    }
    forall i | 0 <= i < NUM_SOURCES ensures Unique(Source(st', i)) {
      assert Unique(Source(st, i));
    }
    forall i, e | 0 <= i < NUM_SOURCES && e in Source(st', i) ensures e.key.sn <= st'.lastSequence {
      assert e in Source(st, i);
    }
  }

  /** Level 0 keeps its age order when files leave or one younger file arrives. */
  lemma Level0Age(st: State, st': State, target: nat, in0: seq<File>, in1: seq<File>, outputs: seq<File>)
    requires |st.levels| == NUM_LEVELS && Level0Order(st) && NumbersDistinct(st)
    requires target < NUM_LEVELS && Installs(st.levels, st'.levels, target, in0, in1, outputs)
    requires target == 0 ==> |outputs| == 1 && outputs[0].number == st.nextFile
    requires target == 0 ==> Newer(Entries(outputs[0].entries), LevelEntries(st.levels[0]))
    ensures Level0Order(st')
  {
    forall f | f in st'.levels[0] ensures f in st.levels[0] || (target == 0 && f == outputs[0]) {
      assert f in Members(st'.levels[0]);
    }
    forall f, g | f in st'.levels[0] && g in st'.levels[0] && f.number > g.number
      ensures Newer(Entries(f.entries), Entries(g.entries))
    {
      if g in st.levels[0] && f !in st.levels[0] {
        assert Entries(g.entries) <= LevelEntries(st.levels[0]);
      }
    }
  }

  lemma BoundedAfter(st: State, st': State, target: nat, h: nat, moved: set<Entry>)
    requires |st.levels| == |st'.levels| == NUM_LEVELS && Bounded(st) && target < NUM_LEVELS && h < NUM_SOURCES
    requires st'.lastSequence == st.lastSequence && st'.snapshots == st.snapshots && moved <= Source(st, h)
    requires forall i :: 0 <= i < NUM_SOURCES && i != target + 2 ==> Source(st', i) <= Source(st, i)
    requires Source(st', target + 2) <= Source(st, target + 2) + moved
    ensures Bounded(st')
  {
    forall i, e | 0 <= i < NUM_SOURCES && e in Source(st', i) ensures e.key.sn <= st'.lastSequence {
      assert e in Source(st, i) || e in Source(st, h);
    }
  }

  lemma FlushInv(st: State, level: nat, f: File, st': State)
    requires Inv(st) && FlushTo(st, level, f, st')
    ensures Inv(st')
  {
    assert WellFormed(f) && Disjoint([f]);
    FlushedApart(st.levels, level, f);
    InstallLevels(st.levels, st'.levels, level, [], [], [f]);
    assert Shape(st');
    InstallNumbers(st, st', level, [], [], [f]);
    FlushOrder(st, level, f, st');
    assert Newer(Source(st, 1), Source(st, 2));
    Level0Age(st, st', level, [], [], [f]);
  }

  lemma FlushOrder(st: State, level: nat, f: File, st': State)
    requires ValidLevels(st.levels) && SourceOrder(st) && Bounded(st) && FlushTo(st, level, f, st') && WellFormed(f)
    ensures SourceOrder(st') && Bounded(st')
  {
    var moved := Source(st, 1);
    assert |st.levels| == |st'.levels| == NUM_LEVELS;
    assert LevelEntries([f]) == moved;
    InstallSources(st, st', level, [], [], [f], moved);
    forall i | 1 <= i < level + 2 ensures Newer(Source(st', i), moved) {
      if i >= 2 {
        NothingShared(st.levels, level, i - 2, f);
      }
    }
    hide ValidLevels, Installs, FlushLevelOk, WellFormed;
    Demotion(st, st', 1, level + 2, moved);
    BoundedAfter(st, st', level, 1, moved);
  }

  lemma FlushedApart(levels: seq<seq<File>>, level: nat, f: File)
    requires ValidLevels(levels) && FlushLevelOk(levels, level, f) && WellFormed(f)
    ensures level > 0 ==> ApartFromRest(levels[level], [], [f])
  {
    if level > 0 {
      forall g | g in levels[level] ensures Apart(g, f) {
        assert !Meets(g, Some(f.smallest.user), Some(f.largest.user));
      }
    }
  }

  /** A flushed table shares no user key with the levels it passes. */
  lemma NothingShared(levels: seq<seq<File>>, level: nat, l: nat, f: File)
    requires ValidLevels(levels) && FlushLevelOk(levels, level, f) && WellFormed(f) && l < level
    ensures Newer(LevelEntries(levels[l]), Entries(f.entries))
  {
    forall x, y | x in LevelEntries(levels[l]) && y in Entries(f.entries) ensures x.key.user != y.key.user {
      var g :| g in levels[l] && x in g.entries;
      assert WellFormed(g) && !Meets(g, Some(f.smallest.user), Some(f.largest.user));
      EntryRange(g, x);
      EntryRange(f, y);
    }
  }

  lemma MovedNewer(st: State, st': State, level: nat, in0: seq<File>, in1: seq<File>, outputs: seq<File>)
    requires |st.levels| == NUM_LEVELS && level + 1 < NUM_LEVELS && RemainderNewer(st.levels[level], in0)
    requires Installs(st.levels, st'.levels, level + 1, in0, in1, outputs)
    ensures Newer(Source(st', level + 2), LevelEntries(in0))
  {
    forall x, y | x in Source(st', level + 2) && y in LevelEntries(in0) && x.key.user == y.key.user ensures x.key.sn > y.key.sn {
      var g :| g in st'.levels[level] && x in g.entries;
      var c :| c in in0 && y in c.entries;
      assert g in Members(st'.levels[level]);
      assert x in Entries(g.entries) && y in Entries(c.entries);
    }
  }

  /** Replacing the inputs of a compaction by outputs that hold nothing new and lie apart from what
      stays beside them keeps the invariant. */
  lemma ReplaceInv(st: State, st': State, level: nat, in0: seq<File>, in1: seq<File>, outputs: seq<File>)
    requires Inv(st) && level + 1 < NUM_LEVELS && Stored(st.levels, level, in0, in1)
    requires RemainderNewer(st.levels[level], in0) && ApartFromRest(st.levels[level + 1], in1, outputs)
    requires Disjoint(outputs) && LevelEntries(outputs) <= LevelEntries(in0) + LevelEntries(in1)
    requires Installs(st.levels, st'.levels, level + 1, in0, in1, outputs)
    requires st' == st.(levels := st'.levels, nextFile := st'.nextFile)
    requires NumbersDistinct(st')
    ensures Inv(st')
  {
    hide Shape, SourceOrder, Level0Order, NumbersDistinct, Bounded, RemainderNewer, ApartFromRest, Disjoint, Installs, Stored, Newer, LevelEntries, Source, ValidLevels;
    InvParts(st);
    InstallLevels(st.levels, st'.levels, level + 1, in0, in1, outputs);
    InstalledShape(st, st', level + 1, in0, in1, outputs);
    OrderKept(st, st', level, in0, in1, outputs);
    Level0Age(st, st', level + 1, in0, in1, outputs);
  }

  /** Shallower sources keep the newer entries even if outputs meet files beside them. */
  lemma OrderKept(st: State, st': State, level: nat, in0: seq<File>, in1: seq<File>, outputs: seq<File>)
    requires Inv(st) && level + 1 < NUM_LEVELS && Stored(st.levels, level, in0, in1) && RemainderNewer(st.levels[level], in0)
    requires LevelEntries(outputs) <= LevelEntries(in0) + LevelEntries(in1)
    requires Installs(st.levels, st'.levels, level + 1, in0, in1, outputs)
    requires st' == st.(levels := st'.levels, nextFile := st'.nextFile)
    ensures |st'.levels| == NUM_LEVELS && SourceOrder(st') && Bounded(st')
  {
    hide Shape, SourceOrder, Level0Order, NumbersDistinct, Bounded, RemainderNewer, Installs, Stored, Newer, LevelEntries, Source, ValidLevels;
    InvParts(st);
    assert |st'.levels| == NUM_LEVELS by { InstallsShape(st.levels, st'.levels, level + 1, in0, in1, outputs); }
    MovedNewer(st, st', level, in0, in1, outputs);
    StoredEntries(st, level, in0, in1);
    ReplaceOrder(st, st', level, in0, in1, outputs);
  }

  lemma InstallsShape(before: seq<seq<File>>, after: seq<seq<File>>, target: nat, in0: seq<File>, in1: seq<File>, outputs: seq<File>)
    requires Installs(before, after, target, in0, in1, outputs)
    ensures |before| == |after| == NUM_LEVELS
  {
  }

  lemma StoredEntries(st: State, level: nat, in0: seq<File>, in1: seq<File>)
    requires |st.levels| == NUM_LEVELS && level + 1 < NUM_LEVELS && Stored(st.levels, level, in0, in1)
    ensures LevelEntries(in0) <= Source(st, level + 2) && LevelEntries(in1) <= Source(st, level + 3)
    ensures forall f :: f in in1 ==> f in st.levels[level + 1]
  {
  }

  lemma InstalledShape(st: State, st': State, target: nat, in0: seq<File>, in1: seq<File>, outputs: seq<File>)
    requires Shape(st) && ValidLevels(st'.levels) && Installs(st.levels, st'.levels, target, in0, in1, outputs)
    requires st'.mem == st.mem && st'.imm == st.imm
    ensures Shape(st')
  {
  }

  /** Inputs chosen by the rules make it so. */
  lemma LegalReplaceInv(st: State, st': State, level: nat, in0: seq<File>, in1: seq<File>, outputs: seq<File>)
    requires Inv(st) && level + 1 < NUM_LEVELS && LegalInputs(st.levels, level, in0, in1)
    requires Disjoint(outputs) && LevelEntries(outputs) <= LevelEntries(in0) + LevelEntries(in1)
    requires Installs(st.levels, st'.levels, level + 1, in0, in1, outputs)
    requires st' == st.(levels := st'.levels, nextFile := st'.nextFile)
    requires NumbersDistinct(st')
    ensures Inv(st')
  {
    InputsRemainder(st, level, in0, in1);
    forall g, o | g in st.levels[level + 1] && g !in in1 && o in outputs ensures Apart(g, o) {
      OutputsApart(st.levels, level, in0, in1, outputs, g, o);
    }
    hide Inv, Disjoint, Installs, NumbersDistinct, RemainderNewer;
    ReplaceInv(st, st', level, in0, in1, outputs);
  }

  lemma ReplaceOrder(st: State, st': State, level: nat, in0: seq<File>, in1: seq<File>, outputs: seq<File>)
    requires |st.levels| == NUM_LEVELS && SourceOrder(st) && Bounded(st) && level + 1 < NUM_LEVELS
    requires LevelEntries(in0) <= Source(st, level + 2) && forall f :: f in in1 ==> f in st.levels[level + 1]
    requires LevelEntries(outputs) <= LevelEntries(in0) + LevelEntries(in1)
    requires Installs(st.levels, st'.levels, level + 1, in0, in1, outputs)
    requires st' == st.(levels := st'.levels, nextFile := st'.nextFile)
    requires Newer(Source(st', level + 2), LevelEntries(in0))
    ensures SourceOrder(st') && Bounded(st')
  {
    var moved := LevelEntries(in0);
    InstallSources(st, st', level + 1, in0, in1, outputs, moved);
    Demotion(st, st', level + 2, level + 3, moved);
    BoundedAfter(st, st', level + 1, level + 2, moved);
  }

  lemma MoveInv(st: State, level: nat, f: File, st': State)
    requires Inv(st) && MoveTo(st, level, f, st')
    ensures Inv(st')
  {
    LevelFacts(st.levels, level);
    assert f in [f] && Disjoint([f]);
    MoveNumbers(st, st', level + 1, f);
    LegalReplaceInv(st, st', level, [f], [], [f]);
  }

  lemma OutputFacts(input: seq<Entry>, snapshot: nat, levels: seq<seq<File>>, level: nat, in0: seq<File>, in1: seq<File>, outputs: seq<File>)
    requires |levels| == NUM_LEVELS && Merges(input, in0, in1)
    requires Flatten(outputs) == Survivors(input, snapshot, levels, level) && forall f :: f in outputs ==> EndsMatch(f)
    ensures Disjoint(outputs)
    ensures LevelEntries(outputs) == Entries(Survivors(input, snapshot, levels, level))
    ensures LevelEntries(outputs) <= LevelEntries(in0) + LevelEntries(in1)
  {
    var s := Survivors(input, snapshot, levels, level);
    SurvivorsSorted(input, snapshot, levels, level);
    CutIsDisjoint(outputs);
    assert forall e :: e in LevelEntries(outputs) <==> e in Flatten(outputs);
    forall e | e in s ensures e in LevelEntries(in0) + LevelEntries(in1) {
      assert e in Entries(input);
    }
  }

  lemma CompactInv(st: State, level: nat, in0: seq<File>, in1: seq<File>, input: seq<Entry>, outputs: seq<File>, st': State)
    requires Inv(st) && CompactTo(st, level, in0, in1, input, outputs, st')
    ensures Inv(st')
  {
    hide Shape, SourceOrder, Level0Order, Bounded;
    OutputFacts(input, SmallestSnapshot(st), st.levels, level, in0, in1, outputs);
    InstallNumbers(st, st', level + 1, in0, in1, outputs);
    LegalReplaceInv(st, st', level, in0, in1, outputs);
  }

  lemma SnapshotInv(st: State, st': State)
    requires Inv(st) && (TakeTo(st, st') || exists index :: ReleaseTo(st, index, st'))
    ensures Inv(st')
  {
    SameSources(st, st');
    SameShape(st, st');
    SameLevels(st, st');
    assert Bounded(st') by {
      forall i | 0 <= i < NUM_SOURCES ensures Source(st', i) == Source(st, i) {
      }
    }
  }

  lemma StepKeepsInv(st: State, step: Step, st': State)
    requires Inv(st) && StepTo(st, step, st')
    ensures Inv(st')
  {
    match step
    case Write(ops) => WriteInv(st, ops, st');
    case SwitchMemTable => SwitchInv(st, st');
    case FlushNothing => FlushNothingInv(st, st');
    case Flush(level, f) => FlushInv(st, level, f, st');
    case TrivialMove(level, f) => MoveInv(st, level, f, st');
    case Compact(level, in0, in1, input, outputs) => CompactInv(st, level, in0, in1, input, outputs, st');
    case TakeSnapshot => SnapshotInv(st, st');
    case ReleaseSnapshot(_) => SnapshotInv(st, st');
  }
}
