/** A run of the store in which a stored key can no longer be read. A manual compaction of level 1
    takes two files with a gap between their keys; while it runs, a memtable with a key from the gap
    is flushed past it to level 2 (nothing there shares a key), and the one output file the compaction
    then installs at level 2 lies across the flushed file.

    Every flush goes to the level PickLevelForMemTableOutput names. Memtables this small are flushed
    when CompactRange on some other range forces them out. A build with assertions stops when the
    files meet (MaybeAddFile); one without them goes on in the state shown here. */
module LostKey {
  import opened Wrappers
  import opened DbFormat
  import opened Versions
  import opened VersionBuilder
  import opened Boundary
  import opened Inputs
  import opened Compactions
  import opened States
  import opened Steps
  import opened Structure
  import opened StepInvariant
  import opened Lookup
  import opened Interleaved

  const LOW: UserKey := 1.0
  const MID: UserKey := 2.0
  const HIGH: UserKey := 3.0

  const OLD_A: Entry := Entry(InternalKey(LOW, 1, TypeValue), "a")
  const OLD_Z: Entry := Entry(InternalKey(HIGH, 2, TypeValue), "z")
  const NEW_A: Entry := Entry(InternalKey(LOW, 3, TypeValue), "aa")
  const NEW_Z: Entry := Entry(InternalKey(HIGH, 4, TypeValue), "zz")
  const MIDDLE: Entry := Entry(InternalKey(MID, 5, TypeValue), "m")

  function One(number: nat, e: Entry): File { File(number, 1, e.key, e.key, [e]) }

  const LOW_A: File := One(3, OLD_A)
  const LOW_Z: File := One(5, OLD_Z)
  const HIGH_A: File := One(7, NEW_A)
  const HIGH_Z: File := One(9, NEW_Z)
  const FLUSHED: File := One(12, MIDDLE)
  const OUTPUT: File := File(10, 1, NEW_A.key, NEW_Z.key, [NEW_A, NEW_Z])

  function Levels(level1: seq<File>, level2: seq<File>): seq<seq<File>> {
    [[], level1, level2, [], [], [], []]
  }

  function Quiet(level1: seq<File>, level2: seq<File>, last: nat, nextFile: nat): State {
    State([], None, Levels(level1, level2), last, [], nextFile)
  }

  const EMPTY: State := Quiet([], [], 0, 2)

  ghost predicate Leads(run: seq<Busy>, events: seq<Event>, b: Busy) {
    IsBusyRun(run, events) && run[0] == Busy(EMPTY, None) && run[|events|] == b
  }

  /** Some interleaved run of safe events from the empty store ends there. */
  ghost predicate Reachable(b: Busy) {
    exists run, events :: Leads(run, events, b)
  }

  lemma ReachNext(b: Busy, event: Event, b': Busy)
    requires Reachable(b) && SafeEventTo(b, event, b')
    ensures Reachable(b')
  {
    hide BusyInv, SafeEventTo;
    var run, events :| Leads(run, events, b);
    RunExtends(run, events, event, b');
    assert Leads(run + [b'], events + [event], b');
  }

  lemma RunExtends(run: seq<Busy>, events: seq<Event>, event: Event, b': Busy)
    requires IsBusyRun(run, events) && SafeEventTo(run[|events|], event, b')
    ensures IsBusyRun(run + [b'], events + [event])
  {
    hide BusyInv, SafeEventTo;
    var run', events' := run + [b'], events + [event];
    assert run'[0] == run[0];
    forall i | 0 <= i < |events'| ensures SafeEventTo(run'[i], events'[i], run'[i + 1]) {
      if i < |events| {
        assert events'[i] == events[i];
      }
    }
  }

  lemma ReachStart()
    ensures EMPTY == INITIAL && Reachable(Busy(EMPTY, None))
  {
    InitialInv();
    assert EMPTY.levels == INITIAL.levels;
    var run, events: seq<Event> := [Busy(EMPTY, None)], [];
    assert Leads(run, events, run[0]);
  }

  /** What a put, the switch of the memtable and its flush to `level` do to levels 1 and 2. */
  ghost predicate Adds(level1: seq<File>, level2: seq<File>, level: nat, f: File, level1': seq<File>, level2': seq<File>) {
    && (level == 1 || level == 2) && Ordered(level1') && Ordered(level2')
    && Members(level1') == Members(level1) + (if level == 1 then {f} else {})
    && Members(level2') == Members(level2) + (if level == 2 then {f} else {})
    && !Overlaps(level1, f.smallest.user, f.largest.user)
    && (level == 2 ==> !Overlaps(level2, f.smallest.user, f.largest.user))
  }

  lemma PutReaches(level1: seq<File>, level2: seq<File>, last: nat, nextFile: nat, pending: Option<Pending>,
                   user: UserKey, value: Value, level: nat, f: File, level1': seq<File>, level2': seq<File>)
    requires Reachable(Busy(Quiet(level1, level2, last, nextFile), pending)) && last < 10
    requires pending.Some? ==> |pending.value.start.levels| == NUM_LEVELS
    requires f == One(nextFile + 1, OpEntry(PutOp(user, value), last + 1)) && Adds(level1, level2, level, f, level1', level2')
    ensures Reachable(Busy(Quiet(level1', level2', last + 1, nextFile + 2), pending))
  {
    var e, op := f.entries[0], PutOp(user, value);
    var s0 := Quiet(level1, level2, last, nextFile);
    var s1 := s0.(mem := [e], lastSequence := last + 1);
    var s2 := s1.(mem := [], imm := Some([e]), nextFile := nextFile + 1);
    var s3 := Quiet(level1', level2', last + 1, nextFile + 2);
    PutWrites(s0, op, s1);
    FlushOk(s2, level, f, s3, level1, level2, level1', level2');
    ReachNext(Busy(s0, pending), Meanwhile(Write([op])), Busy(s1, pending));
    ReachNext(Busy(s1, pending), Meanwhile(SwitchMemTable), Busy(s2, pending));
    ReachNext(Busy(s2, pending), Meanwhile(Flush(level, f)), Busy(s3, pending));
  }

  lemma PutWrites(s0: State, op: Op, s1: State)
    requires s0.mem == [] && s0.lastSequence < 10
    requires s1 == s0.(mem := [OpEntry(op, s0.lastSequence + 1)], lastSequence := s0.lastSequence + 1)
    ensures WriteTo(s0, [op], s1)
  {
    assert BatchEntries([op], s0.lastSequence + 1) == {OpEntry(op, s0.lastSequence + 1)} by {
      assert OpEntry([op][0], s0.lastSequence + 1) == OpEntry(op, s0.lastSequence + 1);
    }
  }

  lemma FlushOk(s2: State, level: nat, f: File, s3: State, level1: seq<File>, level2: seq<File>, level1': seq<File>, level2': seq<File>)
    requires Adds(level1, level2, level, f, level1', level2') && EndsMatch(f)
    requires s2.levels == Levels(level1, level2) && s2.imm == Some(f.entries) && f.number == s2.nextFile
    requires s3 == s2.(imm := None, levels := Levels(level1', level2'), nextFile := s2.nextFile + 1)
    ensures FlushTo(s2, level, f, s3)
  {
    var before, after := Levels(level1, level2), Levels(level1', level2');
    assert Members([f]) == {f};
    forall l | 0 <= l < NUM_LEVELS ensures Ordered(after[l]) && (l != 1 && l != 2 ==> after[l] == before[l] == []) {
      assert l == 0 || l == 1 || l == 2 || l == 3 || l == 4 || l == 5 || l == 6;
    }
    forall l | 0 <= l <= level ensures !Overlaps(before[l], f.smallest.user, f.largest.user) {
      assert l == 0 || l == 1 || l == 2;
    }
  }

  const SETTLED: State := Quiet([HIGH_A, HIGH_Z], [LOW_A, LOW_Z], 4, 10)
  const MANUAL: Pending := Pending(SETTLED, 1, [HIGH_A, HIGH_Z], [LOW_A, LOW_Z], [])
  const RUNNING: Pending := MANUAL.(taken := [10])
  const DURING: State := Quiet([HIGH_A, HIGH_Z], [LOW_A, FLUSHED, LOW_Z], 5, 13)
  const AFTER: State := Quiet([], [OUTPUT, FLUSHED], 5, 13)
  const INPUT: seq<Entry> := [NEW_A, OLD_A, NEW_Z, OLD_Z]

  lemma EachAdds()
    ensures Adds([], [], 2, LOW_A, [], [LOW_A])
    ensures Adds([], [LOW_A], 2, LOW_Z, [], [LOW_A, LOW_Z])
    ensures Adds([], [LOW_A, LOW_Z], 1, HIGH_A, [HIGH_A], [LOW_A, LOW_Z])
    ensures Adds([HIGH_A], [LOW_A, LOW_Z], 1, HIGH_Z, [HIGH_A, HIGH_Z], [LOW_A, LOW_Z])
  {
    assert Members([HIGH_A, HIGH_Z]) == Members([HIGH_A]) + {HIGH_Z};
    assert Members([LOW_A, LOW_Z]) == Members([LOW_A]) + {LOW_Z};
  }

  /** Four puts leave two files at level 1 and two at level 2. */
  lemma SettledReached()
    ensures EMPTY == INITIAL && Reachable(Busy(SETTLED, None))
  {
    hide Adds, Reachable;
    EachAdds();
    ReachStart();
    PutReaches([], [], 0, 2, None, LOW, "a", 2, LOW_A, [], [LOW_A]);
    PutReaches([], [LOW_A], 1, 4, None, HIGH, "z", 2, LOW_Z, [], [LOW_A, LOW_Z]);
    PutReaches([], [LOW_A, LOW_Z], 2, 6, None, LOW, "aa", 1, HIGH_A, [HIGH_A], [LOW_A, LOW_Z]);
    PutReaches([HIGH_A], [LOW_A, LOW_Z], 3, 8, None, HIGH, "zz", 1, HIGH_Z, [HIGH_A, HIGH_Z], [LOW_A, LOW_Z]);
  }

  lemma ManualInputs()
    ensures LegalInputs(SETTLED.levels, 1, MANUAL.in0, MANUAL.in1)
  {
    var in0, in1 := MANUAL.in0, MANUAL.in1;
    assert SETTLED.levels[1] == in0 && SETTLED.levels[2] == in1;
    assert in0[..1] == [HIGH_A] && in1[..1] == [LOW_A] && [LOW_A][..0] == [];
    assert LargestKey([HIGH_A]) == NEW_A.key && SmallestKey([HIGH_A]) == NEW_A.key && Compare(NEW_Z.key, NEW_A.key) > 0;
    assert SmallestKey(in0) == NEW_A.key && LargestKey(in0) == NEW_Z.key;
    assert Overlapping([LOW_A], Some(LOW), Some(HIGH)) == [LOW_A];
    assert Overlapping(in1, Some(LOW), Some(HIGH)) == in1;
  }

  lemma GapAdds()
    ensures Adds([HIGH_A, HIGH_Z], [LOW_A, LOW_Z], 2, FLUSHED, [HIGH_A, HIGH_Z], [LOW_A, FLUSHED, LOW_Z])
  {
    assert Members([LOW_A, FLUSHED, LOW_Z]) == Members([LOW_A, LOW_Z]) + {FLUSHED};
  }

  /** While the compaction runs, the key in the gap goes to level 2. */
  lemma DuringReached()
    ensures Reachable(Busy(DURING, Some(RUNNING)))
  {
    hide Adds, Reachable, LegalInputs;
    GapAdds();
    SettledReached();
    ManualInputs();
    ReachNext(Busy(SETTLED, None), Begin(1, MANUAL.in0, MANUAL.in1), Busy(SETTLED, Some(MANUAL)));
    assert MANUAL.taken + [10] == RUNNING.taken;
    ReachNext(Busy(SETTLED, Some(MANUAL)), OpenOutput, Busy(SETTLED.(nextFile := 11), Some(RUNNING)));
    PutReaches([HIGH_A, HIGH_Z], [LOW_A, LOW_Z], 4, 11, Some(RUNNING), MID, "m", 2, FLUSHED, [HIGH_A, HIGH_Z], [LOW_A, FLUSHED, LOW_Z]);
  }

  lemma OneSurvivorEach()
    ensures Survivors(INPUT, 4, SETTLED.levels, 1) == [NEW_A, NEW_Z] == Flatten([OUTPUT])
  {
    var levels := SETTLED.levels;
    assert INPUT[..3] == [NEW_A, OLD_A, NEW_Z] && [NEW_A, OLD_A, NEW_Z][..2] == [NEW_A, OLD_A];
    assert [NEW_A, OLD_A][..1] == [NEW_A] && [NEW_A][..0] == [];
    assert Survivors([NEW_A], 4, levels, 1) == [NEW_A];
    assert Survivors([NEW_A, OLD_A], 4, levels, 1) == [NEW_A];
    assert Survivors([NEW_A, OLD_A, NEW_Z], 4, levels, 1) == [NEW_A, NEW_Z];
    assert [OUTPUT][..0] == [];
  }

  lemma InputMerges()
    ensures Merges(INPUT, MANUAL.in0, MANUAL.in1)
  {
    PairEntries(HIGH_A, HIGH_Z);
    PairEntries(LOW_A, LOW_Z);
  }

  lemma PairEntries(f: File, g: File)
    ensures LevelEntries([f, g]) == Entries(f.entries) + Entries(g.entries)
  {
    assert f in [f, g] && g in [f, g];
  }

  lemma OutputInstalls()
    ensures Installs(DURING.levels, AFTER.levels, 2, RUNNING.in0, RUNNING.in1, [OUTPUT])
  {
    var before, after := DURING.levels, AFTER.levels;
    forall l | 0 <= l < NUM_LEVELS ensures Ordered(after[l]) && (l != 1 && l != 2 ==> after[l] == before[l] == []) {
      assert l == 0 || l == 1 || l == 2 || l == 3 || l == 4 || l == 5 || l == 6;
    }
  }

  lemma Finishes()
    ensures |DURING.levels| == |RUNNING.start.levels| == NUM_LEVELS
    ensures EventTo(Busy(DURING, Some(RUNNING)), Finish(INPUT, [OUTPUT]), Busy(AFTER, None))
  {
    hide Installs, Merges, Survivors, Flatten;
    OneSurvivorEach();
    InputMerges();
    OutputInstalls();
  }

  /** MAIN (a defect of the code): in a reachable state a compaction under way installs a file across one
      flushed meanwhile. The key of the flushed file is stored, but no search finds it: the binary search
      over the level stops at the file that lies across it. */
  lemma KeyIsLost()
    ensures EMPTY == INITIAL && Reachable(Busy(DURING, Some(RUNNING)))
    ensures |DURING.levels| == |RUNNING.start.levels| == |AFTER.levels| == NUM_LEVELS
    ensures EventTo(Busy(DURING, Some(RUNNING)), Finish(INPUT, [OUTPUT]), Busy(AFTER, None))
    ensures !BusyInv(Busy(AFTER, None))
    ensures Read(All(AFTER), MID, AFTER.lastSequence) == Found("m")
    ensures Outcome(Hit(AFTER, MID, AFTER.lastSequence)) == NotFound
  {
    SettledReached();
    DuringReached();
    Finishes();
    AcrossFlushed();
    StillThere();
    NotFoundAnywhere();
    NoPlaceHits(AFTER, 0, MID, AFTER.lastSequence);
  }

  lemma {:induction false} NoPlaceHits(st: State, i: nat, user: UserKey, s: SequenceNumber)
    requires |st.levels| == NUM_LEVELS && i <= NUM_SOURCES
    requires forall j :: i <= j < NUM_SOURCES ==> AnswerAt(st, j, user, s) == None
    ensures HitFrom(st, i, user, s) == None
    decreases NUM_SOURCES - i
  {
    if i < NUM_SOURCES {
      NoPlaceHits(st, i + 1, user, s);
    }
  }

  lemma AcrossFlushed()
    ensures !Inv(AFTER)
  {
    assert !Before(AFTER.levels[2][0].largest, AFTER.levels[2][1].smallest);
  }

  lemma StillThere()
    ensures |AFTER.levels| == NUM_LEVELS && Read(All(AFTER), MID, 5) == Found("m")
  {
    var all := All(AFTER);
    forall l | 0 <= l < NUM_LEVELS && l != 2 ensures AFTER.levels[l] == [] {
      assert l == 0 || l == 1 || l == 3 || l == 4 || l == 5 || l == 6;
    }
    PairEntries(OUTPUT, FLUSHED);
    assert Source(AFTER, 4) == LevelEntries([OUTPUT, FLUSHED]);
    assert all == Source(AFTER, 4) == {NEW_A, NEW_Z, MIDDLE};
    ReadVisible(all, MID, 5, MIDDLE);
  }

  lemma NotFoundAnywhere()
    ensures |AFTER.levels| == NUM_LEVELS && forall i :: 0 <= i < NUM_SOURCES ==> AnswerAt(AFTER, i, MID, 5) == None
  {
    var key := LookupKey(MID, 5);
    var files := AFTER.levels[2];
    assert files == [OUTPUT, FLUSHED];
    assert Compare(OUTPUT.largest, key) >= 0 && Compare(FLUSHED.largest, key) >= 0;
    assert Search(files, key, 0, 0) == 0;
    assert Search(files, key, 0, 1) == 0;
    assert Search(files, key, 0, 2) == 0;
    assert Seek([NEW_Z], key) == 0;
    assert OUTPUT.entries[1..] == [NEW_Z] && Seek(OUTPUT.entries, key) == 1;
    forall l | 0 <= l < NUM_LEVELS && l != 2 ensures AFTER.levels[l] == [] {
      assert l == 0 || l == 1 || l == 3 || l == 4 || l == 5 || l == 6;
    }
    forall i | 0 <= i < NUM_SOURCES && i != 4 ensures AnswerAt(AFTER, i, MID, 5) == None {
      if i == 2 { NothingHolds(MID, 5); }
    }
  }

  lemma NothingHolds(user: UserKey, s: SequenceNumber)
    ensures FromLevel([], 0, user, s) == None
  {
  }
}
