/** Background work as it interleaves (db/db_impl.cc): a compaction reads its inputs with the mutex
    released. Meanwhile writes and snapshots go on, and the compaction's own loop flushes the immutable
    memtable; the outputs are installed into whatever version is current at the end. */
module Interleaved {
  import opened Wrappers
  import opened DbFormat
  import opened Versions
  import opened VersionBuilder
  import opened Boundary
  import opened Gaps
  import opened Inputs
  import opened Compactions
  import opened States
  import opened Steps
  import opened Structure
  import opened StepInvariant
  import opened Safety
  import opened Runs

  /** A compaction under way: the state it began in, its inputs, and the file numbers it has taken. */
  datatype Pending = Pending(start: State, level: nat, in0: seq<File>, in1: seq<File>, taken: seq<nat>)

  datatype Busy = Busy(st: State, pending: Option<Pending>)

  datatype Event =
    | Begin(level: nat, in0: seq<File>, in1: seq<File>)
    | OpenOutput
    | Meanwhile(step: Step)
    | Finish(input: seq<Entry>, outputs: seq<File>)
    | Abandon

  /** The outputs of a compaction: the smallest snapshot and the version are those it began with. */
  ghost predicate Produces(p: Pending, input: seq<Entry>, outputs: seq<File>)
    requires |p.start.levels| == NUM_LEVELS
  {
    && Merges(input, p.in0, p.in1)
    && Flatten(outputs) == Survivors(input, SmallestSnapshot(p.start), p.start.levels, p.level)
    && (forall f :: f in outputs ==> EndsMatch(f))
    && |outputs| == |p.taken| && forall j :: 0 <= j < |outputs| ==> outputs[j].number == p.taken[j]
  }

  ghost predicate EventTo(b: Busy, event: Event, b': Busy)
    requires |b.st.levels| == NUM_LEVELS && (b.pending.Some? ==> |b.pending.value.start.levels| == NUM_LEVELS)
  {
    match event
    case Begin(level, in0, in1) =>
      && b.pending.None? && level + 1 < NUM_LEVELS && LegalInputs(b.st.levels, level, in0, in1)
      && b' == Busy(b.st, Some(Pending(b.st, level, in0, in1, [])))
    case OpenOutput =>
      && b.pending.Some?
      && b' == Busy(b.st.(nextFile := b.st.nextFile + 1), Some(b.pending.value.(taken := b.pending.value.taken + [b.st.nextFile])))
    case Meanwhile(step) =>
      && !step.Compact? && (step.TrivialMove? ==> b.pending.None?)
      && StepTo(b.st, step, b'.st) && b'.pending == b.pending
    case Finish(input, outputs) =>
      && b.pending.Some? && b'.pending.None?
      && Produces(b.pending.value, input, outputs)
      && Installs(b.st.levels, b'.st.levels, b.pending.value.level + 1, b.pending.value.in0, b.pending.value.in1, outputs)
      && b'.st == b.st.(levels := b'.st.levels)
    case Abandon => b' == Busy(b.st, None)
  }

  /** `all'` has nothing more than `all` but entries newer than `s`. */
  ghost predicate Gains(all: set<Entry>, all': set<Entry>, s: nat) {
    all <= all' && forall e :: e in all' && e !in all ==> e.key.sn > s
  }

  ghost predicate Later(st: State, st': State) {
    && |st.levels| == |st'.levels| == NUM_LEVELS
    && st.lastSequence <= st'.lastSequence
    && (forall s :: s in st'.snapshots ==> s >= SmallestSnapshot(st))
    && (forall l, f :: 0 <= l < NUM_LEVELS && f in st.levels[l] ==> f in st'.levels[l])
    && Gains(All(st), All(st'), st.lastSequence)
  }

  /** A file flushed since the compaction began: no deeper than a flush goes, newer than the inputs of
      its level, and below level 0 clear of every file that was there. */
  ghost predicate Arrived(p: Pending, l: nat, g: File)
    requires |p.start.levels| == NUM_LEVELS && l < NUM_LEVELS
  {
    && l <= MAX_MEM_COMPACT_LEVEL
    && (l == p.level ==> Newer(Entries(g.entries), LevelEntries(p.in0)))
    && (l > 0 ==> forall m, f :: 0 <= m <= l && f in p.start.levels[m] ==> !Meets(f, Some(g.smallest.user), Some(g.largest.user)))
  }

  /** The numbers taken for outputs name no other file. */
  ghost predicate Reserved(p: Pending, st: State)
    requires |st.levels| == NUM_LEVELS
  {
    && (forall j :: 0 <= j < |p.taken| ==> p.taken[j] < st.nextFile)
    && (forall i, j :: 0 <= i < j < |p.taken| ==> p.taken[i] < p.taken[j])
    && (forall l, f :: 0 <= l < NUM_LEVELS && f in st.levels[l] ==> f.number !in p.taken)
  }

  ghost predicate AllArrived(p: Pending, st: State)
    requires |p.start.levels| == |st.levels| == NUM_LEVELS
  {
    forall l, g :: 0 <= l < NUM_LEVELS && g in st.levels[l] && g !in p.start.levels[l] ==> Arrived(p, l, g)
  }

  /** What a compaction under way can rely on, whatever has happened since it began. */
  ghost predicate Underway(p: Pending, st: State) {
    && Inv(p.start) && p.level + 1 < NUM_LEVELS && LegalInputs(p.start.levels, p.level, p.in0, p.in1)
    && Later(p.start, st) && AllArrived(p, st) && Reserved(p, st)
  }

  ghost predicate BusyInv(b: Busy) {
    Inv(b.st) && (b.pending.Some? ==> Underway(b.pending.value, b.st))
  }

  lemma BusyShape(b: Busy)
    requires BusyInv(b)
    ensures |b.st.levels| == NUM_LEVELS && (b.pending.Some? ==> |b.pending.value.start.levels| == NUM_LEVELS)
    ensures b.pending.Some? ==> b.pending.value.level + 1 < NUM_LEVELS
  {
  }

  lemma OldestIsSmallest(st: State)
    requires Inv(st)
    ensures SmallestSnapshot(st) <= st.lastSequence && forall s :: s in st.snapshots ==> SmallestSnapshot(st) <= s
  {
  }

  lemma BeginKeeps(b: Busy, event: Event, b': Busy)
    requires BusyInv(b) && event.Begin? && EventTo(b, event, b')
    ensures BusyInv(b')
  {
    OldestIsSmallest(b.st);
  }

  lemma OpenKeeps(b: Busy, b': Busy)
    requires BusyInv(b) && EventTo(b, OpenOutput, b')
    ensures BusyInv(b')
  {
    var p, p' := b.pending.value, b'.pending.value;
    NumberTaken(b.st, b'.st);
    forall l, f | 0 <= l < NUM_LEVELS && f in b.st.levels[l] ensures f.number !in p'.taken {
      assert f.number !in p.taken;
    }
  }

  lemma NumberTaken(st: State, st': State)
    requires Inv(st) && st' == st.(nextFile := st.nextFile + 1)
    ensures Inv(st') && All(st') == All(st)
    ensures forall l, f :: 0 <= l < NUM_LEVELS && f in st.levels[l] ==> f.number < st.nextFile
  {
    SameSources(st, st');
    SameSourcesSameEntries(st, st');
    SameLevels(st, st');
  }

  /** A step other than a compaction: the store gains at most entries newer than all it held. */
  lemma StepGains(st: State, step: Step, st': State)
    requires Inv(st) && StepTo(st, step, st') && !step.Compact? && !step.TrivialMove?
    ensures |st.levels| == |st'.levels| == NUM_LEVELS && Gains(All(st), All(st'), st.lastSequence)
    ensures st.lastSequence <= st'.lastSequence && st.nextFile <= st'.nextFile
  {
    match step
    case Write(ops) => WriteGains(st, ops, st');
    case SwitchMemTable => SwitchKeepsEntries(st, st');
    case FlushNothing =>
      SameSources(st, st');
      SameSourcesSameEntries(st, st');
    case Flush(level, f) => FlushKeepsEntries(st, level, f, st');
    case TakeSnapshot =>
      SameSources(st, st');
      SameSourcesSameEntries(st, st');
    case ReleaseSnapshot(_) =>
      SameSources(st, st');
      SameSourcesSameEntries(st, st');
  }

  lemma WriteGains(st: State, ops: seq<Op>, st': State)
    requires Inv(st) && WriteTo(st, ops, st')
    ensures Gains(All(st), All(st'), st.lastSequence)
  {
    WriteSources(st, ops, st');
    BatchFacts(ops, st.lastSequence + 1);
    var batch := BatchEntries(ops, st.lastSequence + 1);
    forall i | 0 <= i < NUM_SOURCES ensures Source(st, i) <= Source(st', i) <= Source(st, i) + batch {
    }
  }

  /** It leaves every file where it is, and may flush one more. */
  lemma StepFiles(st: State, step: Step, st': State, l: nat, g: File)
    requires Inv(st) && StepTo(st, step, st') && !step.Compact? && !step.TrivialMove? && l < NUM_LEVELS
    ensures |st'.levels| == NUM_LEVELS
    ensures g in st'.levels[l] <==> g in st.levels[l] || step == Flush(l, g)
  {
    if step.Flush? {
      assert g in Members(st'.levels[l]) <==> g in Members(st.levels[l]) || (l == step.level && g in Members([step.file]));
    }
  }

  lemma StepSnapshots(st: State, step: Step, st': State)
    requires Inv(st) && StepTo(st, step, st') && !step.Compact? && !step.TrivialMove?
    ensures forall s :: s in st'.snapshots ==> s in st.snapshots || s == st.lastSequence
  {
  }

  lemma LaterStep(start: State, st: State, step: Step, st': State)
    requires Inv(start) && Inv(st) && Later(start, st) && StepTo(st, step, st') && !step.Compact? && !step.TrivialMove?
    ensures Later(start, st')
  {
    StepGains(st, step, st');
    StepSnapshots(st, step, st');
    OldestIsSmallest(start);
    hide Inv, StepTo, All;
    forall l, f | 0 <= l < NUM_LEVELS && f in start.levels[l] ensures f in st'.levels[l] {
      StepFiles(st, step, st', l, f);
    }
  }

  lemma FlushArrived(p: Pending, st: State, l: nat, g: File, st': State)
    requires Underway(p, st) && Inv(st) && FlushTo(st, l, g, st') && l < NUM_LEVELS
    ensures Arrived(p, l, g)
  {
    if l == p.level {
      LegalIsStored(p.start.levels, p.level, p.in0, p.in1);
      assert Newer(Source(st, 1), Source(st, l + 2)) && Source(st, 1) == Entries(g.entries);
      assert LevelEntries(p.in0) <= Source(st, l + 2);
    }
    if l > 0 {
      forall m, f | 0 <= m <= l && f in p.start.levels[m] ensures !Meets(f, Some(g.smallest.user), Some(g.largest.user)) {
        assert f in st.levels[m] && !Overlaps(st.levels[m], g.smallest.user, g.largest.user);
      }
    }
  }

  lemma ArrivedStep(p: Pending, st: State, step: Step, st': State)
    requires Underway(p, st) && Inv(st) && StepTo(st, step, st') && !step.Compact? && !step.TrivialMove?
    ensures |st'.levels| == |p.start.levels| == NUM_LEVELS && AllArrived(p, st') && Reserved(p, st')
  {
    UnderwayShape(p, st);
    StepGains(st, step, st');
    forall l, g | 0 <= l < NUM_LEVELS && g in st'.levels[l]
      ensures (g !in p.start.levels[l] ==> Arrived(p, l, g)) && g.number !in p.taken
    {
      StepFiles(st, step, st', l, g);
      if g !in st.levels[l] {
        FlushArrived(p, st, l, g, st');
        assert g.number == st.nextFile;
      }
    }
  }

  lemma UnderwayShape(p: Pending, st: State)
    requires Underway(p, st)
    ensures |p.start.levels| == |st.levels| == NUM_LEVELS && p.level + 1 < NUM_LEVELS
  {
  }

  lemma MeanwhileKeeps(b: Busy, step: Step, b': Busy)
    requires BusyInv(b) && EventTo(b, Meanwhile(step), b')
    ensures BusyInv(b')
  {
    StepKeepsInv(b.st, step, b'.st);
    if b.pending.Some? {
      LaterStep(b.pending.value.start, b.st, step, b'.st);
      ArrivedStep(b.pending.value, b.st, step, b'.st);
    }
  }

  /** What stays at the level of the compaction is still newer than what it moves down. */
  lemma RemainderStillNewer(p: Pending, st: State)
    requires Underway(p, st)
    ensures RemainderNewer(st.levels[p.level], p.in0)
  {
    InputsRemainder(p.start, p.level, p.in0, p.in1);
    forall g, c | g in st.levels[p.level] && g !in p.in0 && c in p.in0 ensures Newer(Entries(g.entries), Entries(c.entries)) {
      if g !in p.start.levels[p.level] {
        assert Arrived(p, p.level, g) && Entries(c.entries) <= LevelEntries(p.in0);
      }
    }
  }

  /** The inputs are still there. */
  lemma StillStored(p: Pending, st: State)
    requires Underway(p, st)
    ensures Stored(st.levels, p.level, p.in0, p.in1)
  {
    LegalIsStored(p.start.levels, p.level, p.in0, p.in1);
  }

  lemma TakenNumbers(p: Pending, st: State, st': State, outputs: seq<File>)
    requires Underway(p, st) && NumbersDistinct(st)
    requires |outputs| == |p.taken| && forall j :: 0 <= j < |outputs| ==> outputs[j].number == p.taken[j]
    requires Installs(st.levels, st'.levels, p.level + 1, p.in0, p.in1, outputs) && st'.nextFile == st.nextFile
    ensures NumbersDistinct(st')
  {
    hide LegalInputs, Inv, Later, AllArrived, NumbersDistinct;
    assert |st.levels| == NUM_LEVELS && Reserved(p, st);
    forall l, f | 0 <= l < NUM_LEVELS && f in st'.levels[l] ensures KeptOrTaken(p, st, outputs, l, f) {
      assert f in Members(st'.levels[l]);
    }
    DistinctNumbers(p, st, st', outputs);
  }

  lemma DistinctNumbers(p: Pending, st: State, st': State, outputs: seq<File>)
    requires |st.levels| == |st'.levels| == NUM_LEVELS && Reserved(p, st) && NumbersDistinct(st) && st'.nextFile == st.nextFile
    requires |outputs| == |p.taken| && forall j :: 0 <= j < |outputs| ==> outputs[j].number == p.taken[j]
    requires forall l, f :: 0 <= l < NUM_LEVELS && f in st'.levels[l] ==> KeptOrTaken(p, st, outputs, l, f)
    ensures NumbersDistinct(st')
  {
    forall l, f | 0 <= l < NUM_LEVELS && f in st'.levels[l] ensures f.number < st'.nextFile {
      assert KeptOrTaken(p, st, outputs, l, f);
    }
    forall l, f, m, g | 0 <= l < NUM_LEVELS && 0 <= m < NUM_LEVELS && f in st'.levels[l] && g in st'.levels[m] && SameNumber(f, g)
      ensures l == m && f == g
    {
      assert KeptOrTaken(p, st, outputs, l, f) && KeptOrTaken(p, st, outputs, m, g);
      if f.number !in p.taken {
        NumberNames(st, l, f, m, g);
      }
    }
  }

  ghost predicate KeptOrTaken(p: Pending, st: State, outputs: seq<File>, l: nat, f: File)
    requires l < |st.levels|
  {
    if f.number !in p.taken then f in st.levels[l] else l == p.level + 1 && f in outputs
  }

  /** MAIN: installing the outputs keeps the invariant if and only if no file that arrived beside them
      lies across one of them. */
  lemma FinishKeeps(b: Busy, input: seq<Entry>, outputs: seq<File>, b': Busy, p: Pending)
    requires BusyInv(b) && b.pending == Some(p) && EventTo(b, Finish(input, outputs), b')
    ensures |b.st.levels| == NUM_LEVELS && p.level + 1 < NUM_LEVELS
    ensures BusyInv(b') <==> ApartFromRest(b.st.levels[p.level + 1], p.in1, outputs)
  {
    hide Inv, Underway, Produces, Installs, ApartFromRest, LegalInputs;
    BusyShape(b);
    var st, st' := b.st, b'.st;
    if ApartFromRest(st.levels[p.level + 1], p.in1, outputs) {
      ApartIsKept(p, st, input, outputs, st');
    }
    if Inv(st') {
      KeptIsApart(p, st, input, outputs, st');
    }
  }

  lemma ApartIsKept(p: Pending, st: State, input: seq<Entry>, outputs: seq<File>, st': State)
    requires Inv(st) && Underway(p, st) && Produces(p, input, outputs)
    requires Installs(st.levels, st'.levels, p.level + 1, p.in0, p.in1, outputs) && st' == st.(levels := st'.levels)
    requires ApartFromRest(st.levels[p.level + 1], p.in1, outputs)
    ensures Inv(st')
  {
    TakenNumbers(p, st, st', outputs);
    RemainderStillNewer(p, st);
    StillStored(p, st);
    OutputFacts(input, SmallestSnapshot(p.start), p.start.levels, p.level, p.in0, p.in1, outputs);
    ReplaceInv(st, st', p.level, p.in0, p.in1, outputs);
  }

  lemma KeptIsApart(p: Pending, st: State, input: seq<Entry>, outputs: seq<File>, st': State)
    requires Inv(st) && Underway(p, st) && Produces(p, input, outputs) && Inv(st')
    requires Installs(st.levels, st'.levels, p.level + 1, p.in0, p.in1, outputs)
    ensures ApartFromRest(st.levels[p.level + 1], p.in1, outputs)
  {
    var l := p.level + 1;
    forall g, o | g in st.levels[l] && g !in p.in1 && o in outputs ensures Apart(g, o) {
      assert g in Members(st'.levels[l]) && o in Members(st'.levels[l]);
      assert g.number !in p.taken && o.number in p.taken;
      PairsFromDisjoint(st'.levels[l], g, o);
    }
  }

  /** A file flushed to the output level shares no user key with an input. */
  lemma ArrivedMisses(p: Pending, g: File, f: File)
    requires |p.start.levels| == NUM_LEVELS && p.level + 1 < NUM_LEVELS && Stored(p.start.levels, p.level, p.in0, p.in1)
    requires Arrived(p, p.level + 1, g) && f in p.in0 + p.in1
    ensures f.largest.user < g.smallest.user || g.largest.user < f.smallest.user
  {
    assert f in p.start.levels[p.level] || f in p.start.levels[p.level + 1];
    assert !Meets(f, Some(g.smallest.user), Some(g.largest.user));
  }

  /** A file flushed meanwhile shares no user key with inputs without a gap, so it lies clear of what
      they become. */
  lemma ArrivedApart(p: Pending, g: File, o: File, first: File, last: File)
    requires |p.start.levels| == NUM_LEVELS && p.level + 1 < NUM_LEVELS && Stored(p.start.levels, p.level, p.in0, p.in1)
    requires Arrived(p, p.level + 1, g) && Gapless(p.in0 + p.in1)
    requires first in p.in0 + p.in1 && last in p.in0 + p.in1
    requires first.smallest.user <= o.smallest.user && o.largest.user <= last.largest.user
    requires g.smallest.user <= g.largest.user && o.smallest.user <= o.largest.user
    ensures Apart(g, o)
  {
    if g.largest.user >= o.smallest.user && o.largest.user >= g.smallest.user {
      var user := if g.smallest.user > o.smallest.user then g.smallest.user else o.smallest.user;
      assert Covered(p.in0 + p.in1, user);
      var f :| f in p.in0 + p.in1 && f.smallest.user <= user <= f.largest.user;
      ArrivedMisses(p, g, f);
    }
  }

  /** The files the ends of an output come from. */
  lemma OutputWithin(p: Pending, outputs: seq<File>, o: File) returns (first: File, last: File)
    requires ValidLevels(p.start.levels) && p.level + 1 < NUM_LEVELS && Stored(p.start.levels, p.level, p.in0, p.in1)
    requires o in outputs && WellFormed(o) && LevelEntries(outputs) <= LevelEntries(p.in0) + LevelEntries(p.in1)
    ensures first in p.in0 + p.in1 && last in p.in0 + p.in1
    ensures first.smallest.user <= o.smallest.user <= o.largest.user <= last.largest.user
  {
    FileRange(o);
    first := InputOf(p, outputs, o, o.entries[0]);
    last := InputOf(p, outputs, o, o.entries[|o.entries| - 1]);
  }

  lemma InputOf(p: Pending, outputs: seq<File>, o: File, e: Entry) returns (f: File)
    requires ValidLevels(p.start.levels) && p.level + 1 < NUM_LEVELS && Stored(p.start.levels, p.level, p.in0, p.in1)
    requires o in outputs && e in o.entries && LevelEntries(outputs) <= LevelEntries(p.in0) + LevelEntries(p.in1)
    ensures f in p.in0 + p.in1 && f.smallest.user <= e.key.user <= f.largest.user
  {
    assert e in LevelEntries(outputs);
    f :| f in p.in0 + p.in1 && e in f.entries;
    LevelFacts0(p.start.levels, if f in p.in0 then p.level else p.level + 1, f);
    EntryRange(f, e);
  }

  /** No flush reaches the output level, or the inputs leave no gap for one. */
  ghost predicate OutOfReach(level: nat, in0: seq<File>, in1: seq<File>) {
    level + 1 > MAX_MEM_COMPACT_LEVEL || Gapless(in0 + in1)
  }

  /** MAIN: a compaction of inputs without a gap, as every automatic one is, and one into a level below
      those a flush may pick, cannot be disturbed by what is flushed meanwhile. */
  lemma OutOfReachFinishes(b: Busy, input: seq<Entry>, outputs: seq<File>, p: Pending)
    requires BusyInv(b) && b.pending == Some(p) && |p.start.levels| == NUM_LEVELS && Produces(p, input, outputs)
    requires OutOfReach(p.level, p.in0, p.in1)
    ensures |b.st.levels| == NUM_LEVELS && p.level + 1 < NUM_LEVELS && ApartFromRest(b.st.levels[p.level + 1], p.in1, outputs)
  {
    hide Gapless, LegalInputs, Newer, Covered, Later, Reserved, SourceOrder, Level0Order, NumbersDistinct, Bounded, OutOfReach;
    BusyShape(b);
    LegalIsStored(p.start.levels, p.level, p.in0, p.in1);
    OutputFacts(input, SmallestSnapshot(p.start), p.start.levels, p.level, p.in0, p.in1, outputs);
    forall g, o | g in b.st.levels[p.level + 1] && g !in p.in1 && o in outputs ensures Apart(g, o) {
      BesideOutput(p, b.st, outputs, g, o);
    }
  }

  lemma BesideOutput(p: Pending, st: State, outputs: seq<File>, g: File, o: File)
    requires Inv(st) && Underway(p, st) && Stored(p.start.levels, p.level, p.in0, p.in1) && OutOfReach(p.level, p.in0, p.in1)
    requires Disjoint(outputs) && LevelEntries(outputs) <= LevelEntries(p.in0) + LevelEntries(p.in1)
    requires g in st.levels[p.level + 1] && g !in p.in1 && o in outputs
    ensures Apart(g, o)
  {
    hide Gapless, LegalInputs, Stored, Newer, Covered, Later, Reserved, SourceOrder, Level0Order, NumbersDistinct, Bounded, LevelEntries;
    if g in p.start.levels[p.level + 1] {
      OutputsApart(p.start.levels, p.level, p.in0, p.in1, outputs, g, o);
    } else {
      assert Arrived(p, p.level + 1, g);
      var first, last := OutputWithin(p, outputs, o);
      LevelFacts0(st.levels, p.level + 1, g);
      FileRange(g);
      ArrivedApart(p, g, o, first, last);
    }
  }

  /** Entries newer than everything seen when a compaction began change nothing about what it uncovers. */
  lemma SameResurfacing(rest: set<Entry>, rest': set<Entry>, inputs: set<Entry>, levels: seq<seq<File>>, level: nat,
                        smallest: nat, last: nat, x: Entry, y: Entry)
    requires |levels| == NUM_LEVELS && Gains(rest, rest', last) && smallest <= last
    ensures ResurfacesAs(rest, inputs, levels, level, smallest, x, y) <==> ResurfacesAs(rest', inputs, levels, level, smallest, x, y)
  {
    if x.key.sn <= smallest {
      SameVisible(rest, rest', last, x.key.user, x.key.sn, y);
    }
    SameVisible(rest + inputs, rest' + inputs, last, x.key.user, smallest, x);
  }

  lemma SameVisible(all: set<Entry>, all': set<Entry>, last: nat, user: UserKey, s: nat, e: Entry)
    requires Gains(all, all', last) && s <= last
    ensures Visible(all, user, s, e) <==> Visible(all', user, s, e)
  {
    assert e in all' && e.key.sn <= s ==> e in all;
  }

  /** What lies outside the inputs has only gained newer entries. */
  lemma RestGains(p: Pending, st: State)
    requires Inv(st) && Underway(p, st)
    ensures Gains(Untouched(p.start, p.level, p.in0, p.in1), Untouched(st, p.level, p.in0, p.in1), p.start.lastSequence)
  {
    LegalIsStored(p.start.levels, p.level, p.in0, p.in1);
    StillStored(p, st);
    InputSplit(p.start, p.level, p.in0, p.in1);
    InputSplit(st, p.level, p.in0, p.in1);
    var inputs := LevelEntries(p.in0) + LevelEntries(p.in1);
    var rest, rest' := Untouched(p.start, p.level, p.in0, p.in1), Untouched(st, p.level, p.in0, p.in1);
    hide *;
    GainsOutside(rest, rest', inputs, All(p.start), All(st), p.start.lastSequence);
  }

  lemma GainsOutside(rest: set<Entry>, rest': set<Entry>, inputs: set<Entry>, all: set<Entry>, all': set<Entry>, s: nat)
    requires Gains(all, all', s) && all == rest + inputs && all' == rest' + inputs && rest !! inputs && rest' !! inputs
    ensures Gains(rest, rest', s)
  {
    forall e | e in rest ensures e in rest' {
      assert e in all && e in all' && e !in inputs;
    }
    forall e | e in rest' && e !in rest ensures e.key.sn > s {
      assert e in all' && e !in inputs && e !in all;
    }
  }

  lemma ProducedDrops(p: Pending, input: seq<Entry>, outputs: seq<File>)
    requires |p.start.levels| == NUM_LEVELS && Produces(p, input, outputs) && Unique(LevelEntries(p.in0) + LevelEntries(p.in1))
    ensures DropsTo(LevelEntries(p.in0) + LevelEntries(p.in1), LevelEntries(outputs), p.start.levels, p.level, SmallestSnapshot(p.start))
  {
    OutputFacts(input, SmallestSnapshot(p.start), p.start.levels, p.level, p.in0, p.in1, outputs);
    SurvivorsDropTo(input, SmallestSnapshot(p.start), p.start.levels, p.level);
  }

  lemma PartUnique(all: set<Entry>, part: set<Entry>)
    requires Unique(all) && part <= all
    ensures Unique(part)
  {
  }

  lemma InstallReads(p: Pending, st: State, input: seq<Entry>, outputs: seq<File>, st': State)
    requires Inv(st) && Underway(p, st) && Produces(p, input, outputs)
    requires Installs(st.levels, st'.levels, p.level + 1, p.in0, p.in1, outputs) && st' == st.(levels := st'.levels)
    ensures |st.levels| == |st'.levels| == |p.start.levels| == NUM_LEVELS && p.level + 1 < NUM_LEVELS
    ensures (forall s, user :: s >= SmallestSnapshot(p.start) ==> Read(All(st), user, s) == Read(All(st'), user, s)) <==>
      !Resurfaces(p.start, p.level, p.in0, p.in1)
  {
    hide Shape, SourceOrder, Level0Order, NumbersDistinct, Bounded, LegalInputs, Later, AllArrived, Reserved, Produces, Stored;
    hide Untouched, LevelEntries, All, Read, Unique, DropsTo, Gains, ResurfacesAs, Members, Ordered;
    UnderwayShape(p, st);
    RestGains(p, st);
    StillStored(p, st);
    OldestIsSmallest(p.start);
    AllUnique(st);
    InputSplit(st, p.level, p.in0, p.in1);
    OutputSplit(st, st', p.level, p.in0, p.in1, outputs);
    PartUnique(All(st), LevelEntries(p.in0) + LevelEntries(p.in1));
    ProducedDrops(p, input, outputs);
    ReadsThroughDrop(Untouched(p.start, p.level, p.in0, p.in1), Untouched(st, p.level, p.in0, p.in1),
                     LevelEntries(p.in0) + LevelEntries(p.in1), LevelEntries(outputs),
                     p.start.levels, p.level, SmallestSnapshot(p.start), p.start.lastSequence);
  }

  /** MAIN: whatever went on meanwhile, finishing keeps every read at or above the snapshot the
      compaction began with if and only if nothing resurfaced in the state it began in. */
  lemma FinishReads(b: Busy, input: seq<Entry>, outputs: seq<File>, b': Busy, p: Pending)
    requires BusyInv(b) && b.pending == Some(p) && EventTo(b, Finish(input, outputs), b')
    ensures |b.st.levels| == |b'.st.levels| == |p.start.levels| == NUM_LEVELS && p.level + 1 < NUM_LEVELS
    ensures (forall s :: s >= SmallestSnapshot(p.start) ==> SameReads(b.st, b'.st, s)) <==> !Resurfaces(p.start, p.level, p.in0, p.in1)
  {
    hide Inv, Underway, Produces, LegalInputs, Resurfaces, Read, All;
    BusyShape(b);
    InstallReads(p, b.st, input, outputs, b'.st);
    if forall s :: s >= SmallestSnapshot(p.start) ==> SameReads(b.st, b'.st, s) {
      forall s: nat, user | s >= SmallestSnapshot(p.start) ensures Read(All(b.st), user, s) == Read(All(b'.st), user, s) {
        assert SameReads(b.st, b'.st, s);
      }
    }
  }

  lemma ReadsThroughDrop(rest: set<Entry>, rest': set<Entry>, inputs: set<Entry>, outputs: set<Entry>,
                         levels: seq<seq<File>>, level: nat, smallest: nat, last: nat)
    requires |levels| == NUM_LEVELS && Gains(rest, rest', last) && smallest <= last
    requires Unique(rest' + inputs) && rest' !! inputs && DropsTo(inputs, outputs, levels, level, smallest)
    ensures (forall s, user :: s >= smallest ==> Read(rest' + inputs, user, s) == Read(rest' + outputs, user, s)) <==>
      !exists x, y :: ResurfacesAs(rest, inputs, levels, level, smallest, x, y)
  {
    if x, y :| ResurfacesAs(rest, inputs, levels, level, smallest, x, y) {
      SameResurfacing(rest, rest', inputs, levels, level, smallest, last, x, y);
      DropChangesRead(rest', inputs, outputs, levels, level, smallest, x, y);
    } else {
      forall x, y ensures !ResurfacesAs(rest', inputs, levels, level, smallest, x, y) {
        SameResurfacing(rest, rest', inputs, levels, level, smallest, last, x, y);
      }
      forall s: nat, user | s >= smallest ensures Read(rest' + inputs, user, s) == Read(rest' + outputs, user, s) {
        DropKeepsRead(rest', inputs, outputs, levels, level, smallest, user, s);
      }
    }
  }

  /** Nothing stands in the way of what a compaction installs, and no deleted value comes back. */
  ghost predicate SafeEvent(b: Busy, event: Event)
    requires |b.st.levels| == NUM_LEVELS && (b.pending.Some? ==> |b.pending.value.start.levels| == NUM_LEVELS)
  {
    event.Finish? && b.pending.Some? && b.pending.value.level + 1 < NUM_LEVELS ==>
      && ApartFromRest(b.st.levels[b.pending.value.level + 1], b.pending.value.in1, event.outputs)
      && !Resurfaces(b.pending.value.start, b.pending.value.level, b.pending.value.in0, b.pending.value.in1)
  }

  lemma EventKeeps(b: Busy, event: Event, b': Busy)
    requires BusyInv(b) && EventTo(b, event, b') && SafeEvent(b, event)
    ensures BusyInv(b')
  {
    hide Inv, Underway, Produces, Installs, StepTo, LegalInputs, ApartFromRest, Resurfaces;
    BusyShape(b);
    match event
    case Begin(_, _, _) => BeginKeeps(b, event, b');
    case OpenOutput => OpenKeeps(b, b');
    case Meanwhile(step) => MeanwhileKeeps(b, step, b');
    case Finish(input, outputs) => FinishKeeps(b, input, outputs, b', b.pending.value);
    case Abandon =>
  }

  lemma EventKeepsReads(b: Busy, event: Event, b': Busy, s: nat)
    requires BusyInv(b) && EventTo(b, event, b') && SafeEvent(b, event) && s in b.st.snapshots
    ensures |b.st.levels| == |b'.st.levels| == NUM_LEVELS && SameReads(b.st, b'.st, s)
  {
    match event
    case Begin(_, _, _) =>
    case OpenOutput => NumberTaken(b.st, b'.st);
    case Meanwhile(step) => StepKeepsReads(b.st, step, b'.st);
    case Finish(input, outputs) =>
      FinishReads(b, input, outputs, b', b.pending.value);
      assert s >= SmallestSnapshot(b.pending.value.start);
    case Abandon =>
  }

  ghost predicate SafeEventTo(b: Busy, event: Event, b': Busy) {
    && |b.st.levels| == NUM_LEVELS && (b.pending.Some? ==> |b.pending.value.start.levels| == NUM_LEVELS)
    && EventTo(b, event, b') && SafeEvent(b, event)
  }

  ghost predicate IsBusyRun(run: seq<Busy>, events: seq<Event>) {
    && |run| == |events| + 1
    && BusyInv(run[0])
    && forall i {:trigger events[i]} :: 0 <= i < |events| ==> SafeEventTo(run[i], events[i], run[i + 1])
  }

  /** MAIN: every state of every interleaved run satisfies the invariant. */
  lemma {:induction false} BusyRunKeepsInv(run: seq<Busy>, events: seq<Event>, i: nat)
    requires IsBusyRun(run, events) && i < |run|
    ensures BusyInv(run[i]) && Inv(run[i].st)
  {
    if i > 0 {
      BusyRunKeepsInv(run, events, i - 1);
      EventKeeps(run[i - 1], events[i - 1], run[i]);
    }
  }

  /** MAIN: a live snapshot reads the same at every moment of an interleaved run. */
  lemma {:induction false} BusySnapshotReads(run: seq<Busy>, events: seq<Event>, i: nat, j: nat, s: nat)
    requires IsBusyRun(run, events) && i <= j < |run|
    requires forall k :: i <= k < j ==> s in run[k].st.snapshots
    ensures |run[i].st.levels| == |run[j].st.levels| == NUM_LEVELS && SameReads(run[i].st, run[j].st, s)
    decreases j
  {
    hide BusyInv, EventTo, SafeEvent, SameReads, SafeEventTo;
    BusyRunState(run, events, i);
    BusyRunState(run, events, j);
    if i < j {
      BusyRunState(run, events, j - 1);
      BusySnapshotReads(run, events, i, j - 1, s);
      EventKeepsReads(run[j - 1], events[j - 1], run[j], s);
      SameReadsChain(run[i].st, run[j - 1].st, run[j].st, s);
    } else {
      SameReadsChain(run[i].st, run[i].st, run[i].st, s);
    }
  }

  lemma BusyRunState(run: seq<Busy>, events: seq<Event>, i: nat)
    requires IsBusyRun(run, events) && i < |run|
    ensures BusyInv(run[i]) && |run[i].st.levels| == NUM_LEVELS && |run| == |events| + 1
    ensures run[i].pending.Some? ==> |run[i].pending.value.start.levels| == NUM_LEVELS
    ensures i < |events| ==> EventTo(run[i], events[i], run[i + 1]) && SafeEvent(run[i], events[i])
  {
    BusyRunKeepsInv(run, events, i);
    BusyShape(run[i]);
  }
}
