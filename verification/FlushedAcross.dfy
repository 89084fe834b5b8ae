/** What a file that lies across an output costs (db/db_impl.cc): when a compaction finishes, every
    search of the store finds what it should if and only if no file that was flushed meanwhile to the
    output level lies across an output. The search of a level trusts that largest keys ascend; the
    first file flushed into the range of an output comes right behind it with a smaller largest key. */
module FlushedAcross {
  import opened Wrappers
  import opened DbFormat
  import opened Versions
  import opened VersionBuilder
  import opened Inputs
  import opened Compactions
  import opened States
  import opened Steps
  import opened Structure
  import opened StepInvariant
  import opened Lookup
  import opened Interleaved

  /** `f` lies strictly inside `o` by user key, and `o` has no entry of its user keys. */
  ghost predicate Within(o: File, f: File) {
    && o.smallest.user < f.smallest.user && f.largest.user < o.largest.user
    && forall e :: e in o.entries ==> e.key.user < f.smallest.user || f.largest.user < e.key.user
  }

  /** A level as a compaction leaves it: files that stayed, disjoint among themselves, and outputs,
      disjoint too; a file that stayed lies apart from an output or strictly within it. */
  ghost predicate Mixed(files: seq<File>, stayed: seq<File>, outputs: seq<File>) {
    && Ordered(files) && Disjoint(stayed) && Disjoint(outputs)
    && (forall f :: f in files ==> f in stayed || f in outputs)
    && (forall f :: f in stayed ==> f !in outputs)
    && forall f, o :: f in files && f in stayed && o in outputs ==> Apart(f, o) || Within(o, f)
  }

  lemma OrderedPair(files: seq<File>, i: nat, j: nat)
    requires Ordered(files) && i < j < |files|
    ensures AtOrBefore(files[i].smallest, files[j].smallest) && files[i] != files[j]
  {
    assert BySmallestKey(files[i], files[j]);
  }

  /** Two files that start in order and of which the first is an output: the second is within it, or
      behind it. */
  lemma StartsBehind(files: seq<File>, stayed: seq<File>, outputs: seq<File>, a: nat, i: nat)
    requires Mixed(files, stayed, outputs) && a < i < |files| && files[a] in outputs
    ensures WellFormed(files[a]) && WellFormed(files[i])
    ensures Before(files[a].largest, files[i].smallest) || (files[i] in stayed && Within(files[a], files[i]))
  {
    var o, f := files[a], files[i];
    OrderedPair(files, a, i);
    FileRange(o);
    FileRange(f);
    if f in outputs {
      PairsFromDisjoint(outputs, o, f);
    }
  }

  /** A file that starts before an output ends before it. */
  lemma StartsAhead(files: seq<File>, stayed: seq<File>, outputs: seq<File>, a: nat, i: nat)
    requires Mixed(files, stayed, outputs) && i < a < |files| && files[a] in outputs
    ensures WellFormed(files[i]) && Before(files[i].largest, files[a].smallest)
  {
    var o, f := files[a], files[i];
    OrderedPair(files, i, a);
    FileRange(o);
    FileRange(f);
    if f in outputs {
      PairsFromDisjoint(outputs, o, f);
    }
  }

  /** The file right behind an output that has one within it. */
  lemma NextIsWithin(files: seq<File>, stayed: seq<File>, outputs: seq<File>, a: nat, b: nat)
    requires Mixed(files, stayed, outputs) && a < |files| && b < |files| && files[a] in outputs
    requires files[b] in stayed && Within(files[a], files[b])
    ensures a + 1 <= b && files[a + 1] in stayed && Within(files[a], files[a + 1])
  {
    if b < a {
      OrderedPair(files, b, a);
    }
    StartsBehind(files, stayed, outputs, a, a + 1);
    if a + 1 < b {
      OrderedPair(files, a + 1, b);
    }
    StartsBehind(files, stayed, outputs, a, b);
    FileRange(files[b]);
  }

  /** A search for the first key of that file stops at the output, which does not have it. */
  lemma NextIsMissed(files: seq<File>, stayed: seq<File>, outputs: seq<File>, a: nat) returns (e: Entry)
    requires Mixed(files, stayed, outputs) && a + 1 < |files| && files[a] in outputs
    requires files[a + 1] in stayed && Within(files[a], files[a + 1])
    ensures e in LevelEntries(files) && e in files[a + 1].entries && Probe(files, e.key.user, e.key.sn) == None
  {
    var o, f := files[a], files[a + 1];
    StartsBehind(files, stayed, outputs, a, a + 1);
    e := f.entries[0];
    assert f in files && e in f.entries;
    FileRange(f);
    FileRange(o);
    var key := LookupKey(e.key.user, e.key.sn);
    forall i | 0 <= i < a ensures Compare(files[i].largest, key) < 0 {
      StartsAhead(files, stayed, outputs, a, i);
    }
    forall i | a <= i < |files| ensures Compare(files[i].largest, key) >= 0 {
      if i > a + 1 {
        OrderedPair(files, a + 1, i);
        StartsBehind(files, stayed, outputs, a, i);
        FileRange(files[i]);
      }
    }
    SearchStops(files, key, 0, |files|, a);
    var n := Seek(o.entries, key);
    assert n < |o.entries| ==> o.entries[n] in o.entries;
  }

  lemma AcrossIsMissed(files: seq<File>, stayed: seq<File>, outputs: seq<File>, f: File, o: File) returns (e: Entry)
    requires Mixed(files, stayed, outputs) && f in files && f in stayed && o in files && o in outputs && Within(o, f)
    ensures e in LevelEntries(files) && Probe(files, e.key.user, e.key.sn) == None
  {
    var a :| 0 <= a < |files| && files[a] == o;
    var b :| 0 <= b < |files| && files[b] == f;
    hide Mixed, Within, LevelEntries, Probe;
    NextIsWithin(files, stayed, outputs, a, b);
    e := NextIsMissed(files, stayed, outputs, a);
  }

  /** A file flushed meanwhile is apart from an output or within it. */
  lemma ArrivedWithin(p: Pending, outputs: seq<File>, g: File, o: File)
    requires ValidLevels(p.start.levels) && p.level + 1 < NUM_LEVELS && Stored(p.start.levels, p.level, p.in0, p.in1)
    requires Arrived(p, p.level + 1, g) && WellFormed(g) && WellFormed(o) && o in outputs
    requires LevelEntries(outputs) <= LevelEntries(p.in0) + LevelEntries(p.in1)
    ensures Apart(g, o) || Within(o, g)
  {
    assert |p.start.levels| == NUM_LEVELS;
    hide ValidLevels, LevelEntries;
    FileRange(g);
    FileRange(o);
    forall e | e in o.entries ensures e.key.user < g.smallest.user || g.largest.user < e.key.user {
      var f := InputOf(p, outputs, o, e);
      ArrivedMisses(p, g, f);
    }
    assert o.entries[0] in o.entries && o.entries[|o.entries| - 1] in o.entries;
  }

  /** What a finishing compaction leaves at its output level. */
  lemma InstalledIsMixed(p: Pending, st: State, input: seq<Entry>, outputs: seq<File>, st': State)
    requires Inv(st) && Underway(p, st) && Produces(p, input, outputs)
    requires Installs(st.levels, st'.levels, p.level + 1, p.in0, p.in1, outputs)
    ensures Mixed(st'.levels[p.level + 1], st.levels[p.level + 1], outputs)
  {
    var l := p.level + 1;
    hide Gains, Newer, SourceOrder, Level0Order, NumbersDistinct, Bounded, LegalInputs, Within, Apart, LevelEntries, Survivors, Flatten;
    LegalIsStored(p.start.levels, p.level, p.in0, p.in1);
    OutputFacts(input, SmallestSnapshot(p.start), p.start.levels, p.level, p.in0, p.in1, outputs);
    forall f | f in outputs ensures f.number in p.taken {}
    forall f | f in st'.levels[l] ensures f in outputs || (f in st.levels[l] && f !in p.in1) {
      assert f in Members(st'.levels[l]);
    }
    forall f, o | f in st'.levels[l] && f in st.levels[l] && o in outputs ensures Apart(f, o) || Within(o, f) {
      assert f.number !in p.taken;
      if f in p.start.levels[l] {
        OutputsApart(p.start.levels, p.level, p.in0, p.in1, outputs, f, o);
      } else {
        LevelFacts0(st.levels, l, f);
        ArrivedWithin(p, outputs, f, o);
      }
    }
  }

  /** Every search of a level below level 0 finds the newest entry at or below the sequence number. */
  ghost predicate LevelsAnswer(levels: seq<seq<File>>) {
    forall l, user: UserKey, s: SequenceNumber :: 1 <= l < |levels| ==> Answers(LevelEntries(levels[l]), user, s, Probe(levels[l], user, s))
  }

  /** Every search of the store does. */
  ghost predicate AllAnswered(st: State)
    requires |st.levels| == NUM_LEVELS
  {
    forall user: UserKey, s: SequenceNumber :: Answers(All(st), user, s, Hit(st, user, s))
  }

  lemma InvAnswers(st: State)
    requires Inv(st)
    ensures LevelsAnswer(st.levels) && AllAnswered(st)
  {
    forall l, user: UserKey, s: SequenceNumber | 1 <= l < NUM_LEVELS
      ensures Answers(LevelEntries(st.levels[l]), user, s, Probe(st.levels[l], user, s))
    {
      ProbeAnswers(st.levels[l], user, s);
    }
    forall user: UserKey, s: SequenceNumber ensures Answers(All(st), user, s, Hit(st, user, s)) {
      HitIsNewest(st, user, s);
    }
  }

  /** A pair that is not apart is in the level afterwards, one file within the other. */
  lemma NotApartPair(before: seq<File>, files: seq<File>, in1: seq<File>, outputs: seq<File>) returns (g: File, o: File)
    requires Members(files) == Members(before) - Members(in1) + Members(outputs)
    requires !ApartFromRest(before, in1, outputs)
    ensures g in before && g in files && o in files && o in outputs && !Apart(g, o)
  {
    g, o :| g in before && g !in in1 && o in outputs && !Apart(g, o);
    assert g in Members(files) && o in Members(files);
  }

  /** If a file lies across an output, an entry of the level is missed. */
  lemma NotApartMisses(p: Pending, st: State, input: seq<Entry>, outputs: seq<File>, st': State) returns (e: Entry)
    requires Inv(st) && Underway(p, st) && Produces(p, input, outputs)
    requires Installs(st.levels, st'.levels, p.level + 1, p.in0, p.in1, outputs)
    requires !ApartFromRest(st.levels[p.level + 1], p.in1, outputs)
    ensures |st'.levels| == NUM_LEVELS && p.level + 1 < NUM_LEVELS
    ensures e in LevelEntries(st'.levels[p.level + 1]) && Probe(st'.levels[p.level + 1], e.key.user, e.key.sn) == None
  {
    hide Inv, Produces, LegalInputs, Later, AllArrived, Reserved, ApartFromRest, Apart, Within, LevelEntries, Probe, Disjoint, Ordered, Members;
    var l := p.level + 1;
    var g, o := NotApartPair(st.levels[l], st'.levels[l], p.in1, outputs);
    InstalledIsMixed(p, st, input, outputs, st');
    e := AcrossIsMissed(st'.levels[l], st.levels[l], outputs, g, o);
  }

  lemma MissedIsWrong(levels: seq<seq<File>>, l: nat, e: Entry)
    requires 1 <= l < |levels| && e in LevelEntries(levels[l]) && Probe(levels[l], e.key.user, e.key.sn) == None
    ensures !LevelsAnswer(levels)
  {
    assert !Answers(LevelEntries(levels[l]), e.key.user, e.key.sn, Probe(levels[l], e.key.user, e.key.sn));
  }

  /** What a place answers is stored there. */
  lemma AnswerIsStored(st: State, i: nat, user: UserKey, s: SequenceNumber)
    requires |st.levels| == NUM_LEVELS && i < NUM_SOURCES && AnswerAt(st, i, user, s).Some?
    ensures AnswerAt(st, i, user, s).value in Source(st, i)
  {
    if i == 2 {
      var asked := NewestFirst(Holding(st.levels[0], user));
      var f := FirstIsStored(asked, user, s);
      InLevel(st.levels[0], f, FirstOf(asked, user, s).value);
    } else if i > 2 {
      var files := st.levels[i - 2];
      var f := files[Search(files, LookupKey(user, s), 0, |files|)];
      InLevel(files, f, GetFrom(f.entries, user, s).value);
    }
  }

  lemma InLevel(files: seq<File>, f: File, e: Entry)
    requires f in files && e in f.entries
    ensures e in LevelEntries(files)
  {
  }

  lemma {:induction false} FirstIsStored(files: seq<File>, user: UserKey, s: SequenceNumber) returns (f: File)
    requires FirstOf(files, user, s).Some?
    ensures f in files && FirstOf(files, user, s).value in f.entries
  {
    f := files[0];
    if GetFrom(f.entries, user, s).None? {
      f := FirstIsStored(files[1..], user, s);
    }
  }

  lemma {:induction false} HitIsAnswer(st: State, i: nat, user: UserKey, s: SequenceNumber) returns (j: nat)
    requires |st.levels| == NUM_LEVELS && i <= NUM_SOURCES && HitFrom(st, i, user, s).Some?
    ensures i <= j < NUM_SOURCES && AnswerAt(st, j, user, s) == HitFrom(st, i, user, s)
    decreases NUM_SOURCES - i
  {
    hide AnswerAt;
    j := i;
    if AnswerAt(st, i, user, s).None? {
      j := HitIsAnswer(st, i + 1, user, s);
    }
  }

  /** No other place makes up for a level that misses its own entry. */
  lemma MissedEverywhere(st: State, l: nat, e: Entry)
    requires |st.levels| == NUM_LEVELS && SourceOrder(st) && 1 <= l < NUM_LEVELS
    requires e in LevelEntries(st.levels[l]) && Probe(st.levels[l], e.key.user, e.key.sn) == None
    ensures e in All(st) && !AllAnswered(st)
  {
    var user, s := e.key.user, e.key.sn;
    assert e in Source(st, l + 2);
    if Answers(All(st), user, s, Hit(st, user, s)) {
      AllUnique(st);
      assert Hit(st, user, s) == Some(e);
      var j := HitIsAnswer(st, 0, user, s);
      AnswerIsStored(st, j, user, s);
      assert false;
    }
  }

  /** Also when files meet, shallower sources hold the newer entries. */
  lemma InstalledOrder(p: Pending, st: State, input: seq<Entry>, outputs: seq<File>, st': State)
    requires Inv(st) && Underway(p, st) && Produces(p, input, outputs)
    requires Installs(st.levels, st'.levels, p.level + 1, p.in0, p.in1, outputs) && st' == st.(levels := st'.levels)
    ensures SourceOrder(st')
  {
    hide Inv, Installs, Survivors, LegalInputs, Later, AllArrived, Reserved, SourceOrder, RemainderNewer, LevelEntries, Stored, Disjoint;
    UnderwayShape(p, st);
    RemainderStillNewer(p, st);
    StillStored(p, st);
    OutputFacts(input, SmallestSnapshot(p.start), p.start.levels, p.level, p.in0, p.in1, outputs);
    OrderKept(st, st', p.level, p.in0, p.in1, outputs);
  }

  lemma AnswersIfApart(p: Pending, st: State, input: seq<Entry>, outputs: seq<File>, st': State)
    requires Inv(st) && Underway(p, st) && Produces(p, input, outputs)
    requires Installs(st.levels, st'.levels, p.level + 1, p.in0, p.in1, outputs) && st' == st.(levels := st'.levels)
    ensures |st.levels| == |st'.levels| == NUM_LEVELS && p.level + 1 < NUM_LEVELS
    ensures ApartFromRest(st.levels[p.level + 1], p.in1, outputs) ==> LevelsAnswer(st'.levels) && AllAnswered(st')
    ensures !ApartFromRest(st.levels[p.level + 1], p.in1, outputs) ==> !LevelsAnswer(st'.levels) && !AllAnswered(st')
  {
    UnderwayShape(p, st);
    assert |st'.levels| == NUM_LEVELS;
    hide Inv, Underway, Produces, Installs, ApartFromRest, LevelEntries, Probe, SourceOrder, AllAnswered, LevelsAnswer;
    if ApartFromRest(st.levels[p.level + 1], p.in1, outputs) {
      ApartIsKept(p, st, input, outputs, st');
      InvAnswers(st');
    } else {
      var e := NotApartMisses(p, st, input, outputs, st');
      MissedIsWrong(st'.levels, p.level + 1, e);
      InstalledOrder(p, st, input, outputs, st');
      MissedEverywhere(st', p.level + 1, e);
    }
  }

  /** MAIN: after a compaction has finished, every search of every level below level 0 is right if and
      only if no file that stayed at the output level lies across an output. */
  lemma FinishAnswers(b: Busy, input: seq<Entry>, outputs: seq<File>, b': Busy, p: Pending)
    requires BusyInv(b) && b.pending == Some(p) && EventTo(b, Finish(input, outputs), b')
    ensures |b.st.levels| == |b'.st.levels| == NUM_LEVELS && p.level + 1 < NUM_LEVELS
    ensures LevelsAnswer(b'.st.levels) <==> ApartFromRest(b.st.levels[p.level + 1], p.in1, outputs)
  {
    hide Inv, Underway, Produces, Installs, ApartFromRest, LevelsAnswer, AllAnswered;
    AnswersIfApart(p, b.st, input, outputs, b'.st);
  }

  /** MAIN: after a compaction has finished, every search of the whole store, at every sequence number,
      ends at the newest entry stored if and only if no file that stayed at the output level lies across
      an output. */
  lemma FinishFinds(b: Busy, input: seq<Entry>, outputs: seq<File>, b': Busy, p: Pending)
    requires BusyInv(b) && b.pending == Some(p) && EventTo(b, Finish(input, outputs), b')
    ensures |b.st.levels| == |b'.st.levels| == NUM_LEVELS && p.level + 1 < NUM_LEVELS
    ensures AllAnswered(b'.st) <==> ApartFromRest(b.st.levels[p.level + 1], p.in1, outputs)
  {
    hide Inv, Underway, Produces, Installs, ApartFromRest, LevelsAnswer, AllAnswered;
    AnswersIfApart(p, b.st, input, outputs, b'.st);
  }
}
