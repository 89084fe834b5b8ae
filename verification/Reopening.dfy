/** What reopening a store makes of its state (DBImpl::Recover in db/db_impl.cc): the levels are there
    again, and what the logs still held lies in new level-0 tables, in the order it was written. The
    invariant holds, and every read is right whose answer was in a table or survived in a log. */
module Reopening {
  import opened Wrappers
  import opened DbFormat
  import opened Versions
  import opened VersionBuilder
  import opened Compactions
  import opened Batches
  import opened ByteKeys
  import opened States
  import opened Steps
  import opened Structure
  import opened Recovery

  /** The operation that logged bytes stand for. */
  function OpOf(op: Operation): Op {
    match op
    case Put(key, value) => PutOp(Rank(key), Text(value))
    case Delete(key) => DeleteOp(Rank(key))
  }

  /** The entries of numbered operations. */
  ghost function EntriesAt(ps: seq<(nat, Operation)>): set<Entry> {
    set i | 0 <= i < |ps| && ps[i].0 <= MAX_SEQUENCE_NUMBER :: OpEntry(OpOf(ps[i].1), ps[i].0)
  }

  ghost predicate Increasing(ps: seq<(nat, Operation)>) {
    forall i, j :: 0 <= i < j < |ps| ==> ps[i].0 < ps[j].0
  }

  lemma EntriesAppend(a: seq<(nat, Operation)>, b: seq<(nat, Operation)>)
    ensures EntriesAt(a + b) == EntriesAt(a) + EntriesAt(b)
  {
    hide OpOf, OpEntry;
    var ab := a + b;
    forall e | e in EntriesAt(a) + EntriesAt(b) ensures e in EntriesAt(ab) {
      if e in EntriesAt(a) {
        var i :| 0 <= i < |a| && a[i].0 <= MAX_SEQUENCE_NUMBER && e == OpEntry(OpOf(a[i].1), a[i].0);
        assert ab[i] == a[i];
      } else {
        var i :| 0 <= i < |b| && b[i].0 <= MAX_SEQUENCE_NUMBER && e == OpEntry(OpOf(b[i].1), b[i].0);
        assert ab[|a| + i] == b[i];
      }
    }
  }

  lemma EntryNumber(op: Op, sn: SequenceNumber)
    ensures OpEntry(op, sn).key.sn == sn
  {
  }

  /** Entries written later have greater numbers. */
  lemma LaterEntries(a: seq<(nat, Operation)>, b: seq<(nat, Operation)>)
    requires Increasing(a + b)
    ensures Increasing(a) && Increasing(b) && forall x, y :: x in EntriesAt(b) && y in EntriesAt(a) ==> x.key.sn > y.key.sn
  {
    hide OpOf;
    var ab := a + b;
    assert forall i :: 0 <= i < |a| ==> ab[i] == a[i];
    assert forall i :: 0 <= i < |b| ==> ab[|a| + i] == b[i];
    forall x, y | x in EntriesAt(b) && y in EntriesAt(a) ensures x.key.sn > y.key.sn {
      var i :| 0 <= i < |b| && b[i].0 <= MAX_SEQUENCE_NUMBER && x == OpEntry(OpOf(b[i].1), b[i].0);
      var j :| 0 <= j < |a| && a[j].0 <= MAX_SEQUENCE_NUMBER && y == OpEntry(OpOf(a[j].1), a[j].0);
      EntryNumber(OpOf(b[i].1), b[i].0);
      EntryNumber(OpOf(a[j].1), a[j].0);
    }
  }

  ghost predicate TableOf(chunk: seq<(nat, Operation)>, f: File) {
    WellFormed(f) && Entries(f.entries) == EntriesAt(chunk)
  }

  /** The files written for the chunks, in order, numbered upwards from `first`; an empty chunk gives none. */
  ghost predicate Tabled(chunks: seq<seq<(nat, Operation)>>, files: seq<File>, first: nat) {
    if chunks == [] then files == []
    else
      var front, last := chunks[..|chunks| - 1], chunks[|chunks| - 1];
      if EntriesAt(last) == {} then Tabled(front, files, first)
      else
        && files != [] && first <= files[|files| - 1].number && TableOf(last, files[|files| - 1])
        && (forall g :: g in files[..|files| - 1] ==> g.number < files[|files| - 1].number)
        && Tabled(front, files[..|files| - 1], first)
  }

  lemma LastOfJoined(chunks: seq<seq<(nat, Operation)>>)
    requires chunks != []
    ensures Joined(chunks) == Joined(chunks[..|chunks| - 1]) + chunks[|chunks| - 1]
    ensures EntriesAt(Joined(chunks)) == EntriesAt(Joined(chunks[..|chunks| - 1])) + EntriesAt(chunks[|chunks| - 1])
  {
    EntriesAppend(Joined(chunks[..|chunks| - 1]), chunks[|chunks| - 1]);
  }

  lemma LevelSplit(files: seq<File>)
    requires files != []
    ensures LevelEntries(files) == LevelEntries(files[..|files| - 1]) + Entries(files[|files| - 1].entries)
    ensures forall f :: f in files <==> f in files[..|files| - 1] || f == files[|files| - 1]
  {
    assert files == files[..|files| - 1] + [files[|files| - 1]];
  }

  /** Together they hold just what the chunks hold; of two, the one with the greater number is newer. */
  lemma {:induction false} TabledFacts(chunks: seq<seq<(nat, Operation)>>, files: seq<File>, first: nat)
    requires Tabled(chunks, files, first) && Increasing(Joined(chunks))
    ensures LevelEntries(files) == EntriesAt(Joined(chunks))
    ensures forall f :: f in files ==> WellFormed(f) && f.number >= first
    ensures forall f, g :: f in files && g in files && f.number > g.number ==> Newer(Entries(f.entries), Entries(g.entries))
    ensures forall f, g :: f in files && g in files && f.number == g.number ==> f == g
  {
    hide EntriesAt, WellFormed, LevelEntries, Entries, Increasing;
    if chunks == [] {
      NothingTabled();
    } else {
      var front, last := chunks[..|chunks| - 1], chunks[|chunks| - 1];
      LastOfJoined(chunks);
      LaterEntries(Joined(front), last);
      if EntriesAt(last) == {} {
        TabledFacts(front, files, first);
      } else {
        var before, f := files[..|files| - 1], files[|files| - 1];
        TabledFacts(front, before, first);
        LevelSplit(files);
        forall g | g in before ensures Newer(Entries(f.entries), Entries(g.entries)) {
          FileInLevel(before, g);
        }
      }
    }
  }

  lemma NothingTabled()
    ensures LevelEntries([]) == {} && EntriesAt(Joined([])) == {}
  {
  }

  lemma FileInLevel(files: seq<File>, f: File)
    requires f in files
    ensures Entries(f.entries) <= LevelEntries(files)
  {
  }

  /** The state a store comes back in. */
  ghost predicate Reopens(st: State, chunks: seq<seq<(nat, Operation)>>, files: seq<File>, first: nat, st': State) {
    && Tabled(chunks, files, first) && Installs(st.levels, st'.levels, 0, [], [], files)
    && st'.mem == [] && st'.imm == None && st'.snapshots == []
    && first <= st'.nextFile && (forall f :: f in files ==> f.number < st'.nextFile)
    && st'.lastSequence < MAX_SEQUENCE_NUMBER
  }

  /** What the store may rely on when it does: the chunks were in its memtables, in order, and the numbers
      it goes on with are past those it has used. */
  ghost predicate Reopenable(st: State, chunks: seq<seq<(nat, Operation)>>, first: nat, last: nat) {
    && Inv(st) && Increasing(Joined(chunks)) && EntriesAt(Joined(chunks)) <= Source(st, 0) + Source(st, 1)
    && (forall l, f :: 0 <= l < NUM_LEVELS && f in st.levels[l] ==> f.number < first)
    && (forall e :: e in EntriesAt(Joined(chunks)) ==> e.key.sn <= last)
    && (forall i, e :: 2 <= i < NUM_SOURCES && e in Source(st, i) ==> e.key.sn <= last)
  }

  lemma ReopenedSources(st: State, chunks: seq<seq<(nat, Operation)>>, files: seq<File>, first: nat, st': State)
    requires |st.levels| == NUM_LEVELS && Increasing(Joined(chunks)) && Reopens(st, chunks, files, first, st')
    ensures |st'.levels| == NUM_LEVELS && Source(st', 0) == {} && Source(st', 1) == {}
    ensures Source(st', 2) == Source(st, 2) + EntriesAt(Joined(chunks))
    ensures forall i :: 3 <= i < NUM_SOURCES ==> Source(st', i) == Source(st, i)
  {
    hide EntriesAt, Tabled, Increasing;
    TabledFacts(chunks, files, first);
    SameMembers(st'.levels[0], st.levels[0] + files);
    LevelUnion(st.levels[0], files);
    forall i | 3 <= i < NUM_SOURCES ensures Source(st', i) == Source(st, i) {
      SameMembers(st'.levels[i - 2], st.levels[i - 2]);
    }
  }

  lemma SameMembers(a: seq<File>, b: seq<File>)
    requires Members(a) == Members(b)
    ensures LevelEntries(a) == LevelEntries(b) && forall f :: f in a <==> f in b
  {
    forall f ensures f in a <==> f in b {
      assert f in Members(a) <==> f in Members(b);
    }
  }

  lemma LevelUnion(a: seq<File>, b: seq<File>)
    ensures LevelEntries(a + b) == LevelEntries(a) + LevelEntries(b) && Members(a + b) == Members(a) + Members(b)
  {
  }

  /** The new tables come from memtables, which were newer than all levels. */
  lemma ReopenedOrder(st: State, chunks: seq<seq<(nat, Operation)>>, st': State)
    requires |st.levels| == |st'.levels| == NUM_LEVELS && SourceOrder(st)
    requires EntriesAt(Joined(chunks)) <= Source(st, 0) + Source(st, 1)
    requires Source(st', 0) == {} && Source(st', 1) == {} && Source(st', 2) == Source(st, 2) + EntriesAt(Joined(chunks))
    requires forall i :: 3 <= i < NUM_SOURCES ==> Source(st', i) == Source(st, i)
    ensures SourceOrder(st') && Newer(EntriesAt(Joined(chunks)), Source(st, 2))
  {
    hide EntriesAt;
    forall i, j | 0 <= i < j < NUM_SOURCES ensures Newer(Source(st', i), Source(st', j)) {
      assert Newer(Source(st, 0), Source(st, j)) && (j > 1 ==> Newer(Source(st, 1), Source(st, j))) && Newer(Source(st, i), Source(st, j));
    }
    AllUnique(st);
    forall i | 0 <= i < NUM_SOURCES ensures Unique(Source(st', i)) {
      assert Source(st', i) <= All(st);
    }
    assert Newer(Source(st, 0), Source(st, 2)) && Newer(Source(st, 1), Source(st, 2));
  }

  lemma ReopenedShape(st: State, files: seq<File>, st': State)
    requires Shape(st) && Installs(st.levels, st'.levels, 0, [], [], files) && st'.mem == [] && st'.imm == None
    requires forall f :: f in files ==> WellFormed(f)
    ensures Shape(st')
  {
    forall f | f in st'.levels[0] ensures WellFormed(f) {
      assert f in Members(st'.levels[0]);
    }
    forall l | 1 <= l < NUM_LEVELS ensures Disjoint(st'.levels[l]) {
      UpdateDisjoint(st.levels[l], [], [], st'.levels[l]);
    }
  }

  lemma ReopenedNumbers(st: State, files: seq<File>, first: nat, st': State)
    requires |st.levels| == NUM_LEVELS && Level0Order(st) && NumbersDistinct(st) && Installs(st.levels, st'.levels, 0, [], [], files)
    requires forall l, f :: 0 <= l < NUM_LEVELS && f in st.levels[l] ==> f.number < first
    requires forall f :: f in files ==> first <= f.number < st'.nextFile
    requires first <= st'.nextFile
    requires forall f, g :: f in files && g in files && f.number == g.number ==> f == g
    requires forall f, g :: f in files && g in files && f.number > g.number ==> Newer(Entries(f.entries), Entries(g.entries))
    requires Newer(LevelEntries(files), LevelEntries(st.levels[0]))
    ensures Level0Order(st') && NumbersDistinct(st')
  {
    forall l, f | 0 <= l < NUM_LEVELS && f in st'.levels[l]
      ensures f in st.levels[l] || (l == 0 && f in files)
    {
      assert f in Members(st'.levels[l]);
    }
    forall f, g | f in st'.levels[0] && g in st'.levels[0] && f.number > g.number ensures Newer(Entries(f.entries), Entries(g.entries)) {
      if f in files && g !in files {
        FileInLevel(files, f);
        FileInLevel(st.levels[0], g);
      }
    }
    forall l, f, m, g | 0 <= l < NUM_LEVELS && 0 <= m < NUM_LEVELS && f in st'.levels[l] && g in st'.levels[m] && SameNumber(f, g)
      ensures l == m && f == g
    {
      if f in st.levels[l] && g in st.levels[m] { NumberNames(st, l, f, m, g); }
    }
  }

  /** MAIN: the invariant holds again, and everything stored is what the levels held and what was found
      in the logs. */
  lemma ReopenedInv(st: State, chunks: seq<seq<(nat, Operation)>>, files: seq<File>, first: nat, st': State)
    requires Reopenable(st, chunks, first, st'.lastSequence) && Reopens(st, chunks, files, first, st')
    ensures Inv(st')
    ensures forall e :: e in All(st') <==> e in EntriesAt(Joined(chunks)) || exists i :: 2 <= i < NUM_SOURCES && e in Source(st, i)
  {
    assert |st.levels| == NUM_LEVELS;
    hide EntriesAt, Tabled, Increasing, Newer, Shape, SourceOrder, Level0Order, NumbersDistinct, Installs, WellFormed, Bounded, Source;
    ReopenedSources(st, chunks, files, first, st');
    TabledFacts(chunks, files, first);
    ReopenedOrder(st, chunks, st');
    ReopenedShape(st, files, st');
    Level0Source(st);
    ReopenedNumbers(st, files, first, st');
    ReopenedBounds(st, EntriesAt(Joined(chunks)), st');
  }

  lemma Level0Source(st: State)
    requires |st.levels| == NUM_LEVELS
    ensures Source(st, 2) == LevelEntries(st.levels[0])
  {
  }

  lemma ReopenedBounds(st: State, found: set<Entry>, st': State)
    requires |st.levels| == |st'.levels| == NUM_LEVELS && st'.lastSequence < MAX_SEQUENCE_NUMBER && st'.snapshots == []
    requires Source(st', 0) == {} && Source(st', 1) == {} && Source(st', 2) == Source(st, 2) + found
    requires forall i :: 3 <= i < NUM_SOURCES ==> Source(st', i) == Source(st, i)
    requires forall e :: e in found ==> e.key.sn <= st'.lastSequence
    requires forall i, e :: 2 <= i < NUM_SOURCES && e in Source(st, i) ==> e.key.sn <= st'.lastSequence
    ensures Bounded(st')
    ensures forall e :: e in All(st') <==> e in found || exists i :: 2 <= i < NUM_SOURCES && e in Source(st, i)
  {
    hide Source;
    forall i, e | 0 <= i < NUM_SOURCES && e in Source(st', i) ensures e.key.sn <= st'.lastSequence {
      assert i >= 2 && (e in Source(st, i) || e in found);
    }
    forall e ensures e in All(st') <==> e in found || exists i :: 2 <= i < NUM_SOURCES && e in Source(st, i) {
      if e in found { assert e in Source(st', 2); }
      if i :| 2 <= i < NUM_SOURCES && e in Source(st, i) { assert e in Source(st', i); }
      if i :| 0 <= i < NUM_SOURCES && e in Source(st', i) { assert i >= 3 ==> e in Source(st, i); }
    }
  }

  /** What survives for sure: the levels, and some entries of the logs. */
  ghost predicate Safe(st: State, kept: set<Entry>, e: Entry)
    requires |st.levels| == NUM_LEVELS
  {
    e in kept || exists i :: 2 <= i < NUM_SOURCES && e in Source(st, i)
  }

  /** A read whose answer, if there is one, survives. */
  ghost predicate SafeRead(st: State, kept: set<Entry>, user: UserKey, s: nat)
    requires |st.levels| == NUM_LEVELS
  {
    forall e :: Visible(All(st), user, s, e) ==> Safe(st, kept, e)
  }

  /** MAIN: it gives the same result after reopening. */
  lemma ReopenedRead(st: State, chunks: seq<seq<(nat, Operation)>>, files: seq<File>, first: nat, st': State, user: UserKey, s: nat)
    requires Reopenable(st, chunks, first, st'.lastSequence) && Reopens(st, chunks, files, first, st')
    requires SafeRead(st, EntriesAt(Joined(chunks)), user, s)
    ensures |st'.levels| == NUM_LEVELS && Read(All(st'), user, s) == Read(All(st), user, s)
    ensures forall e :: Visible(All(st'), user, s, e) <==> Visible(All(st), user, s, e)
  {
    ReopenedInv(st, chunks, files, first, st');
    hide EntriesAt, Tabled, Increasing, Installs;
    forall e | e in All(st') ensures e in All(st) {
      if e in EntriesAt(Joined(chunks)) {
        assert e in Source(st, 0) || e in Source(st, 1);
      }
    }
    assert |st'.levels| == NUM_LEVELS && |st.levels| == NUM_LEVELS && SourceOrder(st) && SourceOrder(st');
    AllUnique(st);
    AllUnique(st');
    hide Inv, All, Source;
    SubsetRead(All(st), All(st'), user, s);
  }

  /** Fewer entries read the same as long as the visible one is among them. */
  lemma SubsetRead(all: set<Entry>, part: set<Entry>, user: UserKey, s: nat)
    requires Unique(all) && Unique(part) && part <= all
    requires forall e :: Visible(all, user, s, e) ==> e in part
    ensures Read(part, user, s) == Read(all, user, s)
    ensures forall e :: Visible(part, user, s, e) <==> Visible(all, user, s, e)
  {
    if e :| Visible(all, user, s, e) {
      assert Visible(part, user, s, e);
      ReadVisible(all, user, s, e);
      ReadVisible(part, user, s, e);
      forall x | Visible(part, user, s, x) ensures x == e {
        assert x.key.sn <= e.key.sn <= x.key.sn;
      }
      forall x | Visible(all, user, s, x) ensures x == e {
        assert x.key.sn <= e.key.sn <= x.key.sn;
      }
    } else {
      if x :| Visible(part, user, s, x) {
        NewestExists(all, user, s);
        assert false;
      }
    }
  }
}
