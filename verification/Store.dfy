/** The store object (DBImpl in db/db_impl.cc): each method is one atomic step, computed by the
    searches, merges and edits of the other modules. */
module Store {
  import opened Wrappers
  import opened DbFormat
  import opened Versions
  import opened VersionBuilder
  import opened Boundary
  import opened Inputs
  import opened Compactions
  import opened States
  import opened Steps
  import opened Structure
  import opened StepInvariant
  import opened Safety
  import opened Runs
  import Lookup
  import Cursors
  import Merger

  function InsertEntry(es: seq<Entry>, e: Entry): (r: seq<Entry>)
    requires Sorted(es) && forall x :: x in Entries(es) ==> x.key != e.key
    ensures Sorted(r) && Entries(r) == Entries(es) + {e}
  {
    assert forall x :: x in es ==> x in Entries(es);
    var i := Lookup.Seek(es, e.key);
    InsertKeeps(es, e, i);
    es[..i] + [e] + es[i..]
  }

  lemma InsertKeeps(es: seq<Entry>, e: Entry, i: nat)
    requires Sorted(es) && i <= |es| && forall x :: x in es ==> x.key != e.key
    requires forall j :: 0 <= j < i ==> Before(es[j].key, e.key)
    requires i < |es| ==> AtOrBefore(e.key, es[i].key)
    ensures Sorted(es[..i] + [e] + es[i..]) && Entries(es[..i] + [e] + es[i..]) == Entries(es) + {e}
  {
    var front, back := es[..i], es[i..];
    assert es == front + back;
    assert Sorted(front) && Sorted(back) && Sorted([e]);
    forall x | x in back ensures Before(e.key, x.key) {
      var j :| 0 <= j < |back| && back[j] == x;
      NextKeyPast(es, e, i, i + j);
    }
    hide Sorted;
    AppendSorted([e], back);
    forall x, y | x in front && y in [e] + back ensures Before(x.key, y.key) {
      assert y == e || Before(e.key, y.key);
    }
    AppendSorted(front, [e] + back);
    assert front + [e] + back == front + ([e] + back);
  }

  lemma NextKeyPast(es: seq<Entry>, e: Entry, i: nat, j: nat)
    requires Sorted(es) && i <= j < |es| && es[i].key != e.key && AtOrBefore(e.key, es[i].key)
    ensures Before(e.key, es[j].key)
  {
    CompareMeaning(e.key, es[i].key);
    Cursors.SortedAt(es, i, j);
  }

  lemma AppendSorted(a: seq<Entry>, b: seq<Entry>)
    requires Sorted(a) && Sorted(b)
    requires forall x, y :: x in a && y in b ==> Before(x.key, y.key)
    ensures Sorted(a + b)
  {
  }

  lemma {:induction false} FlattenSorted(files: seq<File>)
    requires Disjoint(files)
    ensures Sorted(Flatten(files)) && Entries(Flatten(files)) == LevelEntries(files)
  {
    if files != [] {
      var front, last := files[..|files| - 1], files[|files| - 1];
      FlattenSorted(front);
      assert last in files;
      forall e | e in Flatten(front) ensures Before(e.key, last.smallest) {
        assert e in Entries(Flatten(front));
        var f :| f in front && e in f.entries;
        EntryRange(f, e);
      }
      forall e | e in last.entries ensures AtOrBefore(last.smallest, e.key) { EntryRange(last, e); }
      AppendSorted(Flatten(front), last.entries);
      forall e ensures e in LevelEntries(files) <==> e in LevelEntries(front) || e in last.entries {
      }
    }
  }

  /** MakeInputIterator: one child for every level-0 input, one for each deeper level. */
  function InputChildren(level: nat, in0: seq<File>, in1: seq<File>): seq<seq<Entry>> {
    (if level == 0 then seq(|in0|, i requires 0 <= i < |in0| => in0[i].entries) else [Flatten(in0)]) + [Flatten(in1)]
  }

  ghost function ChildEntries(level: nat, in0: seq<File>, in1: seq<File>, c: nat): set<Entry>
    requires c < |InputChildren(level, in0, in1)|
  {
    if c == |InputChildren(level, in0, in1)| - 1 then LevelEntries(in1)
    else if level == 0 then Entries(in0[c].entries)
    else LevelEntries(in0)
  }

  lemma ChildIs(st: State, level: nat, in0: seq<File>, in1: seq<File>, c: nat)
    requires Inv(st) && level + 1 < NUM_LEVELS && LegalInputs(st.levels, level, in0, in1)
    requires c < |InputChildren(level, in0, in1)|
    ensures var child := InputChildren(level, in0, in1)[c];
      Sorted(child) && Entries(child) == ChildEntries(level, in0, in1, c)
  {
    LevelFacts(st.levels, level);
    OverlappingDisjoint(st.levels[level + 1], Some(SmallestKey(in0).user), Some(LargestKey(in0).user));
    FlattenSorted(in1);
    if level > 0 {
      FlattenSorted(in0);
    } else if c < |in0| {
      assert in0[c] in in0;
    }
  }

  /** No entry is in two children. */
  lemma ChildrenApart(st: State, level: nat, in0: seq<File>, in1: seq<File>, c: nat, d: nat, x: Entry)
    requires Inv(st) && level + 1 < NUM_LEVELS && LegalInputs(st.levels, level, in0, in1)
    requires c < d < |InputChildren(level, in0, in1)|
    requires x in ChildEntries(level, in0, in1, c)
    ensures x !in ChildEntries(level, in0, in1, d)
  {
    var n := |InputChildren(level, in0, in1)| - 1;
    var f :| f in in0 && x in f.entries && (level == 0 ==> f == in0[c]);
    assert x in Source(st, level + 2);
    if d == n {
      assert Newer(Source(st, level + 2), Source(st, level + 3));
      assert LevelEntries(in1) <= Source(st, level + 3);
    } else {
      assert in0[c] != in0[d] && in0[d] in in0;
      OneFilePerEntry(st, 0, in0[c], in0[d], x);
    }
  }

  lemma KeysApart(st: State, level: nat, in0: seq<File>, in1: seq<File>, c: nat, d: nat, x: Entry, y: Entry)
    requires Inv(st) && level + 1 < NUM_LEVELS && LegalInputs(st.levels, level, in0, in1)
    requires c < |InputChildren(level, in0, in1)| && d < |InputChildren(level, in0, in1)| && c != d
    requires x in ChildEntries(level, in0, in1, c) && y in ChildEntries(level, in0, in1, d)
    ensures x.key != y.key
  {
    if x.key == y.key {
      InputSplit(st, level, in0, in1);
      AllUnique(st);
      ChildEntriesAreInputs(level, in0, in1, c);
      ChildEntriesAreInputs(level, in0, in1, d);
      assert x == y;
      ChildrenApart(st, level, in0, in1, if c < d then c else d, if c < d then d else c, x);
      assert false;
    }
  }

  lemma ChildrenMergeable(st: State, level: nat, in0: seq<File>, in1: seq<File>)
    requires Inv(st) && level + 1 < NUM_LEVELS && LegalInputs(st.levels, level, in0, in1)
    ensures Merger.Mergeable(InputChildren(level, in0, in1))
  {
    var children := InputChildren(level, in0, in1);
    forall c | 0 <= c < |children| ensures Sorted(children[c]) {
      ChildIs(st, level, in0, in1, c);
    }
    forall c, d, x: Entry, y: Entry | 0 <= c < |children| && 0 <= d < |children| && c != d && x in children[c] && y in children[d]
      ensures x.key != y.key
    {
      ChildIs(st, level, in0, in1, c);
      ChildIs(st, level, in0, in1, d);
      assert x in Entries(children[c]) && y in Entries(children[d]);
      KeysApart(st, level, in0, in1, c, d, x, y);
    }
  }

  lemma ChildrenCover(st: State, level: nat, in0: seq<File>, in1: seq<File>, e: Entry)
    requires Inv(st) && level + 1 < NUM_LEVELS && LegalInputs(st.levels, level, in0, in1)
    ensures (exists c :: 0 <= c < |InputChildren(level, in0, in1)| && e in InputChildren(level, in0, in1)[c]) <==>
      e in LevelEntries(in0) + LevelEntries(in1)
  {
    var children := InputChildren(level, in0, in1);
    if c :| 0 <= c < |children| && e in children[c] {
      ChildIs(st, level, in0, in1, c);
      ChildEntriesAreInputs(level, in0, in1, c);
      assert e in Entries(children[c]);
    }
    if e in LevelEntries(in0) + LevelEntries(in1) {
      InputsAreInChildren(level, in0, in1);
      var c :| 0 <= c < |children| && e in ChildEntries(level, in0, in1, c);
      ChildIs(st, level, in0, in1, c);
      assert e in Entries(children[c]);
    }
  }

  lemma ChildEntriesAreInputs(level: nat, in0: seq<File>, in1: seq<File>, c: nat)
    requires c < |InputChildren(level, in0, in1)|
    ensures ChildEntries(level, in0, in1, c) <= LevelEntries(in0) + LevelEntries(in1)
  {
  }

  lemma InputsAreInChildren(level: nat, in0: seq<File>, in1: seq<File>)
    ensures forall e :: e in LevelEntries(in0) + LevelEntries(in1) ==>
      exists c :: 0 <= c < |InputChildren(level, in0, in1)| && e in ChildEntries(level, in0, in1, c)
  {
    var n := |InputChildren(level, in0, in1)| - 1;
    forall e | e in LevelEntries(in0) + LevelEntries(in1)
      ensures exists c :: 0 <= c <= n && e in ChildEntries(level, in0, in1, c)
    {
      if e in LevelEntries(in1) {
        assert e in ChildEntries(level, in0, in1, n);
      } else {
        var f :| f in in0 && e in f.entries;
        var i :| 0 <= i < |in0| && in0[i] == f;
        assert e in ChildEntries(level, in0, in1, if level == 0 then i else 0);
      }
    }
  }

  /** What has been read when the iterator stands at `at`. */
  ghost function ReadSoFar(es: seq<Entry>, at: Option<nat>): seq<Entry>
    requires at.Some? ==> at.value < |es|
  {
    if at.Some? then es[..at.value] else es
  }

  lemma ReadOne(es: seq<Entry>, at: nat)
    requires at < |es|
    ensures ReadSoFar(es, Cursors.Move(es, Some(at), Cursors.Next)) == ReadSoFar(es, Some(at)) + [es[at]]
  {
  }

  /** Running a merging iterator from first to last yields its merge. */
  method Drain(it: Merger.MergingIterator) returns (input: seq<Entry>)
    requires it.Valid()
    modifies it, it.positions
    ensures input == it.merged
  {
    it.SeekToFirst();
    input := [];
    var valid := it.IsValid();
    while valid
      invariant it.Valid()
      invariant valid <==> it.at.Some?
      invariant input == ReadSoFar(it.merged, it.at)
      decreases if it.at.Some? then |it.merged| - it.at.value else 0
    {
      var e := it.CurrentEntry();
      ReadOne(it.merged, it.at.value);
      input := input + [e];
      it.MoveNext();
      valid := it.IsValid();
    }
  }

  /** The input a compaction reads. */
  method ReadInputs(level: nat, in0: seq<File>, in1: seq<File>, ghost st: State) returns (input: seq<Entry>)
    requires Inv(st) && level + 1 < NUM_LEVELS && LegalInputs(st.levels, level, in0, in1)
    ensures Merges(input, in0, in1)
  {
    ChildrenMergeable(st, level, in0, in1);
    var it := new Merger.MergingIterator(InputChildren(level, in0, in1));
    input := Drain(it);
    forall e ensures e in Entries(input) <==> e in LevelEntries(in0) + LevelEntries(in1) {
      ChildrenCover(st, level, in0, in1, e);
    }
  }

  function Deletions(level: nat, files: seq<File>): (r: seq<(nat, nat)>)
    ensures forall l, n :: (l, n) in r <==> l == level && exists f :: f in files && f.number == n
  {
    if files == [] then [] else Deletions(level, files[..|files| - 1]) + [(level, files[|files| - 1].number)]
  }

  function Additions(level: nat, files: seq<File>): (r: seq<(nat, File)>)
    ensures |r| == |files| && forall i :: 0 <= i < |r| ==> r[i] == (level, files[i])
  {
    seq(|files|, i requires 0 <= i < |files| => (level, files[i]))
  }

  /** The edit of a step: delete the inputs at both levels, add the outputs at the lower one. */
  function EditOf(target: nat, in0: seq<File>, in1: seq<File>, outputs: seq<File>): VersionEdit {
    VersionEdit((if target > 0 then Deletions(target - 1, in0) else []) + Deletions(target, in1), Additions(target, outputs))
  }

  ghost predicate NewNumbers(st: State, target: nat, outputs: seq<File>)
    requires |st.levels| == NUM_LEVELS && target < NUM_LEVELS
  {
    && (forall i, j :: 0 <= i < j < |outputs| ==> outputs[i].number != outputs[j].number)
    && (forall f, o :: f in st.levels[target] && o in outputs ==> f.number != o.number)
  }

  lemma EditFresh(st: State, target: nat, in0: seq<File>, in1: seq<File>, outputs: seq<File>)
    requires |st.levels| == NUM_LEVELS && target < NUM_LEVELS && NewNumbers(st, target, outputs)
    ensures forall l :: 0 <= l < NUM_LEVELS ==> Fresh(Numbers(st.levels[l]), EditOf(target, in0, in1, outputs).added, l)
  {
    var added := EditOf(target, in0, in1, outputs).added;
    forall j | 0 <= j < |added| ensures added[j].1.number !in Numbers(st.levels[target]) {
      assert added[j].1 == outputs[j] && outputs[j] in outputs;
    }
  }

  lemma DeletedNames(st: State, l: nat, f: File, files: seq<File>)
    requires |st.levels| == NUM_LEVELS && NumbersDistinct(st) && l < NUM_LEVELS && f in st.levels[l]
    ensures (forall g :: g in files ==> g in st.levels[l]) ==>
      ((exists g :: g in files && g.number == f.number) <==> f in files)
  {
    forall g | g in files && g in st.levels[l] ensures g.number == f.number ==> g == f {
      NumberNames(st, l, f, l, g);
    }
  }

  lemma EditInstalls(st: State, target: nat, in0: seq<File>, in1: seq<File>, outputs: seq<File>, l: nat)
    requires |st.levels| == NUM_LEVELS && target < NUM_LEVELS && NumbersDistinct(st) && l < NUM_LEVELS
    requires target > 0 ==> forall f :: f in in0 ==> f in st.levels[target - 1]
    requires forall f :: f in in1 ==> f in st.levels[target]
    ensures AfterEdit(Members(st.levels[l]), EditOf(target, in0, in1, outputs), l) ==
      if l == target then Members(st.levels[l]) - Members(in1) + Members(outputs)
      else if l + 1 == target then Members(st.levels[l]) - Members(in0)
      else Members(st.levels[l])
  {
    var edit := EditOf(target, in0, in1, outputs);
    forall f | f in st.levels[l] ensures (l, f.number) in edit.deleted <==> (l == target && f in in1) || (l + 1 == target && f in in0) {
      DeletedNames(st, l, f, if l == target then in1 else in0);
    }
    forall f ensures (l, f) in edit.added <==> l == target && f in outputs {
      if f in outputs {
        var i :| 0 <= i < |outputs| && outputs[i] == f;
        assert edit.added[i] == (target, f);
      }
    }
    var files := Members(st.levels[l]);
    forall f ensures f in AfterEdit(files, edit, l) <==>
      (f in files && (l, f.number) !in edit.deleted) || (l, f) in edit.added
    {
      if (l, f) in edit.added {
        assert (l, f).1 == f;
      }
    }
  }

  /** What an edit relies on: inputs of their levels, and outputs under new numbers. */
  ghost predicate Installable(st: State, target: nat, in0: seq<File>, in1: seq<File>, outputs: seq<File>) {
    && |st.levels| == NUM_LEVELS && target < NUM_LEVELS
    && (forall l :: 0 <= l < NUM_LEVELS ==> Ordered(st.levels[l])) && NumbersDistinct(st) && NewNumbers(st, target, outputs)
    && (target > 0 ==> forall f :: f in in0 ==> f in st.levels[target - 1])
    && (forall f :: f in in1 ==> f in st.levels[target])
  }

  /** VersionSet::LogAndApply: the edit applied to the current version through a Builder. */
  method LogAndApply(ghost st: State, levels: seq<seq<File>>, target: nat, in0: seq<File>, in1: seq<File>, outputs: seq<File>)
    returns (after: seq<seq<File>>)
    requires levels == st.levels && Installable(st, target, in0, in1, outputs)
    ensures Installs(levels, after, target, in0, in1, outputs)
  {
    var edit := EditOf(target, in0, in1, outputs);
    var builder := new Builder(levels);
    EditFresh(st, target, in0, in1, outputs);
    builder.Apply(edit);
    after := builder.SaveTo();
    forall l | 0 <= l < NUM_LEVELS ensures Members(after[l]) == AfterEdit(Members(levels[l]), edit, l) {
      assert [edit][..0] == [];
      assert Replay(Members(levels[l]), [edit], l) == AfterEdit(Members(levels[l]), edit, l);
    }
    forall l | 0 <= l < NUM_LEVELS ensures Members(after[l]) ==
      if l == target then Members(levels[l]) - Members(in1) + Members(outputs)
      else if l + 1 == target then Members(levels[l]) - Members(in0)
      else Members(levels[l])
    {
      EditInstalls(st, target, in0, in1, outputs, l);
    }
  }

  /** One file, nothing to merge with, and little data two levels down. */
  ghost predicate SmallMove(levels: seq<seq<File>>, level: nat, in0: seq<File>, in1: seq<File>, maxFileSize: nat)
    requires |levels| == NUM_LEVELS
  {
    |in0| == 1 && in1 == [] &&
    (level + 2 < NUM_LEVELS ==> GrandparentBytes(levels, level, in0[0].smallest.user, in0[0].largest.user) <= 10 * maxFileSize)
  }

  /** Compaction::IsTrivialMove. */
  method IsTrivialMove(levels: seq<seq<File>>, level: nat, in0: seq<File>, in1: seq<File>, maxFileSize: nat) returns (trivial: bool)
    requires |levels| == NUM_LEVELS && in0 != []
    ensures trivial <==> SmallMove(levels, level, in0, in1, maxFileSize)
  {
    var grandparents: seq<File> := [];
    if level + 2 < NUM_LEVELS {
      var allStart, allLimit := GetRange(in0 + in1);
      assert |in0| == 1 && in1 == [] ==> in0 + in1 == [in0[0]];
      var files := GetOverlappingInputs(level + 2, levels[level + 2], Some(allStart.user), Some(allLimit.user));
      grandparents := files;
    }
    trivial := |in0| == 1 && |in1| == 0 && TotalFileSize(grandparents) <= 10 * maxFileSize;
  }

  /** The outputs of a compaction: the merged input through the drop loop. */
  method MergeFiles(ghost st: State, levels: seq<seq<File>>, level: nat, in0: seq<File>, in1: seq<File>,
                    smallestSnapshot: nat, firstNumber: nat, policy: CutPolicy)
    returns (outputs: seq<File>, ghost input: seq<Entry>)
    requires Inv(st) && levels == st.levels && level + 1 < NUM_LEVELS && LegalInputs(levels, level, in0, in1)
    requires smallestSnapshot == SmallestSnapshot(st)
    ensures Merges(input, in0, in1)
    ensures OutputsAre(outputs, Survivors(input, smallestSnapshot, levels, level), firstNumber) && CutByPolicy(outputs, input, policy)
  {
    var entries := ReadInputs(level, in0, in1, st);
    var c := new Compaction(levels, level);
    outputs := DoCompactionWork(c, entries, smallestSnapshot, firstNumber, policy);
    input := entries;
  }

  /** DoCompactionWork and InstallCompactionResults: the version after a merge of the chosen inputs. */
  method CompactVersion(ghost st: State, levels: seq<seq<File>>, level: nat, in0: seq<File>, in1: seq<File>,
                        smallestSnapshot: nat, firstNumber: nat, policy: CutPolicy)
    returns (after: seq<seq<File>>, outputs: seq<File>, ghost input: seq<Entry>)
    requires Inv(st) && levels == st.levels && level + 1 < NUM_LEVELS && LegalInputs(levels, level, in0, in1)
    requires smallestSnapshot == SmallestSnapshot(st) && firstNumber == st.nextFile
    ensures CompactTo(st, level, in0, in1, input, outputs, st.(levels := after, nextFile := st.nextFile + |outputs|))
    ensures CutByPolicy(outputs, input, policy)
  {
    assert |levels| == NUM_LEVELS;
    hide *;
    outputs, input := MergeFiles(st, levels, level, in0, in1, smallestSnapshot, firstNumber, policy);
    OutputsInstallable(st, level, in0, in1, outputs, Survivors(input, smallestSnapshot, levels, level));
    after := LogAndApply(st, levels, level + 1, in0, in1, outputs);
    Compacted(st, level, in0, in1, input, outputs, after);
  }

  lemma Compacted(st: State, level: nat, in0: seq<File>, in1: seq<File>, input: seq<Entry>, outputs: seq<File>, after: seq<seq<File>>)
    requires |st.levels| == NUM_LEVELS && level + 1 < NUM_LEVELS && LegalInputs(st.levels, level, in0, in1)
    requires Merges(input, in0, in1)
    requires OutputsAre(outputs, Survivors(input, SmallestSnapshot(st), st.levels, level), st.nextFile)
    requires Installs(st.levels, after, level + 1, in0, in1, outputs)
    ensures CompactTo(st, level, in0, in1, input, outputs, st.(levels := after, nextFile := st.nextFile + |outputs|))
  {
  }

  class DB {
    const maxFileSize: nat
    const policy: CutPolicy
    var mem: seq<Entry>
    var imm: Option<seq<Entry>>
    var levels: seq<seq<File>>
    var lastSequence: nat
    var snapshots: seq<nat>
    var nextFile: nat

    ghost function Abs(): State
      reads this
    {
      State(mem, imm, levels, lastSequence, snapshots, nextFile)
    }

    ghost predicate Valid()
      reads this
    {
      Inv(Abs())
    }

    constructor (maxFileSize: nat, policy: CutPolicy)
      ensures Valid() && Abs() == INITIAL
    {
      this.maxFileSize, this.policy := maxFileSize, policy;
      mem, imm, levels, lastSequence, snapshots, nextFile := [], None, seq(NUM_LEVELS, _ => []), 0, [], 2;
      new;
      InitialInv();
      assert levels == INITIAL.levels;
    }

    /** DBImpl::Get at a snapshot, or at the last sequence number without one. */
    method Get(user: UserKey, snapshot: Option<SequenceNumber>) returns (r: GetResult)
      requires Valid()
      ensures r == Read(All(Abs()), user, if snapshot.Some? then snapshot.value else lastSequence)
    {
      var s: SequenceNumber := if snapshot.Some? then snapshot.value else lastSequence;
      var st := State(mem, imm, levels, lastSequence, snapshots, nextFile);
      r := Lookup.Get(st, user, s);
    }

    /** A batch is inserted in order under consecutive sequence numbers. */
    method Write(ops: seq<Op>)
      requires Valid() && lastSequence + |ops| < MAX_SEQUENCE_NUMBER
      modifies `mem, `lastSequence
      ensures Valid() && WriteTo(old(Abs()), ops, Abs())
    {
      ghost var st := Abs();
      MemBound(st);
      mem := InsertBatch(mem, ops, lastSequence + 1);
      lastSequence := lastSequence + |ops|;
      WriteInv(st, ops, Abs());
    }

    /** MakeRoomForWrite once the memtable is full and no flush is pending. */
    method SwitchMemTable()
      requires Valid() && imm.None?
      modifies `mem, `imm, `nextFile
      ensures Valid() && SwitchTo(old(Abs()), Abs())
    {
      ghost var st := Abs();
      imm := Some(mem);
      mem := [];
      nextFile := nextFile + 1;
      SwitchInv(st, Abs());
    }

    /** CompactMemTable: an empty table is not added; any other goes to the level picked for it. */
    method CompactMemTable() returns (ghost placed: Option<(nat, File)>)
      requires Valid() && imm.Some?
      modifies `imm, `levels, `nextFile
      ensures Valid()
      ensures placed.None? <==> old(imm) == Some([])
      ensures placed.None? ==> FlushNothingTo(old(Abs()), Abs())
      ensures placed.Some? ==> FlushTo(old(Abs()), placed.value.0, placed.value.1, Abs()) &&
                               PickedLevel(old(levels), placed.value.1.smallest.user, placed.value.1.largest.user, maxFileSize, placed.value.0)
    {
      ghost var st := Abs();
      var es := imm.value;
      if es == [] {
        imm := None;
        nextFile := nextFile + 1;
        placed := None;
        FlushNothingInv(st, Abs());
      } else {
        var file := File(nextFile, policy.sizeOf(es), es[0].key, es[|es| - 1].key, es);
        var target := PickLevelForMemTableOutput(levels, file.smallest.user, file.largest.user, maxFileSize);
        OneNewNumber(st, target, file);
        levels := LogAndApply(st, levels, target, [], [], [file]);
        placed := Some((target, file));
        imm := None;
        nextFile := nextFile + 1;
        FlushInv(st, target, file, Abs());
      }
    }

    /** A background compaction of `level`: inputs chosen, then a trivial move or a merge. */
    method BackgroundCompaction(level: nat, trigger: Trigger) returns (ghost step: Step)
      requires Valid() && level + 1 < NUM_LEVELS && levels[level] != []
      requires trigger.BySeek? ==> trigger.file in levels[level]
      modifies `levels, `nextFile
      ensures Valid() && (step.TrivialMove? || step.Compact?) && step.level == level
      ensures step.TrivialMove? ==> MoveTo(old(Abs()), level, step.file, Abs())
      ensures step.Compact? ==> CompactTo(old(Abs()), level, step.in0, step.in1, step.input, step.outputs, Abs()) &&
                                CutByPolicy(step.outputs, step.input, policy)
      ensures exists in0, in1 :: Triggered(old(levels), level, trigger, maxFileSize, in0, in1) &&
                                 (step.TrivialMove? <==> SmallMove(old(levels), level, in0, in1, maxFileSize)) &&
                                 if step.TrivialMove? then in0 == [step.file] else step.Compact? && in0 == step.in0 && in1 == step.in1
    {
      VersionValid(Abs());
      var in0, in1 := PickCompaction(levels, level, trigger, maxFileSize);
      var trivial := IsTrivialMove(levels, level, in0, in1, maxFileSize);
      if trivial {
        assert in0 == [in0[0]] && in1 == [];
        MoveFile(level, in0[0]);
        step := TrivialMove(level, in0[0]);
      } else {
        ghost var input, outputs := CompactFiles(level, in0, in1);
        step := Compact(level, in0, in1, input, outputs);
      }
    }

    /** A manual compaction of a key range never takes the trivial move. */
    method ManualCompaction(level: nat, begin: Option<UserKey>, end: Option<UserKey>) returns (ghost step: Option<Step>)
      requires Valid() && level + 1 < NUM_LEVELS
      modifies `levels, `nextFile
      ensures Valid()
      ensures step.None? ==> Abs() == old(Abs()) && !exists f :: f in levels[level] && Meets(f, begin, end)
      ensures step.Some? ==> step.value.Compact? && step.value.level == level &&
                             CompactTo(old(Abs()), level, step.value.in0, step.value.in1, step.value.input, step.value.outputs, Abs()) &&
                             CutByPolicy(step.value.outputs, step.value.input, policy)
      ensures step.Some? ==> TakesRange(old(levels)[level], level, begin, end, maxFileSize, step.value.in0) &&
                             exists start :: Requested(old(levels), level, begin, end, maxFileSize, start) &&
                                             GrownFrom(old(levels), level, start, maxFileSize, step.value.in0, step.value.in1)
    {
      VersionValid(Abs());
      var in0, in1 := CompactRange(levels, level, begin, end, maxFileSize);
      if in0 == [] {
        step := None;
      } else {
        ghost var input, outputs := CompactFiles(level, in0, in1);
        step := Some(Compact(level, in0, in1, input, outputs));
      }
    }

    method MoveFile(level: nat, f: File)
      requires Valid() && level + 1 < NUM_LEVELS && LegalInputs(levels, level, [f], [])
      modifies `levels
      ensures Valid() && MoveTo(old(Abs()), level, f, Abs())
    {
      ghost var st := Abs();
      assert f in [f];
      MoveNewNumber(st, level, f);
      levels := LogAndApply(st, levels, level + 1, [f], [], [f]);
      MoveInv(st, level, f, Abs());
    }

    /** A merging compaction of the chosen inputs. */
    method CompactFiles(level: nat, in0: seq<File>, in1: seq<File>) returns (ghost input: seq<Entry>, ghost outputs: seq<File>)
      requires Valid() && level + 1 < NUM_LEVELS && LegalInputs(levels, level, in0, in1)
      modifies `levels, `nextFile
      ensures Valid() && CompactTo(old(Abs()), level, in0, in1, input, outputs, Abs()) && CutByPolicy(outputs, input, policy)
    {
      ghost var st := Abs();
      var smallestSnapshot := if snapshots == [] then lastSequence else snapshots[0];
      var after, files;
      after, files, input := CompactVersion(st, levels, level, in0, in1, smallestSnapshot, nextFile, policy);
      levels, nextFile, outputs := after, nextFile + |files|, files;
      CompactInv(st, level, in0, in1, input, outputs, Abs());
    }

    method GetSnapshot() returns (s: nat)
      requires Valid()
      modifies `snapshots
      ensures Valid() && TakeTo(old(Abs()), Abs()) && s == lastSequence
    {
      ghost var st := Abs();
      s := lastSequence;
      snapshots := snapshots + [s];
      SnapshotInv(st, Abs());
    }

    method Release(index: nat)
      requires Valid() && index < |snapshots|
      modifies `snapshots
      ensures Valid() && ReleaseTo(old(Abs()), index, Abs())
    {
      ghost var st := Abs();
      snapshots := snapshots[..index] + snapshots[index + 1..];
      assert ReleaseTo(st, index, Abs());
      SnapshotInv(st, Abs());
    }
  }

  lemma VersionValid(st: State)
    requires Inv(st)
    ensures ValidVersion(st.levels)
  {
  }

  lemma OneNewNumber(st: State, level: nat, f: File)
    requires |st.levels| == NUM_LEVELS && NumbersDistinct(st) && level < NUM_LEVELS && f.number == st.nextFile
    ensures NewNumbers(st, level, [f])
  {
  }

  lemma MoveNewNumber(st: State, level: nat, f: File)
    requires |st.levels| == NUM_LEVELS && NumbersDistinct(st) && level + 1 < NUM_LEVELS && f in st.levels[level]
    ensures NewNumbers(st, level + 1, [f])
  {
    forall g | g in st.levels[level + 1] ensures g.number != f.number { NumberNames(st, level + 1, g, level, f); }
  }

  lemma OutputsInstallable(st: State, level: nat, in0: seq<File>, in1: seq<File>, outputs: seq<File>, survivors: seq<Entry>)
    requires Inv(st) && level + 1 < NUM_LEVELS && LegalInputs(st.levels, level, in0, in1)
    requires OutputsAre(outputs, survivors, st.nextFile)
    ensures Installable(st, level + 1, in0, in1, outputs)
  {
    OutputNumbers(st, level + 1, outputs, survivors);
  }

  lemma OutputNumbers(st: State, target: nat, outputs: seq<File>, survivors: seq<Entry>)
    requires |st.levels| == NUM_LEVELS && NumbersDistinct(st) && target < NUM_LEVELS
    requires OutputsAre(outputs, survivors, st.nextFile)
    ensures NewNumbers(st, target, outputs)
  {
    forall f, o | f in st.levels[target] && o in outputs ensures f.number != o.number {
      var j :| 0 <= j < |outputs| && outputs[j] == o;
    }
  }

  /** MemTableInserter over a whole batch. */
  method InsertBatch(mem: seq<Entry>, ops: seq<Op>, first: nat) returns (r: seq<Entry>)
    requires Sorted(mem) && first + |ops| <= MAX_SEQUENCE_NUMBER
    requires forall e :: e in Entries(mem) ==> e.key.sn < first
    ensures Sorted(r) && Entries(r) == Entries(mem) + BatchEntries(ops, first)
  {
    r := mem;
    for i := 0 to |ops|
      invariant Sorted(r) && Entries(r) == Entries(mem) + BatchEntries(ops[..i], first)
    {
      BatchNext(ops, i, first);
      r := InsertEntry(r, OpEntry(ops[i], first + i));
    }
    assert ops[..|ops|] == ops;
  }

  lemma MemBound(st: State)
    requires Inv(st)
    ensures forall e :: e in Entries(st.mem) ==> e.key.sn <= st.lastSequence
  {
    assert Source(st, 0) == Entries(st.mem);
  }

  lemma BatchNext(ops: seq<Op>, i: nat, first: nat)
    requires i < |ops| && first + |ops| <= MAX_SEQUENCE_NUMBER
    ensures BatchEntries(ops[..i + 1], first) == BatchEntries(ops[..i], first) + {OpEntry(ops[i], first + i)}
    ensures forall e :: e in BatchEntries(ops[..i], first) ==> e.key.sn < first + i
  {
    var a, b := BatchEntries(ops[..i + 1], first), BatchEntries(ops[..i], first);
    forall e | e in a ensures e in b || e == OpEntry(ops[i], first + i) {
      var j :| 0 <= j < i + 1 && e == OpEntry(ops[..i + 1][j], first + j);
      assert j < i ==> ops[..i][j] == ops[j];
    }
    forall e | e in b ensures e in a {
      var j :| 0 <= j < i && e == OpEntry(ops[..i][j], first + j);
      assert ops[..i + 1][j] == ops[j];
    }
    assert ops[..i + 1][i] == ops[i];
  }
}
