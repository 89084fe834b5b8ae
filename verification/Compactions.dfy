/** One compaction: the base-level test with its advancing cursors (Compaction in
    db/version_set.cc) and the loop that drops obsolete entries (DoCompactionWork in db/db_impl.cc). */
module Compactions {
  import opened Wrappers
  import opened DbFormat
  import opened Versions

  predicate Covers(f: File, user: UserKey) {
    f.smallest.user <= user <= f.largest.user
  }

  /** No file at level + 2 or deeper covers the user key. */
  ghost predicate IsBase(levels: seq<seq<File>>, level: nat, user: UserKey)
    requires |levels| == NUM_LEVELS
  {
    forall l, f :: level + 2 <= l < NUM_LEVELS && f in levels[l] ==> !Covers(f, user)
  }

  class Compaction {
    const levels: seq<seq<File>>  // files of the input version
    const level: nat
    const levelPtrs: array<nat>   // one cursor for each level
    ghost var last: Option<UserKey>  // the last key asked for

    ghost predicate Valid()
      reads this, levelPtrs
    {
      && ValidLevels(levels)
      && levelPtrs.Length == NUM_LEVELS
      && forall l {:trigger levelPtrs[l]} :: level + 2 <= l < NUM_LEVELS ==>
        && levelPtrs[l] <= |levels[l]|
        && forall i :: 0 <= i < levelPtrs[l] ==> last.Some? && levels[l][i].largest.user < last.value
    }

    constructor (levels: seq<seq<File>>, level: nat)
      requires ValidLevels(levels)
      ensures Valid() && fresh(levelPtrs) && last == None
      ensures this.levels == levels && this.level == level
    {
      this.levels, this.level := levels, level;
      levelPtrs := new nat[NUM_LEVELS](i => 0);
      last := None;
    }

    /** On a nondecreasing run of keys the cursors answer as a scan of all deeper files would. */
    method IsBaseLevelForKey(user: UserKey) returns (base: bool)
      requires Valid()
      requires last.Some? ==> last.value <= user
      modifies `last, levelPtrs
      ensures Valid() && last == Some(user)
      ensures base <==> IsBase(levels, level, user)
    {
      last := Some(user);
      var lvl := level + 2;
      while lvl < NUM_LEVELS
        invariant level + 2 <= lvl
        invariant Valid() && last == Some(user)
        invariant forall l, f :: level + 2 <= l < lvl && l < NUM_LEVELS && f in levels[l] ==> !Covers(f, user)
      {
        var files := levels[lvl];
        while levelPtrs[lvl] < |files|
          invariant Valid() && last == Some(user)
          decreases |files| - levelPtrs[lvl]
        {
          var f := files[levelPtrs[lvl]];
          if user <= f.largest.user {
            if user >= f.smallest.user {
              assert Covers(f, user) && f in levels[lvl];
              return false;
            }
            break;
          }
          levelPtrs[lvl] := levelPtrs[lvl] + 1;
        }
        PastCursor(files, levelPtrs[lvl], user);
        lvl := lvl + 1;
      }
      return true;
    }
  }

  lemma PastCursor(files: seq<File>, p: nat, user: UserKey)
    requires Disjoint(files) && p <= |files|
    requires forall i :: 0 <= i < p ==> files[i].largest.user < user
    requires p < |files| ==> user < files[p].smallest.user
    ensures forall f :: f in files ==> !Covers(f, user)
  {
    forall i | 0 <= i < |files| ensures !Covers(files[i], user) {
      if i > p {
        FileRange(files[p]);
        assert Before(files[p].largest, files[i].smallest);
      }
    }
  }

  /** Entry `i` of the merged input is dropped: rule (A), a newer entry of its user key is already
      at or below the oldest snapshot, or it is a deletion marker with nothing left to hide. */
  ghost predicate Dropped(input: seq<Entry>, i: nat, snapshot: nat, levels: seq<seq<File>>, level: nat)
    requires i < |input| && |levels| == NUM_LEVELS
  {
    var key := input[i].key;
    || (i > 0 && input[i - 1].key.user == key.user && input[i - 1].key.sn <= snapshot)
    || (key.typ.TypeDeletion? && key.sn <= snapshot && IsBase(levels, level, key.user))
  }

  ghost function Survivors(input: seq<Entry>, snapshot: nat, levels: seq<seq<File>>, level: nat): seq<Entry>
    requires |levels| == NUM_LEVELS
  {
    if input == [] then []
    else
      var n := |input| - 1;
      Survivors(input[..n], snapshot, levels, level) +
      if Dropped(input, n, snapshot, levels, level) then [] else [input[n]]
  }

  lemma {:induction false} SurvivorsAre(input: seq<Entry>, snapshot: nat, levels: seq<seq<File>>, level: nat)
    requires |levels| == NUM_LEVELS
    ensures forall e :: e in Survivors(input, snapshot, levels, level) <==>
      exists i :: 0 <= i < |input| && input[i] == e && !Dropped(input, i, snapshot, levels, level)
  {
    if input != [] {
      var n := |input| - 1;
      SurvivorsAre(input[..n], snapshot, levels, level);
      forall i | 0 <= i < n
        ensures Dropped(input[..n], i, snapshot, levels, level) == Dropped(input, i, snapshot, levels, level)
      {
      }
    }
  }

  lemma {:induction false} SurvivorsSorted(input: seq<Entry>, snapshot: nat, levels: seq<seq<File>>, level: nat)
    requires |levels| == NUM_LEVELS && Sorted(input)
    ensures Sorted(Survivors(input, snapshot, levels, level))
    ensures forall e :: e in Survivors(input, snapshot, levels, level) ==> e in input
  {
    if input != [] {
      var n := |input| - 1;
      SurvivorsSorted(input[..n], snapshot, levels, level);
      var r := Survivors(input[..n], snapshot, levels, level);
      forall j | 0 <= j < |r| ensures Before(r[j].key, input[n].key) {
        assert r[j] in input[..n];
      }
    }
  }

  /** Rule (A) reaches every entry older than one at or below the snapshot. */
  lemma HiddenIsDropped(input: seq<Entry>, i: nat, j: nat, snapshot: nat, levels: seq<seq<File>>, level: nat)
    requires |levels| == NUM_LEVELS && Sorted(input)
    requires i < j < |input| && input[i].key.user == input[j].key.user && input[i].key.sn <= snapshot
    ensures Dropped(input, j, snapshot, levels, level)
  {
    assert i < j - 1 ==> Before(input[i].key, input[j - 1].key);
    assert Before(input[j - 1].key, input[j].key);
  }

  function Flatten(files: seq<File>): seq<Entry> {
    if files == [] then [] else Flatten(files[..|files| - 1]) + files[|files| - 1].entries
  }

  ghost predicate EndsMatch(f: File) {
    && f.entries != []
    && f.smallest == f.entries[0].key
    && f.largest == f.entries[|f.entries| - 1].key
  }

  /** Cutting a sorted sequence into files makes them ordered and disjoint. */
  lemma {:induction false} CutIsDisjoint(files: seq<File>)
    requires Sorted(Flatten(files)) && forall f :: f in files ==> EndsMatch(f)
    ensures Disjoint(files)
    ensures forall e :: e in Flatten(files) <==> exists f :: f in files && e in f.entries
  {
    if files != [] {
      var front, last := files[..|files| - 1], files[|files| - 1];
      SortedPrefix(Flatten(front), last.entries);
      assert front + [last] == files && last in files;
      CutIsDisjoint(front);
      forall f | f in front ensures Before(f.largest, last.smallest) {
        LastBeforeFirst(Flatten(front), last.entries, f.entries[|f.entries| - 1]);
      }
    }
  }

  lemma SortedPrefix(a: seq<Entry>, b: seq<Entry>)
    requires Sorted(a + b)
    ensures Sorted(a) && Sorted(b)
  {
    assert a == (a + b)[..|a|] && b == (a + b)[|a|..];
  }

  lemma LastBeforeFirst(a: seq<Entry>, b: seq<Entry>, e: Entry)
    requires Sorted(a + b) && e in a && b != []
    ensures Before(e.key, b[0].key)
  {
    var p :| 0 <= p < |a| && a[p] == e;
    assert (a + b)[p] == e && (a + b)[|a|] == b[0];
  }

  ghost predicate Finished(outputs: seq<File>, firstNumber: nat) {
    && (forall f :: f in outputs ==> EndsMatch(f))
    && (forall j :: 0 <= j < |outputs| ==> outputs[j].number == firstNumber + j)
  }

  /** The outputs hold exactly the survivors, in order, under consecutive new numbers. */
  ghost predicate OutputsAre(outputs: seq<File>, survivors: seq<Entry>, firstNumber: nat) {
    Flatten(outputs) == survivors && Finished(outputs, firstNumber)
  }

  // Where outputs are cut: `stopBefore` is ShouldStopBefore's verdict on each entry, `sizeOf` the
  // size of a table that holds the given entries.
  datatype CutPolicy = CutPolicy(stopBefore: Entry -> bool, sizeOf: seq<Entry> -> nat, maxFileSize: nat)

  /** No file is added to once it is large enough. */
  ghost predicate LargeAtMostWhole(es: seq<Entry>, policy: CutPolicy) {
    es != [] && forall k :: 0 < k < |es| ==> policy.sizeOf(es[..k]) < policy.maxFileSize
  }

  /** Some entry of the input past `a`, up to `b`, was to begin a file. */
  ghost predicate StopsBetween(input: seq<Entry>, policy: CutPolicy, a: InternalKey, b: InternalKey) {
    exists e :: e in input && Before(a, e.key) && AtOrBefore(e.key, b) && policy.stopBefore(e)
  }

  /** A file ends where the policy wants another to begin, or when it is large enough, and not before. */
  ghost predicate CutByPolicy(outputs: seq<File>, input: seq<Entry>, policy: CutPolicy) {
    && (forall f :: f in outputs ==> WithinPolicy(f, input, policy))
    && forall j :: 0 <= j < |outputs| - 1 ==> EndsByPolicy(outputs[j], outputs[j + 1].smallest, input, policy)
  }

  ghost predicate WithinPolicy(f: File, input: seq<Entry>, policy: CutPolicy) {
    f.size == policy.sizeOf(f.entries) && LargeAtMostWhole(f.entries, policy) && !StopsBetween(input, policy, f.smallest, f.largest)
  }

  ghost predicate EndsByPolicy(f: File, next: InternalKey, input: seq<Entry>, policy: CutPolicy) {
    policy.sizeOf(f.entries) >= policy.maxFileSize || StopsBetween(input, policy, f.largest, next)
  }

  ghost predicate KeyIn(input: seq<Entry>, key: InternalKey) {
    exists e :: e in input && e.key == key
  }

  /** The finished outputs and the open one after part of the input. */
  ghost predicate CutSoFar(outputs: seq<File>, open: Option<seq<Entry>>, input: seq<Entry>, policy: CutPolicy) {
    && CutByPolicy(outputs, input, policy)
    && (forall f :: f in outputs ==> KeyIn(input, f.largest) && KeyIn(input, f.smallest))
    && match open
       case None => outputs != [] ==> Ended(outputs[|outputs| - 1], input, policy)
       case Some(es) =>
         && LargeAtMostWhole(es, policy) && policy.sizeOf(es) < policy.maxFileSize
         && KeyIn(input, es[0].key) && KeyIn(input, es[|es| - 1].key)
         && (forall e :: e in input && Before(es[0].key, e.key) ==> !policy.stopBefore(e))
         && (outputs != [] ==> EndsByPolicy(outputs[|outputs| - 1], es[0].key, input, policy))
  }

  /** The file has ended already. */
  ghost predicate Ended(f: File, input: seq<Entry>, policy: CutPolicy) {
    policy.sizeOf(f.entries) >= policy.maxFileSize || exists e :: e in input && Before(f.largest, e.key) && policy.stopBefore(e)
  }

  /** What the output file becomes when it is finished. */
  predicate FileFor(f: File, es: seq<Entry>, policy: CutPolicy) {
    es != [] && f.entries == es && f.size == policy.sizeOf(es) && f.smallest == es[0].key && f.largest == es[|es| - 1].key
  }

  lemma KeysBefore(input: seq<Entry>, e: Entry, key: InternalKey)
    requires Sorted(input + [e]) && KeyIn(input, key)
    ensures Before(key, e.key) && KeyIn(input + [e], key)
  {
    var x :| x in input && x.key == key;
    LastBeforeFirst(input, [e], x);
    assert x in input + [e];
  }

  lemma BeforeOnlyOneWay(a: InternalKey, b: InternalKey)
    requires Before(a, b)
    ensures !AtOrBefore(b, a)
  {
    CompareMeaning(a, b);
  }

  /** A later entry stops nothing that has ended. */
  lemma StopsKept(input: seq<Entry>, e: Entry, policy: CutPolicy, a: InternalKey, b: InternalKey)
    requires Sorted(input + [e]) && KeyIn(input, b)
    ensures StopsBetween(input + [e], policy, a, b) <==> StopsBetween(input, policy, a, b)
  {
    hide Sorted;
    KeysBefore(input, e, b);
    BeforeOnlyOneWay(b, e.key);
    var more := input + [e];
    assert forall x :: x in more <==> x in input || x == e;
  }

  lemma CutKept(outputs: seq<File>, input: seq<Entry>, e: Entry, policy: CutPolicy)
    requires Sorted(input + [e]) && CutByPolicy(outputs, input, policy)
    requires forall f :: f in outputs ==> KeyIn(input, f.largest) && KeyIn(input, f.smallest)
    ensures CutByPolicy(outputs, input + [e], policy)
    ensures forall f :: f in outputs ==> KeyIn(input + [e], f.largest) && KeyIn(input + [e], f.smallest)
  {
    hide Sorted, KeyIn, StopsBetween, LargeAtMostWhole;
    forall f | f in outputs
      ensures StopsBetween(input + [e], policy, f.smallest, f.largest) <==> StopsBetween(input, policy, f.smallest, f.largest)
      ensures KeyIn(input + [e], f.largest) && KeyIn(input + [e], f.smallest)
    {
      StopsKept(input, e, policy, f.smallest, f.largest);
      KeysBefore(input, e, f.largest);
      KeysBefore(input, e, f.smallest);
    }
    forall j | 0 <= j < |outputs| - 1
      ensures EndsByPolicy(outputs[j], outputs[j + 1].smallest, input + [e], policy)
    {
      assert outputs[j + 1] in outputs;
      StopsKept(input, e, policy, outputs[j].largest, outputs[j + 1].smallest);
    }
  }

  /** One more output. */
  lemma CutFinished(outputs: seq<File>, f: File, input: seq<Entry>, policy: CutPolicy)
    requires CutByPolicy(outputs, input, policy) && WithinPolicy(f, input, policy)
    requires outputs != [] ==> EndsByPolicy(outputs[|outputs| - 1], f.smallest, input, policy)
    ensures CutByPolicy(outputs + [f], input, policy)
  {
    hide WithinPolicy, EndsByPolicy;
  }

  /** The next entry is looked at: the open output ends there, or goes on. */
  lemma CutStops(outputs: seq<File>, open: Option<seq<Entry>>, input: seq<Entry>, e: Entry, policy: CutPolicy, f: File)
    requires Sorted(input + [e]) && CutSoFar(outputs, open, input, policy)
    requires open.Some? && policy.stopBefore(e) && FileFor(f, open.value, policy)
    ensures CutSoFar(outputs + [f], None, input + [e], policy)
  {
    OpenCloses(outputs, open.value, input, policy, f);
    hide CutByPolicy, LargeAtMostWhole, Sorted, EndsByPolicy, WithinPolicy;
    CutKept(outputs + [f], input, e, policy);
    KeysBefore(input, e, f.largest);
    assert e in input + [e] && (outputs + [f])[|outputs|] == f;
  }

  /** The open output, finished as it is. */
  lemma OpenCloses(outputs: seq<File>, es: seq<Entry>, input: seq<Entry>, policy: CutPolicy, f: File)
    requires CutSoFar(outputs, Some(es), input, policy) && FileFor(f, es, policy)
    ensures CutByPolicy(outputs + [f], input, policy)
    ensures forall g :: g in outputs + [f] ==> KeyIn(input, g.largest) && KeyIn(input, g.smallest)
  {
    hide CutByPolicy, LargeAtMostWhole, EndsByPolicy, KeyIn;
    CutFinished(outputs, f, input, policy);
  }

  lemma CutGoesOn(outputs: seq<File>, open: Option<seq<Entry>>, input: seq<Entry>, e: Entry, policy: CutPolicy)
    requires Sorted(input + [e]) && CutSoFar(outputs, open, input, policy) && (open.Some? ==> !policy.stopBefore(e))
    ensures CutSoFar(outputs, open, input + [e], policy)
  {
    hide CutByPolicy, Sorted;
    CutKept(outputs, input, e, policy);
    var more := input + [e];
    assert forall x :: x in more <==> x in input || x == e;
    if open.Some? {
      KeysBefore(input, e, open.value[0].key);
      KeysBefore(input, e, open.value[|open.value| - 1].key);
      if outputs != [] { StopsKept(input, e, policy, outputs[|outputs| - 1].largest, open.value[0].key); }
    }
  }

  /** The entry goes to the open output, or to a new one. */
  lemma CutAdds(outputs: seq<File>, open: Option<seq<Entry>>, input: seq<Entry>, e: Entry, policy: CutPolicy)
    requires Sorted(input + [e]) && CutSoFar(outputs, open, input + [e], policy)
    ensures var es := (if open.Some? then open.value else []) + [e];
      && LargeAtMostWhole(es, policy)
      && (policy.sizeOf(es) < policy.maxFileSize ==> CutSoFar(outputs, Some(es), input + [e], policy))
      && forall f :: FileFor(f, es, policy) && policy.sizeOf(es) >= policy.maxFileSize ==> CutSoFar(outputs + [f], None, input + [e], policy)
  {
    hide CutByPolicy, Sorted;
    var more := input + [e];
    var es := (if open.Some? then open.value else []) + [e];
    assert e in more && KeyIn(more, e.key);
    AddedIsLarge(open, e, policy);
    NothingAfter(input, e);
    if outputs != [] && open.None? { EndedIsEnd(outputs[|outputs| - 1], input, e, policy); }
    forall f | FileFor(f, es, policy) && policy.sizeOf(es) >= policy.maxFileSize ensures CutSoFar(outputs + [f], None, more, policy) {
      hide LargeAtMostWhole, EndsByPolicy;
      assert !StopsBetween(more, policy, es[0].key, e.key);
      CutFinished(outputs, f, more, policy);
      assert (outputs + [f])[|outputs|] == f;
    }
  }

  lemma AddedIsLarge(open: Option<seq<Entry>>, e: Entry, policy: CutPolicy)
    requires open.Some? ==> LargeAtMostWhole(open.value, policy) && policy.sizeOf(open.value) < policy.maxFileSize
    ensures LargeAtMostWhole((if open.Some? then open.value else []) + [e], policy)
  {
    if open.Some? {
      var es := open.value + [e];
      forall k | 0 < k < |es| ensures policy.sizeOf(es[..k]) < policy.maxFileSize {
        assert es[..k] == if k == |open.value| then open.value else open.value[..k];
      }
    }
  }

  lemma NothingAfter(input: seq<Entry>, e: Entry)
    requires Sorted(input + [e])
    ensures forall x :: x in input + [e] ==> AtOrBefore(x.key, e.key) && !Before(e.key, x.key)
  {
    forall x | x in input + [e] ensures AtOrBefore(x.key, e.key) && !Before(e.key, x.key) {
      CompareMeaning(x.key, e.key);
      if x in input { LastBeforeFirst(input, [e], x); }
    }
  }

  lemma EndedIsEnd(f: File, input: seq<Entry>, e: Entry, policy: CutPolicy)
    requires Sorted(input + [e]) && Ended(f, input + [e], policy)
    ensures EndsByPolicy(f, e.key, input + [e], policy)
  {
    NothingAfter(input, e);
  }

  lemma CutEnds(outputs: seq<File>, open: Option<seq<Entry>>, input: seq<Entry>, policy: CutPolicy)
    requires CutSoFar(outputs, open, input, policy)
    ensures open.None? ==> CutByPolicy(outputs, input, policy)
    ensures open.Some? ==> forall f :: FileFor(f, open.value, policy) ==> CutByPolicy(outputs + [f], input, policy)
  {
    hide CutByPolicy, LargeAtMostWhole, KeyIn;
    if open.Some? {
      forall f | FileFor(f, open.value, policy) ensures CutByPolicy(outputs + [f], input, policy) {
        OpenCloses(outputs, open.value, input, policy, f);
      }
    }
  }

  class CompactionState {
    const policy: CutPolicy
    const firstNumber: nat
    var outputs: seq<File>           // finished output files
    var builder: Option<seq<Entry>>  // entries of the open output file
    var smallest: InternalKey
    var largest: InternalKey

    ghost predicate Valid()
      reads this
    {
      Finished(outputs, firstNumber) && (builder.Some? ==> EndsMatch(File(0, 0, smallest, largest, builder.value)))
    }

    ghost function Written(): seq<Entry>
      reads this
    {
      Flatten(outputs) + if builder.Some? then builder.value else []
    }

    constructor (firstNumber: nat, policy: CutPolicy)
      ensures Valid() && Written() == [] && builder == None
      ensures this.firstNumber == firstNumber && this.policy == policy && outputs == []
    {
      this.firstNumber, this.policy := firstNumber, policy;
      outputs, builder := [], None;
      smallest, largest := LookupKey(0.0, 0), LookupKey(0.0, 0);
    }

    method FinishCompactionOutputFile() returns (ghost f: File)
      requires Valid() && builder.Some?
      modifies this
      ensures Valid() && Written() == old(Written()) && builder == None
      ensures outputs == old(outputs) + [f] && FileFor(f, old(builder.value), policy)
    {
      var file := File(firstNumber + |outputs|, policy.sizeOf(builder.value), smallest, largest, builder.value);
      assert (outputs + [file])[..|outputs|] == outputs;
      outputs := outputs + [file];
      builder := None;
      f := file;
    }

    /** The open output file is finished where the policy wants the entry to start another. */
    method StopBefore(e: Entry, ghost done: seq<Entry>)
      requires Valid() && Sorted(done + [e]) && CutSoFar(outputs, builder, done, policy)
      modifies this
      ensures Valid() && Written() == old(Written())
      ensures CutSoFar(outputs, builder, done + [e], policy)
    {
      hide Finished, EndsMatch, Flatten, CutSoFar, Sorted;
      if policy.stopBefore(e) && builder.Some? {
        ghost var before, open := outputs, builder;
        ghost var f := FinishCompactionOutputFile();
        CutStops(before, open, done, e, policy, f);
      } else {
        CutGoesOn(outputs, builder, done, e, policy);
      }
    }

    /** All output files, once the last is finished. */
    method Outputs(ghost done: seq<Entry>) returns (files: seq<File>)
      requires Valid() && CutSoFar(outputs, builder, done, policy)
      modifies this
      ensures OutputsAre(files, old(Written()), firstNumber) && CutByPolicy(files, done, policy)
    {
      hide Finished, EndsMatch, Flatten, CutSoFar, CutByPolicy;
      CutEnds(outputs, builder, done, policy);
      if builder.Some? {
        ghost var f := FinishCompactionOutputFile();
      }
      files := outputs;
    }

    method Add(e: Entry, ghost done: seq<Entry>)
      requires Valid() && Sorted(done + [e]) && CutSoFar(outputs, builder, done + [e], policy)
      modifies this
      ensures Valid() && Written() == old(Written()) + [e]
      ensures CutSoFar(outputs, builder, done + [e], policy)
    {
      hide CutSoFar, Sorted, Flatten;
      CutAdds(outputs, builder, done, e, policy);
      if builder.None? {
        smallest := e.key;
        builder := Some([]);
      }
      largest := e.key;
      builder := Some(builder.value + [e]);
      assert Written() == old(Written()) + [e];
      if policy.sizeOf(builder.value) >= policy.maxFileSize {
        ghost var f := FinishCompactionOutputFile();
      }
    }
  }

  // The loop's memory of the previous entry.
  datatype Progress = Progress(currentUserKey: Option<UserKey>, lastSequenceForKey: nat)

  ghost predicate Remembers(p: Progress, prev: Option<InternalKey>) {
    if prev.Some? then p == Progress(Some(prev.value.user), prev.value.sn) else p.currentUserKey == None
  }

  ghost function KeyBefore(input: seq<Entry>, i: nat): Option<InternalKey>
    requires i <= |input|
  {
    if i == 0 then None else Some(input[i - 1].key)
  }

  /** The decision of one round: rule (A), or an obsolete deletion marker. */
  method DropDecision(c: Compaction, ghost input: seq<Entry>, ghost i: nat, key: InternalKey, smallestSnapshot: nat, progress: Progress)
    returns (drop: bool, progress': Progress)
    requires c.Valid() && i < |input| && key == input[i].key && (c.last.Some? ==> c.last.value <= key.user)
    requires smallestSnapshot < MAX_SEQUENCE_NUMBER && Remembers(progress, KeyBefore(input, i))
    modifies c`last, c.levelPtrs
    ensures c.Valid() && (c.last.Some? ==> c.last.value <= key.user)
    ensures Remembers(progress', Some(key))
    ensures drop <==> Dropped(input, i, smallestSnapshot, c.levels, c.level)
  {
    var currentUserKey, lastSequenceForKey := progress.currentUserKey, progress.lastSequenceForKey;
    drop := false;
    if currentUserKey.None? || key.user != currentUserKey.value {
      currentUserKey := Some(key.user);
      lastSequenceForKey := MAX_SEQUENCE_NUMBER;
    }
    if lastSequenceForKey <= smallestSnapshot {
      drop := true;
    } else if key.typ.TypeDeletion? && key.sn <= smallestSnapshot {
      drop := c.IsBaseLevelForKey(key.user);
    }
    lastSequenceForKey := key.sn;
    progress' := Progress(currentUserKey, lastSequenceForKey);
  }

  lemma SurvivorsNext(input: seq<Entry>, i: nat, snapshot: nat, levels: seq<seq<File>>, level: nat)
    requires |levels| == NUM_LEVELS && i < |input|
    ensures Survivors(input[..i + 1], snapshot, levels, level) ==
      Survivors(input[..i], snapshot, levels, level) + if Dropped(input, i, snapshot, levels, level) then [] else [input[i]]
  {
    assert input[..i + 1][..i] == input[..i];
    assert Dropped(input[..i + 1], i, snapshot, levels, level) == Dropped(input, i, snapshot, levels, level);
  }

  lemma UsersAscend(input: seq<Entry>, i: nat)
    requires Sorted(input) && i < |input|
    ensures i > 0 ==> input[i - 1].key.user <= input[i].key.user
  {
    assert i > 0 ==> Before(input[i - 1].key, input[i].key);
  }

  lemma SortedTo(input: seq<Entry>, i: nat)
    requires Sorted(input) && i < |input|
    ensures Sorted(input[..i] + [input[i]]) && input[..i + 1] == input[..i] + [input[i]]
  {
    assert input[..i + 1] == input[..i] + [input[i]];
  }

  lemma NothingCut(policy: CutPolicy)
    ensures CutSoFar([], None, [], policy)
  {
  }

  lemma NoSurvivors(input: seq<Entry>, snapshot: nat, levels: seq<seq<File>>, level: nat)
    requires |levels| == NUM_LEVELS
    ensures Survivors(input[..0], snapshot, levels, level) == []
    ensures Remembers(Progress(None, MAX_SEQUENCE_NUMBER), KeyBefore(input, 0))
  {
  }

  /** One entry of the merged input: it may end the open output, and is dropped or added. */
  method NextEntry(c: Compaction, compact: CompactionState, input: seq<Entry>, i: nat, smallestSnapshot: nat, progress: Progress)
    returns (progress': Progress)
    requires c.Valid() && |c.levels| == NUM_LEVELS && i < |input| && (c.last.Some? ==> i > 0 && c.last.value <= input[i - 1].key.user)
    requires Sorted(input) && smallestSnapshot < MAX_SEQUENCE_NUMBER && Remembers(progress, KeyBefore(input, i))
    requires compact.Valid() && compact.Written() == Survivors(input[..i], smallestSnapshot, c.levels, c.level)
    requires CutSoFar(compact.outputs, compact.builder, input[..i], compact.policy)
    modifies c`last, c.levelPtrs, compact
    ensures c.Valid() && (c.last.Some? ==> c.last.value <= input[i].key.user)
    ensures Remembers(progress', KeyBefore(input, i + 1))
    ensures compact.Valid() && compact.Written() == Survivors(input[..i + 1], smallestSnapshot, c.levels, c.level)
    ensures CutSoFar(compact.outputs, compact.builder, input[..i + 1], compact.policy)
  {
    hide Survivors, Dropped, ValidLevels, Finished, EndsMatch, Flatten, Compaction.Valid, CompactionState.Valid, CompactionState.Written, Remembers, Sorted, Before,
         CutSoFar, CutByPolicy;
    UsersAscend(input, i);
    SortedTo(input, i);
    compact.StopBefore(input[i], input[..i]);
    var drop;
    drop, progress' := DropDecision(c, input, i, input[i].key, smallestSnapshot, progress);
    SurvivorsNext(input, i, smallestSnapshot, c.levels, c.level);
    if !drop {
      compact.Add(input[i], input[..i]);
    }
  }

  /** The loop of DoCompactionWork over the merged input. */
  method DoCompactionWork(c: Compaction, input: seq<Entry>, smallestSnapshot: nat, firstNumber: nat, policy: CutPolicy)
    returns (outputs: seq<File>)
    requires c.Valid() && c.last == None
    requires Sorted(input) && smallestSnapshot < MAX_SEQUENCE_NUMBER
    modifies c`last, c.levelPtrs
    ensures OutputsAre(outputs, Survivors(input, smallestSnapshot, c.levels, c.level), firstNumber)
    ensures CutByPolicy(outputs, input, policy)
  {
    assert |c.levels| == NUM_LEVELS;
    hide Survivors, Dropped, ValidLevels, Finished, EndsMatch, Flatten, Compaction.Valid, CompactionState.Valid, CompactionState.Written, Remembers, Sorted, Before,
         CutSoFar, CutByPolicy;
    NothingCut(policy);
    NoSurvivors(input, smallestSnapshot, c.levels, c.level);
    var compact := new CompactionState(firstNumber, policy);
    var progress := Progress(None, MAX_SEQUENCE_NUMBER);
    var i := 0;
    while i < |input|
      invariant 0 <= i <= |input|
      invariant c.Valid() && (c.last.Some? ==> i > 0 && c.last.value <= input[i - 1].key.user)
      invariant Remembers(progress, KeyBefore(input, i))
      invariant compact.Valid()
      invariant compact.Written() == Survivors(input[..i], smallestSnapshot, c.levels, c.level)
      invariant CutSoFar(compact.outputs, compact.builder, input[..i], policy)
    {
      progress := NextEntry(c, compact, input, i, smallestSnapshot, progress);
      i := i + 1;
    }
    assert input[..|input|] == input;
    outputs := compact.Outputs(input);
  }
}
