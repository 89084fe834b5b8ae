/** Safety over whole runs of the store. */
module Runs {
  import opened DbFormat
  import opened Versions
  import opened VersionBuilder
  import opened Boundary
  import opened Inputs
  import opened Compactions
  import opened States
  import opened Steps
  import opened Structure
  import opened StepInvariant
  import opened Safety

  /** No compaction among the steps lets a deleted value resurface. */
  ghost predicate SafeStep(st: State, step: Step)
    requires |st.levels| == NUM_LEVELS
  {
    step.Compact? && step.level + 1 < NUM_LEVELS ==> !Resurfaces(st, step.level, step.in0, step.in1)
  }

  lemma WriteKeepsReads(st: State, ops: seq<Op>, st': State, s: nat)
    requires Inv(st) && WriteTo(st, ops, st') && s <= st.lastSequence
    ensures SameReads(st, st', s)
  {
    WriteSources(st, ops, st');
    BatchFacts(ops, st.lastSequence + 1);
    var batch := BatchEntries(ops, st.lastSequence + 1);
    assert All(st') == All(st) + batch by {
      assert forall i :: 0 <= i < NUM_SOURCES ==> Source(st', i) == if i == 0 then Source(st, 0) + batch else Source(st, i);
    }
    AllUnique(st);
    forall user ensures Read(All(st), user, s) == Read(All(st'), user, s) {
      NewEntriesUnseen(All(st), batch, user, s);
    }
  }

  lemma NewEntriesUnseen(all: set<Entry>, batch: set<Entry>, user: UserKey, s: nat)
    requires Unique(all) && forall e :: e in batch ==> e.key.sn > s
    ensures Read(all, user, s) == Read(all + batch, user, s)
  {
    forall e ensures Visible(all, user, s, e) <==> Visible(all + batch, user, s, e) {
    }
    forall e, e' | Visible(all, user, s, e) && Visible(all, user, s, e') ensures e == e' {
      assert e.key.sn <= e'.key.sn <= e.key.sn;
    }
  }

  lemma FlushKeepsEntries(st: State, level: nat, f: File, st': State)
    requires |st.levels| == NUM_LEVELS && FlushTo(st, level, f, st')
    ensures All(st') == All(st)
  {
    assert LevelEntries([f]) == Source(st, 1) && Source(st', 1) == {};
    forall l | 0 <= l < NUM_LEVELS
      ensures LevelEntries(st'.levels[l]) == if l == level then LevelEntries(st.levels[l]) + LevelEntries([f]) else LevelEntries(st.levels[l])
    {
      forall g ensures g in st'.levels[l] <==> g in st.levels[l] || (l == level && g == f) {
        assert g in Members(st'.levels[l]) <==> g in Members(st.levels[l]) || (l == level && g in Members([f]));
      }
    }
    forall i | 2 <= i < NUM_SOURCES
      ensures Source(st', i) == if i == level + 2 then Source(st, i) + Source(st, 1) else Source(st, i)
    {
    }
    forall i, e | 0 <= i < NUM_SOURCES && e in Source(st, i) ensures e in All(st') {
      assert e in Source(st', if i == 1 then level + 2 else i);
    }
    forall i, e | 0 <= i < NUM_SOURCES && e in Source(st', i) ensures e in All(st) {
      assert e in Source(st, i) || e in Source(st, 1);
    }
  }

  lemma SwitchKeepsEntries(st: State, st': State)
    requires |st.levels| == NUM_LEVELS && SwitchTo(st, st')
    ensures All(st') == All(st)
  {
    SwitchSources(st, st');
    forall i, e | 0 <= i < NUM_SOURCES && e in Source(st, i) ensures e in All(st') {
      assert e in Source(st', if i == 0 then 1 else i);
    }
    forall i, e | 0 <= i < NUM_SOURCES && e in Source(st', i) ensures e in All(st) {
      assert e in Source(st, if i == 1 then 0 else i);
    }
  }

  lemma MoveKeepsEntries(st: State, level: nat, f: File, st': State)
    requires Inv(st) && MoveTo(st, level, f, st')
    ensures All(st') == All(st)
  {
    InputSplit(st, level, [f], []);
    OutputSplit(st, st', level, [f], [], [f]);
  }

  lemma SameSourcesSameEntries(st: State, st': State)
    requires |st.levels| == |st'.levels| == NUM_LEVELS
    requires forall i :: 0 <= i < NUM_SOURCES ==> Source(st', i) == Source(st, i)
    ensures All(st') == All(st)
  {
  }

  /** One safe step changes no read at a live snapshot, and only a write changes the latest read. */
  lemma StepKeepsReads(st: State, step: Step, st': State)
    requires Inv(st) && StepTo(st, step, st') && SafeStep(st, step)
    ensures forall s :: s in st.snapshots ==> SameReads(st, st', s)
    ensures !step.Write? ==> SameReads(st, st', st.lastSequence)
  {
    assert forall s :: s in st.snapshots ==> SmallestSnapshot(st) <= s <= st.lastSequence;
    match step
    case Write(ops) =>
      forall s | s in st.snapshots ensures SameReads(st, st', s) { WriteKeepsReads(st, ops, st', s); }
    case SwitchMemTable => SwitchKeepsEntries(st, st');
    case FlushNothing =>
      SameSources(st, st');
      SameSourcesSameEntries(st, st');
    case Flush(level, f) => FlushKeepsEntries(st, level, f, st');
    case TrivialMove(level, f) => MoveKeepsEntries(st, level, f, st');
    case Compact(level, in0, in1, input, outputs) => CompactionReads(st, level, in0, in1, input, outputs, st');
    case TakeSnapshot =>
      SameSources(st, st');
      SameSourcesSameEntries(st, st');
    case ReleaseSnapshot(_) =>
      SameSources(st, st');
      SameSourcesSameEntries(st, st');
  }

  ghost predicate IsRun(run: seq<State>, steps: seq<Step>) {
    && |run| == |steps| + 1
    && Inv(run[0])
    && forall i {:trigger steps[i]} :: 0 <= i < |steps| ==> |run[i].levels| == NUM_LEVELS && StepTo(run[i], steps[i], run[i + 1])
  }

  /** MAIN: every state of every run satisfies the invariant. */
  lemma {:induction false} RunKeepsInv(run: seq<State>, steps: seq<Step>, i: nat)
    requires IsRun(run, steps) && i < |run|
    ensures Inv(run[i])
  {
    if i > 0 {
      RunKeepsInv(run, steps, i - 1);
      StepKeepsInv(run[i - 1], steps[i - 1], run[i]);
    }
  }

  lemma RunState(run: seq<State>, steps: seq<Step>, i: nat)
    requires IsRun(run, steps) && i < |run|
    ensures Inv(run[i]) && |run[i].levels| == NUM_LEVELS
    ensures |run| == |steps| + 1 && (i < |steps| ==> StepTo(run[i], steps[i], run[i + 1]))
  {
    RunKeepsInv(run, steps, i);
    InvParts(run[i]);
  }

  lemma SameReadsChain(a: State, b: State, c: State, s: nat)
    requires |a.levels| == |b.levels| == |c.levels| == NUM_LEVELS
    ensures SameReads(a, a, s) && (SameReads(a, b, s) && SameReads(b, c, s) ==> SameReads(a, c, s))
  {
  }

  /** MAIN: as long as a snapshot is live, what it reads never changes. */
  lemma {:induction false} SnapshotReadsNeverChange(run: seq<State>, steps: seq<Step>, i: nat, j: nat, s: nat)
    requires IsRun(run, steps) && i <= j < |run|
    requires forall k :: i <= k < j ==> s in run[k].snapshots
    requires forall k :: i <= k < j ==> |run[k].levels| == NUM_LEVELS && SafeStep(run[k], steps[k])
    ensures |run[i].levels| == |run[j].levels| == NUM_LEVELS && SameReads(run[i], run[j], s)
    decreases j
  {
    hide Inv, StepTo, SafeStep, SameReads, IsRun;
    RunState(run, steps, i);
    RunState(run, steps, j);
    SameReadsChain(run[i], run[if i < j then j - 1 else j], run[j], s);
    if i < j {
      RunState(run, steps, j - 1);
      SnapshotReadsNeverChange(run, steps, i, j - 1, s);
      StepKeepsReads(run[j - 1], steps[j - 1], run[j]);
    }
  }
}
