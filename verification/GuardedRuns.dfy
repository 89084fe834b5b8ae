/** Runs whose compactions are checked only when they begin. What a caller can see then, the ranges of
    the chosen files and the files beside them, settles all that may happen until the outputs are
    installed: every search stays right and every live snapshot reads the same. */
module GuardedRuns {
  import opened Wrappers
  import opened DbFormat
  import opened Versions
  import opened Boundary
  import opened Inputs
  import opened States
  import opened Steps
  import opened Structure
  import opened Safety
  import opened Runs
  import opened ClosedBelow
  import opened Interleaved
  import opened FlushedAcross

  /** No flush can come between the outputs, and the lower inputs end where a user key ends. */
  ghost predicate GuardedInputs(levels: seq<seq<File>>, level: nat, in0: seq<File>, in1: seq<File>)
    requires |levels| == NUM_LEVELS && level + 1 < NUM_LEVELS
  {
    && OutOfReach(level, in0, in1)
    && (in1 != [] ==> forall g :: g in levels[level + 1] ==> !StartsAfter(g, LargestKey(in1)))
  }

  ghost predicate GuardedEvent(b: Busy, event: Event)
    requires |b.st.levels| == NUM_LEVELS
  {
    event.Begin? && event.level + 1 < NUM_LEVELS ==> GuardedInputs(b.st.levels, event.level, event.in0, event.in1)
  }

  ghost predicate GuardedPending(b: Busy) {
    b.pending.Some? ==>
      var p := b.pending.value;
      |p.start.levels| == NUM_LEVELS && p.level + 1 < NUM_LEVELS && GuardedInputs(p.start.levels, p.level, p.in0, p.in1)
  }

  ghost predicate GuardedEventTo(b: Busy, event: Event, b': Busy) {
    && |b.st.levels| == NUM_LEVELS && (b.pending.Some? ==> |b.pending.value.start.levels| == NUM_LEVELS)
    && EventTo(b, event, b') && GuardedEvent(b, event)
  }

  ghost predicate IsGuardedRun(run: seq<Busy>, events: seq<Event>) {
    && |run| == |events| + 1
    && BusyInv(run[0]) && run[0].pending.None?
    && forall i {:trigger events[i]} :: 0 <= i < |events| ==> GuardedEventTo(run[i], events[i], run[i + 1])
  }

  lemma GuardedFinish(b: Busy, input: seq<Entry>, outputs: seq<File>, p: Pending)
    requires BusyInv(b) && b.pending == Some(p) && |p.start.levels| == NUM_LEVELS && Produces(p, input, outputs)
    requires p.level + 1 < NUM_LEVELS && GuardedInputs(p.start.levels, p.level, p.in0, p.in1)
    ensures |b.st.levels| == NUM_LEVELS && ApartFromRest(b.st.levels[p.level + 1], p.in1, outputs)
    ensures !Resurfaces(p.start, p.level, p.in0, p.in1)
  {
    PendingParts(b, p);
    hide BusyInv, Inv, Underway, Produces, LegalInputs, OutOfReach, ApartFromRest, Resurfaces, StartsAfter, LargestKey;
    OutOfReachFinishes(b, input, outputs, p);
    CompleteBelowIsSafe(p.start, p.level, p.in0, p.in1);
  }

  /** What was checked at the beginning is enough at the end. */
  lemma GuardedIsSafe(b: Busy, event: Event, b': Busy)
    requires BusyInv(b) && GuardedPending(b) && GuardedEventTo(b, event, b')
    ensures SafeEventTo(b, event, b')
  {
    hide BusyInv, StepTo, Produces, Installs, LegalInputs, GuardedInputs, ApartFromRest, Resurfaces;
    if event.Finish? && b.pending.Some? {
      GuardedFinish(b, event.input, event.outputs, b.pending.value);
    }
  }

  lemma PendingParts(b: Busy, p: Pending)
    requires BusyInv(b) && b.pending == Some(p)
    ensures |p.start.levels| == NUM_LEVELS && Inv(p.start) && p.level + 1 < NUM_LEVELS && LegalInputs(p.start.levels, p.level, p.in0, p.in1)
  {
  }

  lemma GuardStays(b: Busy, event: Event, b': Busy)
    requires GuardedPending(b) && GuardedEventTo(b, event, b')
    ensures GuardedPending(b')
  {
    hide OutOfReach, StepTo, Produces, Installs, LegalInputs;
  }

  lemma {:induction false} GuardedState(run: seq<Busy>, events: seq<Event>, i: nat)
    requires IsGuardedRun(run, events) && i < |run|
    ensures BusyInv(run[i]) && GuardedPending(run[i])
  {
    hide BusyInv, GuardedEventTo, SafeEventTo;
    if i > 0 {
      GuardedState(run, events, i - 1);
      assert GuardedEventTo(run[i - 1], events[i - 1], run[i]);
      GuardStays(run[i - 1], events[i - 1], run[i]);
      GuardedIsSafe(run[i - 1], events[i - 1], run[i]);
      SafeKeeps(run[i - 1], events[i - 1], run[i]);
    }
  }

  lemma SafeKeeps(b: Busy, event: Event, b': Busy)
    requires BusyInv(b) && SafeEventTo(b, event, b')
    ensures BusyInv(b')
  {
    hide BusyInv, EventTo, SafeEvent;
    EventKeeps(b, event, b');
  }

  /** A guarded run is one of those without a hazard at the end of a compaction. */
  lemma GuardedRunIsBusyRun(run: seq<Busy>, events: seq<Event>)
    requires IsGuardedRun(run, events)
    ensures IsBusyRun(run, events)
  {
    hide BusyInv, GuardedEventTo, SafeEventTo;
    forall i | 0 <= i < |events| ensures SafeEventTo(run[i], events[i], run[i + 1]) {
      GuardedState(run, events, i);
      assert GuardedEventTo(run[i], events[i], run[i + 1]);
      GuardedIsSafe(run[i], events[i], run[i + 1]);
    }
  }

  /** MAIN: if every compaction is checked when it begins, then at every moment of every interleaved
      run every search of the store is right. */
  lemma GuardedRunAnswers(run: seq<Busy>, events: seq<Event>, i: nat)
    requires IsGuardedRun(run, events) && i < |run|
    ensures Inv(run[i].st) && AllAnswered(run[i].st)
  {
    hide Inv, AllAnswered, LevelsAnswer, GuardedEventTo, Underway;
    GuardedState(run, events, i);
    InvAnswers(run[i].st);
  }

  /** MAIN: and a live snapshot reads the same throughout. */
  lemma GuardedSnapshotReads(run: seq<Busy>, events: seq<Event>, i: nat, j: nat, s: nat)
    requires IsGuardedRun(run, events) && i <= j < |run|
    requires forall k :: i <= k < j ==> s in run[k].st.snapshots
    ensures |run[i].st.levels| == |run[j].st.levels| == NUM_LEVELS && SameReads(run[i].st, run[j].st, s)
  {
    hide IsGuardedRun, IsBusyRun, SameReads;
    GuardedRunIsBusyRun(run, events);
    BusySnapshotReads(run, events, i, j, s);
  }
}
