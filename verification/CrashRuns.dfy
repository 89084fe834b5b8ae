/** Runs of the store with crashes in them: at every moment the disk stands for the state, and a write that
    asked for a sync is read back, through flushes, compactions and crashes, until its key is written again. */
module CrashRuns {
  import opened Wrappers
  import opened DbFormat
  import opened Versions
  import opened Compactions
  import opened States
  import opened Steps
  import opened StepInvariant
  import opened Safety
  import opened Runs
  import opened Recovery
  import opened Reopening
  import opened Durability
  import opened Crashes

  datatype Running = Running(st: State, disk: Disk)

  datatype Happening =
    | Go(step: Step, effect: Effect)
    | Crash(cut: Disk, recovered: Recovered)

  ghost predicate NextTo(a: Running, h: Happening, b: Running, names: Naming)
    requires |a.st.levels| == NUM_LEVELS && a.disk.logs != []
  {
    match h
    case Go(step, effect) => StepTo(a.st, step, b.st) && Writes(a.st, a.disk, step, effect, names, b.st, b.disk)
    case Crash(cut, r) => Survives(a.disk, cut) && Reopened(cut, names, r, b.st, b.disk)
  }

  ghost predicate IsCrashRun(run: seq<Running>, hs: seq<Happening>, names: Naming) {
    && |run| == |hs| + 1 && Durable(run[0].st, run[0].disk, names)
    && forall i {:trigger hs[i]} :: 0 <= i < |hs| ==>
      |run[i].st.levels| == NUM_LEVELS && run[i].disk.logs != [] && NextTo(run[i], hs[i], run[i + 1], names)
  }

  lemma NextDurable(a: Running, h: Happening, b: Running, names: Naming)
    requires Durable(a.st, a.disk, names) && |a.st.levels| == NUM_LEVELS && a.disk.logs != [] && NextTo(a, h, b, names)
    ensures Durable(b.st, b.disk, names)
  {
    hide Durable, StepTo, Writes, Survives, Reopened;
    match h
    case Go(step, effect) => StepDurable(a.st, a.disk, step, effect, names, b.st, b.disk);
    case Crash(cut, r) => ReopenDurable(a.st, a.disk, names, cut, r, b.st, b.disk);
  }

  /** MAIN: after any number of steps and crashes the invariant holds and the disk stands for the state. */
  lemma {:induction false} CrashRunDurable(run: seq<Running>, hs: seq<Happening>, names: Naming, i: nat)
    requires IsCrashRun(run, hs, names) && i < |run|
    ensures Durable(run[i].st, run[i].disk, names) && Inv(run[i].st)
  {
    hide Durable, NextTo, Inv;
    if i > 0 {
      CrashRunDurable(run, hs, names, i - 1);
      NextDurable(run[i - 1], hs[i - 1], run[i], names);
    }
    StartsDurable(run[i].st, run[i].disk, names);
  }

  /** What a read without a snapshot returns. */
  ghost function Latest(st: State, user: UserKey): GetResult
    requires |st.levels| == NUM_LEVELS
  {
    Read(All(st), user, st.lastSequence)
  }

  ghost function InMemory(st: State): set<Entry>
    requires |st.levels| == NUM_LEVELS
  {
    Source(st, 0) + Source(st, 1)
  }

  /** If what a read of the key finds is not in a table yet, its log is synced. */
  ghost predicate Settled(st: State, disk: Disk, user: UserKey)
    requires |st.levels| == NUM_LEVELS
  {
    forall e :: Visible(All(st), user, st.lastSequence, e) && e in InMemory(st) ==> e in SyncedEntries(disk)
  }

  predicate OfUser(op: Op, user: UserKey) { op.user == user }

  /** The operations write the key. */
  ghost predicate Touches(ops: seq<Op>, user: UserKey) {
    exists i :: 0 <= i < |ops| && OfUser(ops[i], user)
  }

  // One step.

  lemma EntryUser(op: Op, sn: SequenceNumber)
    ensures OpEntry(op, sn).key.user == op.user
  {
  }

  /** A write of other keys leaves what there is of this one. */
  lemma OtherBatch(st: State, ops: seq<Op>, st': State, user: UserKey)
    requires Inv(st) && WriteTo(st, ops, st') && !Touches(ops, user)
    ensures |st.levels| == |st'.levels| == NUM_LEVELS && Latest(st', user) == Latest(st, user)
    ensures forall e :: Visible(All(st'), user, st'.lastSequence, e) <==> Visible(All(st), user, st.lastSequence, e)
    ensures forall e: Entry :: e.key.user == user && e in InMemory(st') ==> e in InMemory(st)
  {
    var batch := BatchEntries(ops, st.lastSequence + 1);
    hide OpEntry;
    forall e | e in batch ensures e.key.user != user {
      var i :| 0 <= i < |ops| && e == OpEntry(ops[i], st.lastSequence + 1 + i);
      EntryUser(ops[i], st.lastSequence + 1 + i);
      assert !OfUser(ops[i], user);
    }
    WriteSources(st, ops, st');
    AllGrows(st, st', batch);
    AllBounded(st);
    hide Inv, WriteTo, All, BatchEntries;
    forall e ensures Visible(All(st'), user, st'.lastSequence, e) <==> Visible(All(st), user, st.lastSequence, e) {
    }
    SameVisibleRead(All(st), user, st.lastSequence, All(st'), st'.lastSequence);
  }

  lemma AllGrows(st: State, st': State, batch: set<Entry>)
    requires |st.levels| == |st'.levels| == NUM_LEVELS && Source(st', 0) == Source(st, 0) + batch
    requires forall i :: 0 < i < NUM_SOURCES ==> Source(st', i) == Source(st, i)
    ensures All(st') == All(st) + batch
  {
    hide Source;
    assert forall i :: 0 <= i < NUM_SOURCES ==> Source(st', i) == if i == 0 then Source(st, 0) + batch else Source(st, i);
  }

  lemma AllBounded(st: State)
    requires Inv(st)
    ensures Unique(All(st)) && forall e :: e in All(st) ==> e.key.sn <= st.lastSequence
  {
    AllUnique(st);
  }

  lemma SameVisibleRead(a: set<Entry>, user: UserKey, s: nat, b: set<Entry>, t: nat)
    requires Unique(a) && forall e :: Visible(b, user, t, e) <==> Visible(a, user, s, e)
    ensures Read(b, user, t) == Read(a, user, s)
  {
    forall e, e' | Visible(a, user, s, e) && Visible(a, user, s, e') ensures e == e' {
      assert e.key.sn <= e'.key.sn <= e.key.sn;
    }
  }

  /** The newest entry of a key in the memtables is the newest of all. */
  lemma NewestInMemory(st: State, e: Entry, all: set<Entry>, s: nat)
    requires Inv(st) && e in InMemory(st) && InMemory(st) <= all && Visible(all, e.key.user, s, e) && s >= st.lastSequence
    ensures Visible(All(st), e.key.user, st.lastSequence, e)
  {
    AllBounded(st);
    assert e in Source(st, 0) || e in Source(st, 1);
    assert e in All(st);
    forall x | x in All(st) && x.key.user == e.key.user ensures x.key.sn <= e.key.sn {
      var i :| 0 <= i < NUM_SOURCES && x in Source(st, i);
      if i >= 2 {
        assert Newer(Source(st, 0), Source(st, i)) && Newer(Source(st, 1), Source(st, i));
      }
    }
  }

  lemma MemoryStored(st: State)
    requires |st.levels| == NUM_LEVELS
    ensures InMemory(st) <= All(st)
  {
  }

  /** What a step finds of a key in the memtables it finds there before, unless it writes the key. */
  lemma StillNewest(st: State, step: Step, st': State, user: UserKey, e: Entry)
    requires Inv(st) && StepTo(st, step, st') && |st'.levels| == NUM_LEVELS && (step.Write? ==> !Touches(step.ops, user))
    requires Visible(All(st'), user, st'.lastSequence, e) && e in InMemory(st')
    ensures Visible(All(st), user, st.lastSequence, e) && e in InMemory(st)
  {
    match step
    case Write(ops) => OtherBatch(st, ops, st', user);
    case SwitchMemTable =>
      SwitchKeepsEntries(st, st');
      SwitchSources(st, st');
    case FlushNothing =>
      SameSources(st, st');
      SameSourcesSameEntries(st, st');
    case Flush(level, f) => FlushKeepsEntries(st, level, f, st');
    case TrivialMove(level, f) =>
      MemoryStored(st');
      NewestInMemory(st, e, All(st'), st'.lastSequence);
    case Compact(level, in0, in1, input, outputs) =>
      MemoryStored(st');
      NewestInMemory(st, e, All(st'), st'.lastSequence);
    case TakeSnapshot =>
      SameSources(st, st');
      SameSourcesSameEntries(st, st');
    case ReleaseSnapshot(_) =>
      SameSources(st, st');
      SameSourcesSameEntries(st, st');
  }

  // What is synced.

  lemma SyncedLast(logs: seq<LogFile>, least: nat)
    requires logs != [] && least <= logs[|logs| - 1].number
    ensures SyncedLogs(logs, least) == SyncedLogs(logs[..|logs| - 1], least) + EntriesAt(Applied(SyncedPart(logs[|logs| - 1]).groups))
  {
    hide EntriesAt, Applied;
    LastLive(logs, least);
    var front, last := Live(logs[..|logs| - 1], least), logs[|logs| - 1];
    assert SyncedParts(front + [last]) == SyncedParts(front) + [SyncedPart(last)];
    AppliedLast(SyncedParts(front), SyncedPart(last));
    EntriesAppend(AppliedLogs(SyncedParts(front)), Applied(SyncedPart(last).groups));
  }

  /** Logging one more group, synced or not, keeps what was synced. */
  lemma SyncedGrows(last: LogFile, last': LogFile, g: Group)
    requires last'.groups == last.groups + [g] && last.synced <= last'.synced <= |last'.groups|
    requires last.synced <= |last.groups|
    ensures EntriesAt(Applied(SyncedPart(last).groups)) <= EntriesAt(Applied(SyncedPart(last').groups))
  {
    hide EntriesAt, Applied;
    var a, b := SyncedPart(last).groups, SyncedPart(last').groups;
    assert a == b[..last.synced];
    AppliedPrefix(b, last.synced);
    PrefixEntries(Applied(b), Applied(a));
  }

  lemma LogsParts(st: State, logs: seq<LogFile>, least: nat)
    requires LogsOk(st, logs, least)
    ensures logs != [] && least <= logs[|logs| - 1].number && logs[|logs| - 1].synced <= |logs[|logs| - 1].groups|
    ensures Entries(st.mem) == EntriesAt(Applied(logs[|logs| - 1].groups))
  {
    hide EntriesAt, Applied, AppliedLogs, Increasing, UpTo, GroupsFit, Live;
  }

  lemma DurableLogs(st: State, disk: Disk, names: Naming)
    requires Durable(st, disk, names)
    ensures |st.levels| == NUM_LEVELS && Inv(st) && disk.logs != [] && LogNumber(disk.edits) <= disk.logs[|disk.logs| - 1].number
    ensures disk.logs[|disk.logs| - 1].synced <= |disk.logs[|disk.logs| - 1].groups|
    ensures Entries(st.mem) == EntriesAt(Applied(disk.logs[|disk.logs| - 1].groups))
  {
    hide Inv, ManifestKeeps, LogsOk, LogNumber, EntriesAt, Applied;
    InvShape(st);
    LogsParts(st, disk.logs, LogNumber(disk.edits));
  }

  lemma SyncedWithGroup(logs: seq<LogFile>, least: nat, last': LogFile, g: Group)
    requires logs != [] && least <= logs[|logs| - 1].number == last'.number && logs[|logs| - 1].synced <= |logs[|logs| - 1].groups|
    requires last'.groups == logs[|logs| - 1].groups + [g] && logs[|logs| - 1].synced <= last'.synced <= |last'.groups|
    ensures SyncedLogs(logs, least) <= SyncedLogs(logs[..|logs| - 1] + [last'], least)
    ensures last'.synced == |last'.groups| ==> EntriesAt(Applied(last'.groups)) <= SyncedLogs(logs[..|logs| - 1] + [last'], least)
  {
    hide EntriesAt, Applied, SyncedLogs;
    var logs' := logs[..|logs| - 1] + [last'];
    assert logs'[..|logs'| - 1] == logs[..|logs| - 1];
    SyncedLast(logs, least);
    SyncedLast(logs', least);
    SyncedGrows(logs[|logs| - 1], last', g);
    assert last'.groups[..|last'.groups|] == last'.groups;
  }

  lemma SyncedOnWrite(st: State, disk: Disk, ops: seq<Op>, effect: Effect, names: Naming, st': State, disk': Disk)
    requires Durable(st, disk, names) && disk.logs != [] && Writes(st, disk, Write(ops), effect, names, st', disk')
    ensures SyncedEntries(disk) <= SyncedEntries(disk')
    ensures effect.Appended? && disk'.logs != []
    ensures effect.sync ==> EntriesAt(Applied(disk'.logs[|disk'.logs| - 1].groups)) <= SyncedEntries(disk')
  {
    hide Durable, EntriesAt, Applied, LogNumber, OpsOf, EditFor, EditSets, SyncedLogs;
    DurableLogs(st, disk, names);
    var last := disk.logs[|disk.logs| - 1];
    var last' := last.(groups := last.groups + [effect.group], synced := if effect.sync then |last.groups| + 1 else last.synced);
    SyncedWithGroup(disk.logs, LogNumber(disk.edits), last', effect.group);
  }

  lemma SyncedOnSwitch(st: State, disk: Disk, effect: Effect, names: Naming, st': State, disk': Disk)
    requires Durable(st, disk, names) && disk.logs != [] && Writes(st, disk, SwitchMemTable, effect, names, st', disk')
    ensures SyncedEntries(disk) <= SyncedEntries(disk')
  {
    hide Durable, EntriesAt, Applied, LogNumber, EditFor, EditSets, SyncedLogs;
    NextLogNumber(st, disk, names);
    var logs' := disk'.logs;
    assert logs'[..|logs'| - 1] == disk.logs;
    SyncedLast(logs', LogNumber(disk.edits));
  }

  lemma NextLogNumber(st: State, disk: Disk, names: Naming)
    requires Durable(st, disk, names)
    ensures LogNumber(disk.edits) <= st.nextFile
  {
    DurableLogs(st, disk, names);
    NumbersRise(disk.logs, st.nextFile);
  }

  /** What is synced of the memtable stays when the log of the other one is given up. */
  lemma SyncedOnFlush(st: State, disk: Disk, names: Naming, disk': Disk, e: Entry)
    requires Durable(st, disk, names) && |st.levels| == NUM_LEVELS && disk.logs != [] && disk'.logs == disk.logs
    requires LogNumber(disk'.edits) == disk.logs[|disk.logs| - 1].number
    requires e in SyncedEntries(disk) && e in Source(st, 0)
    ensures e in SyncedEntries(disk')
  {
    hide Durable, EntriesAt, Applied, LogNumber, SyncedLogs, Source, Inv;
    DurableLogs(st, disk, names);
    OtherLive(st, disk, names);
    var logs, least := disk.logs, LogNumber(disk.edits);
    SyncedLast(logs, least);
    SyncedLast(logs, logs[|logs| - 1].number);
    NotInOther(st, e);
  }

  /** The other live log, if there is one, is that of the immutable memtable. */
  lemma OtherLog(st: State, front: seq<LogFile>, last: LogFile)
    requires |st.levels| == NUM_LEVELS && LiveOk(st, front + [last], last)
    ensures EntriesAt(AppliedLogs(SyncedParts(front))) <= Source(st, 1)
  {
    hide EntriesAt, Applied, Increasing, UpTo, GroupsFit;
    if front == [] {
      NothingLogged();
    } else {
      assert front == [front[0]] && (front + [last])[0] == front[0];
      PartsApplied(SyncedParts(front), front);
      AppliedOneLog(front[0]);
    }
  }

  lemma OtherLive(st: State, disk: Disk, names: Naming)
    requires Durable(st, disk, names) && |st.levels| == NUM_LEVELS && disk.logs != []
    ensures SyncedLogs(disk.logs[..|disk.logs| - 1], LogNumber(disk.edits)) <= Source(st, 1)
  {
    hide Inv, ManifestKeeps, EntriesAt, LogNumber, LiveOk, NumberedLogs, Source;
    LastLive(disk.logs, LogNumber(disk.edits));
    OtherLog(st, Live(disk.logs[..|disk.logs| - 1], LogNumber(disk.edits)), disk.logs[|disk.logs| - 1]);
  }

  lemma NotInOther(st: State, e: Entry)
    requires Inv(st) && |st.levels| == NUM_LEVELS && e in Source(st, 0)
    ensures e !in Source(st, 1)
  {
    assert Newer(Source(st, 0), Source(st, 1));
  }

  lemma SyncedOnEdit(st: State, disk: Disk, step: Step, effect: Effect, names: Naming, st': State, disk': Disk, e: Entry)
    requires Durable(st, disk, names) && disk.logs != [] && |st.levels| == NUM_LEVELS
    requires StepTo(st, step, st') && Writes(st, disk, step, effect, names, st', disk') && effect.Edited?
    requires e in SyncedEntries(disk) && ((step.Flush? || step.FlushNothing?) ==> e in Source(st, 0))
    ensures e in SyncedEntries(disk')
  {
    hide Durable, StepTo, EditFor, EditSets, SyncedLogs, LogNumber, Source;
    EditStepDurable(st, disk, step, effect, names, st', disk');
    if step.Flush? || step.FlushNothing? {
      SyncedOnFlush(st, disk, names, disk', e);
    }
  }

  lemma MemoryAfterFlush(st: State, step: Step, st': State)
    requires |st.levels| == NUM_LEVELS && StepTo(st, step, st') && (step.Flush? || step.FlushNothing?)
    ensures |st'.levels| == NUM_LEVELS && InMemory(st') == Source(st, 0)
  {
  }

  lemma SyncedOnStep(st: State, disk: Disk, step: Step, effect: Effect, names: Naming, st': State, disk': Disk, e: Entry)
    requires Durable(st, disk, names) && disk.logs != [] && |st.levels| == |st'.levels| == NUM_LEVELS
    requires StepTo(st, step, st') && Writes(st, disk, step, effect, names, st', disk')
    requires e in SyncedEntries(disk) && e in InMemory(st')
    ensures e in SyncedEntries(disk')
  {
    hide Durable, StepTo, EditFor, EditSets, SyncedEntries, LogNumber, Source, InMemory, OpsOf;
    if step.Write? {
      SyncedOnWrite(st, disk, step.ops, effect, names, st', disk');
    } else if step.SwitchMemTable? {
      SyncedOnSwitch(st, disk, effect, names, st', disk');
    } else if effect.Edited? {
      if step.Flush? || step.FlushNothing? { MemoryAfterFlush(st, step, st'); }
      SyncedOnEdit(st, disk, step, effect, names, st', disk', e);
    }
  }

  lemma LatestStep(st: State, step: Step, st': State, user: UserKey)
    requires Inv(st) && StepTo(st, step, st') && SafeStep(st, step) && (step.Write? ==> !Touches(step.ops, user))
    ensures |st.levels| == |st'.levels| == NUM_LEVELS && Latest(st', user) == Latest(st, user)
  {
    StepKeepsInv(st, step, st');
    InvShape(st);
    InvShape(st');
    if step.Write? {
      OtherBatch(st, step.ops, st', user);
    } else {
      StepKeepsReads(st, step, st');
      SameSequence(st, step, st');
    }
  }

  lemma SameSequence(st: State, step: Step, st': State)
    requires |st.levels| == NUM_LEVELS && StepTo(st, step, st') && !step.Write?
    ensures st'.lastSequence == st.lastSequence
  {
  }

  /** A step that does not write the key, and lets nothing resurface, keeps what a read of it finds, and
      that it will survive. */
  lemma StepSettled(st: State, disk: Disk, step: Step, effect: Effect, names: Naming, st': State, disk': Disk, user: UserKey)
    requires Durable(st, disk, names) && disk.logs != [] && |st.levels| == NUM_LEVELS
    requires StepTo(st, step, st') && Writes(st, disk, step, effect, names, st', disk')
    requires SafeStep(st, step) && (step.Write? ==> !Touches(step.ops, user)) && Settled(st, disk, user)
    ensures |st'.levels| == NUM_LEVELS && Settled(st', disk', user) && Latest(st', user) == Latest(st, user)
  {
    StartsDurable(st, disk, names);
    hide Durable, StepTo, Writes, SafeStep, Touches, SyncedEntries, Inv, All, InMemory, Visible, Latest;
    LatestStep(st, step, st', user);
    forall e | Visible(All(st'), user, st'.lastSequence, e) && e in InMemory(st') ensures e in SyncedEntries(disk') {
      StillNewest(st, step, st', user, e);
      SyncedOnStep(st, disk, step, effect, names, st', disk', e);
    }
  }

  // A crash.

  lemma SettledIsSafe(st: State, disk: Disk, user: UserKey)
    requires |st.levels| == NUM_LEVELS && Settled(st, disk, user)
    ensures SafeRead(st, SyncedEntries(disk), user, st.lastSequence)
  {
    hide SyncedEntries;
    forall e | Visible(All(st), user, st.lastSequence, e) ensures Safe(st, SyncedEntries(disk), e) {
      var i :| 0 <= i < NUM_SOURCES && e in Source(st, i);
    }
  }

  /** After a crash everything is in tables. */
  lemma BackInTables(disk1: Disk, names: Naming, r: Recovered, st': State, disk': Disk, user: UserKey)
    requires Reopened(disk1, names, r, st', disk') && |st'.levels| == NUM_LEVELS
    ensures Settled(st', disk', user)
  {
    assert InMemory(st') == {};
  }

  lemma CrashSettled(st: State, disk: Disk, names: Naming, disk1: Disk, r: Recovered, st': State, disk': Disk, user: UserKey)
    requires Durable(st, disk, names) && |st.levels| == NUM_LEVELS && Survives(disk, disk1) && Reopened(disk1, names, r, st', disk')
    requires Settled(st, disk, user)
    ensures |st'.levels| == NUM_LEVELS && Settled(st', disk', user) && Latest(st', user) == Latest(st, user)
  {
    hide Durable, Survives, CameBack, Rewritten, Settled, SafeRead, SyncedEntries, Inv, All, Reopenable, Reopens, FirstNumber, Joined, AppliedLogs, LiveLogs, Visible;
    SettledIsSafe(st, disk, user);
    CrashReads(st, disk, names, disk1, r, st', user, st.lastSequence);
    BackInTables(disk1, names, r, st', disk', user);
    ReopenDurable(st, disk, names, disk1, r, st', disk');
    StartsDurable(st', disk', names);
    AllBounded(st');
    ComesBack(st, disk, names, disk1, r, st');
    ReadFromLast(All(st'), user, st'.lastSequence, st.lastSequence);
  }

  lemma ReadFromLast(all: set<Entry>, user: UserKey, last: nat, s: nat)
    requires Unique(all) && last <= s && forall e :: e in all ==> e.key.sn <= last
    ensures Read(all, user, last) == Read(all, user, s)
  {
    forall e ensures Visible(all, user, s, e) <==> Visible(all, user, last, e) {
    }
    SameVisibleRead(all, user, s, all, last);
  }

  // A write that asks for a sync.

  /** What the last operation on a key says. */
  function LastOp(ops: seq<Op>, user: UserKey): Option<GetResult> {
    if ops == [] then None
    else
      var op := ops[|ops| - 1];
      if OfUser(op, user) then Some(match op case PutOp(_, value) => Found(value) case DeleteOp(_) => NotFound)
      else LastOp(ops[..|ops| - 1], user)
  }

  /** The entry of that operation. */
  lemma {:induction false} LastOpEntry(ops: seq<Op>, first: nat, user: UserKey) returns (i: nat)
    requires Touches(ops, user) && first + |ops| <= MAX_SEQUENCE_NUMBER
    ensures i < |ops| && OfUser(ops[i], user) && forall j :: i < j < |ops| ==> !OfUser(ops[j], user)
    ensures LastOp(ops, user) == Some(ResultOf(OpEntry(ops[i], first + i)))
  {
    i := |ops| - 1;
    if !OfUser(ops[i], user) {
      var front := ops[..|ops| - 1];
      var j :| 0 <= j < |ops| && OfUser(ops[j], user);
      assert OfUser(front[j], user);
      i := LastOpEntry(front, first, user);
    }
  }

  /** Of the entries of a batch for one key, that of the last operation has the greatest number. */
  lemma BatchNewest(ops: seq<Op>, first: nat, user: UserKey, i: nat)
    requires first + |ops| <= MAX_SEQUENCE_NUMBER && i < |ops| && OfUser(ops[i], user)
    requires forall j :: i < j < |ops| ==> !OfUser(ops[j], user)
    ensures var e := OpEntry(ops[i], first + i); e in BatchEntries(ops, first) && e.key.user == user && e.key.sn >= first
    ensures forall x :: x in BatchEntries(ops, first) && x.key.user == user ==> x.key.sn <= first + i
    ensures OpEntry(ops[i], first + i).key.sn == first + i
  {
    hide OpEntry;
    EntryUser(ops[i], first + i);
    EntryNumber(ops[i], first + i);
    forall x | x in BatchEntries(ops, first) && x.key.user == user ensures x.key.sn <= first + i {
      var j :| 0 <= j < |ops| && x == OpEntry(ops[j], first + j);
      EntryUser(ops[j], first + j);
      EntryNumber(ops[j], first + j);
      assert OfUser(ops[j], user);
    }
  }

  lemma NewestOfAll(all: set<Entry>, batch: set<Entry>, e: Entry, last: nat, last': nat)
    requires (forall x :: x in all ==> x.key.sn <= last) && last <= last' && e in batch && last < e.key.sn <= last'
    requires forall x :: x in batch && x.key.user == e.key.user ==> x.key.sn <= e.key.sn
    ensures Visible(all + batch, e.key.user, last', e)
  {
  }

  lemma WrittenIsVisible(st: State, ops: seq<Op>, st': State, user: UserKey) returns (e: Entry)
    requires Inv(st) && WriteTo(st, ops, st') && Touches(ops, user)
    ensures |st'.levels| == NUM_LEVELS && e in Source(st', 0) && Visible(All(st'), user, st'.lastSequence, e)
    ensures LastOp(ops, user) == Some(ResultOf(e))
  {
    var first, batch := st.lastSequence + 1, BatchEntries(ops, st.lastSequence + 1);
    WriteChanges(st, ops, st');
    InvShape(st);
    WriteSources(st, ops, st');
    hide OpEntry, All, Inv, WriteTo, BatchEntries, Touches, LastOp, Visible, Source;
    var i := LastOpEntry(ops, first, user);
    e := OpEntry(ops[i], first + i);
    BatchNewest(ops, first, user, i);
    AllGrows(st, st', batch);
    AllBounded(st);
    NewestOfAll(All(st), batch, e, st.lastSequence, st'.lastSequence);
  }

  /** It is read back at once, and will survive. */
  lemma SyncedWriteSettles(st: State, disk: Disk, ops: seq<Op>, effect: Effect, names: Naming, st': State, disk': Disk, user: UserKey)
    requires Durable(st, disk, names) && disk.logs != [] && |st.levels| == NUM_LEVELS
    requires WriteTo(st, ops, st') && Writes(st, disk, Write(ops), effect, names, st', disk') && effect.Appended? && effect.sync
    requires Touches(ops, user)
    ensures |st'.levels| == NUM_LEVELS && Settled(st', disk', user) && Some(Latest(st', user)) == LastOp(ops, user)
  {
    hide Durable, WriteTo, Writes, Touches, SyncedEntries, Inv, All, Visible, EntriesAt, Applied, Source;
    StartsDurable(st, disk, names);
    StepKeepsInv(st, Write(ops), st');
    var e := WrittenIsVisible(st, ops, st', user);
    AllBounded(st');
    ReadVisible(All(st'), user, st'.lastSequence, e);
    SyncedOnWrite(st, disk, ops, effect, names, st', disk');
    WriteDurable(st, disk, ops, effect, names, st', disk');
    DurableLogs(st', disk', names);
    FirstSource(st');
    forall x | Visible(All(st'), user, st'.lastSequence, x) ensures x == e {
      OneVisible(All(st'), user, st'.lastSequence, e, x);
    }
  }

  lemma FirstSource(st: State)
    requires |st.levels| == NUM_LEVELS
    ensures Source(st, 0) == Entries(st.mem)
  {
  }

  lemma OneVisible(all: set<Entry>, user: UserKey, s: nat, e: Entry, x: Entry)
    requires Unique(all) && Visible(all, user, s, e) && Visible(all, user, s, x)
    ensures x == e
  {
    assert x.key.sn <= e.key.sn <= x.key.sn;
  }

  // Whole runs.

  /** Nothing that happens writes the key, and no compaction lets a deleted value resurface. */
  ghost predicate LeavesAlone(a: Running, h: Happening, user: UserKey)
    requires |a.st.levels| == NUM_LEVELS
  {
    h.Go? ==> SafeStep(a.st, h.step) && (h.step.Write? ==> !Touches(h.step.ops, user))
  }

  lemma NextSettled(a: Running, h: Happening, b: Running, names: Naming, user: UserKey)
    requires Durable(a.st, a.disk, names) && |a.st.levels| == NUM_LEVELS && a.disk.logs != [] && NextTo(a, h, b, names)
    requires LeavesAlone(a, h, user) && Settled(a.st, a.disk, user)
    ensures |b.st.levels| == NUM_LEVELS && Settled(b.st, b.disk, user) && Latest(b.st, user) == Latest(a.st, user)
  {
    hide Durable, StepTo, Writes, Survives, Reopened, SafeStep, Touches, Settled, Latest;
    match h
    case Go(step, effect) => StepSettled(a.st, a.disk, step, effect, names, b.st, b.disk, user);
    case Crash(cut, r) => CrashSettled(a.st, a.disk, names, cut, r, b.st, b.disk, user);
  }

  lemma RunAt(run: seq<Running>, hs: seq<Happening>, names: Naming, i: nat)
    requires IsCrashRun(run, hs, names) && i < |hs|
    ensures |run| == |hs| + 1 && |run[i].st.levels| == NUM_LEVELS && run[i].disk.logs != [] && NextTo(run[i], hs[i], run[i + 1], names)
    ensures Durable(run[i].st, run[i].disk, names)
  {
    hide Durable, NextTo;
    CrashRunDurable(run, hs, names, i);
    var h := hs[i];
    StartsDurable(run[i].st, run[i].disk, names);
  }

  lemma RunLength(run: seq<Running>, hs: seq<Happening>, names: Naming)
    requires IsCrashRun(run, hs, names)
    ensures |run| == |hs| + 1
  {
  }

  lemma WriteParts(a: Running, h: Happening, b: Running, names: Naming)
    requires |a.st.levels| == NUM_LEVELS && a.disk.logs != [] && NextTo(a, h, b, names) && h.Go? && h.step.Write?
    ensures WriteTo(a.st, h.step.ops, b.st) && Writes(a.st, a.disk, Write(h.step.ops), h.effect, names, b.st, b.disk)
  {
    hide WriteTo, Writes;
  }

  lemma {:induction false} SettledStays(run: seq<Running>, hs: seq<Happening>, names: Naming, i: nat, j: nat, user: UserKey)
    requires IsCrashRun(run, hs, names) && i <= j < |run| && |run[i].st.levels| == NUM_LEVELS && Settled(run[i].st, run[i].disk, user)
    requires forall k :: i <= k < j ==> |run[k].st.levels| == NUM_LEVELS && LeavesAlone(run[k], hs[k], user)
    ensures |run[j].st.levels| == NUM_LEVELS && Settled(run[j].st, run[j].disk, user) && Latest(run[j].st, user) == Latest(run[i].st, user)
    decreases j
  {
    hide IsCrashRun, Durable, NextTo, LeavesAlone, Settled, Latest;
    RunLength(run, hs, names);
    if i < j {
      RunAt(run, hs, names, j - 1);
      SettledStays(run, hs, names, i, j - 1, user);
      NextSettled(run[j - 1], hs[j - 1], run[j], names, user);
    }
  }

  /** MAIN: what a write that asked for a sync put under a key, or deleted, is what every later read without
      a snapshot finds, after any steps and any crashes, until the key is written again; provided no
      compaction among the steps lets a deleted value resurface. */
  lemma SyncedWriteStays(run: seq<Running>, hs: seq<Happening>, names: Naming, i: nat, j: nat, user: UserKey)
    requires IsCrashRun(run, hs, names) && i < j < |run|
    requires hs[i].Go? && hs[i].step.Write? && hs[i].effect.Appended? && hs[i].effect.sync && Touches(hs[i].step.ops, user)
    requires forall k :: i < k < j ==> |run[k].st.levels| == NUM_LEVELS && LeavesAlone(run[k], hs[k], user)
    ensures |run[j].st.levels| == NUM_LEVELS && Some(Latest(run[j].st, user)) == LastOp(hs[i].step.ops, user)
  {
    hide IsCrashRun, Durable, LeavesAlone, Settled, Latest, LastOp, Touches, WriteTo, Writes, NextTo;
    RunLength(run, hs, names);
    RunAt(run, hs, names, i);
    WriteParts(run[i], hs[i], run[i + 1], names);
    SyncedWriteSettles(run[i].st, run[i].disk, hs[i].step.ops, hs[i].effect, names, run[i + 1].st, run[i + 1].disk, user);
    SettledStays(run, hs, names, i + 1, j, user);
  }
}
