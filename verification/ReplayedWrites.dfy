/** What a logged operation is once the store has come back (MemTableInserter in db/write_batch.cc under
    DBImpl::RecoverLogFile): an entry of a level-0 table, under its key and number, with its value or as a
    deletion, and nothing else is in the new tables. */
module ReplayedWrites {
  import opened Wrappers
  import opened Coding
  import opened DbFormat
  import opened Versions
  import opened VersionBuilder
  import opened Batches
  import opened ByteKeys
  import opened States
  import opened Steps
  import opened StepInvariant
  import opened Recovery
  import opened Reopening
  import opened Durability
  import opened Crashes

  /** The operation is in a log, under its number. */
  ghost predicate LoggedAt(log: LogFile, n: nat, op: Operation) {
    exists g, i :: g in log.groups && 0 <= i < |g.ops| && n == g.first + i && op == g.ops[i]
  }

  ghost predicate InLogs(logs: seq<LogFile>, n: nat, op: Operation) {
    exists log :: log in logs && LoggedAt(log, n, op)
  }

  /** A stored value has the bytes that were written. */
  ghost predicate SameBytes(value: Value, bytes: Bytes) {
    |value| == |bytes| && forall i :: 0 <= i < |bytes| ==> value[i] as int == bytes[i]
  }

  /** The entry that an operation under a number leaves. */
  ghost predicate Stands(e: Entry, n: nat, op: Operation) {
    && e.key.user == Rank(op.key) && e.key.sn == n
    && match op
       case Put(_, value) => e.key.typ == TypeValue && SameBytes(e.value, value)
       case Delete(_) => e.key.typ == TypeDeletion
  }

  /** What a read finds when the operation is the newest of its key. */
  ghost predicate Answered(r: GetResult, op: Operation) {
    match op
    case Put(_, value) => r.Found? && SameBytes(r.value, value)
    case Delete(_) => r == NotFound
  }

  lemma OpStands(op: Operation, n: SequenceNumber)
    ensures Stands(OpEntry(OpOf(op), n), n, op)
  {
    hide Rank;
  }

  lemma AnswerOf(e: Entry, n: nat, op: Operation)
    requires Stands(e, n, op)
    ensures Answered(ResultOf(e), op)
  {
    hide Rank;
  }

  // The numbered operations, one by one.

  lemma NumberedHas(g: Group, n: nat, op: Operation)
    ensures (n, op) in Numbered(g.ops, g.first) <==> exists i :: 0 <= i < |g.ops| && n == g.first + i && op == g.ops[i]
  {
    var ps := Numbered(g.ops, g.first);
    if (n, op) in ps {
      var i :| 0 <= i < |ps| && ps[i] == (n, op);
      assert op == g.ops[i];
    }
    if i :| 0 <= i < |g.ops| && n == g.first + i && op == g.ops[i] {
      assert ps[i] == (n, op);
    }
  }

  lemma {:induction false} AppliedHas(groups: seq<Group>, n: nat, op: Operation)
    ensures (n, op) in Applied(groups) <==> exists g, i :: g in groups && 0 <= i < |g.ops| && n == g.first + i && op == g.ops[i]
  {
    hide Numbered;
    if groups != [] {
      var front, last := groups[..|groups| - 1], groups[|groups| - 1];
      AppliedHas(front, n, op);
      NumberedHas(last, n, op);
      assert forall g :: g in groups <==> g in front || g == last;
    }
  }

  lemma {:induction false} AppliedLogsHave(logs: seq<LogFile>, n: nat, op: Operation)
    ensures (n, op) in AppliedLogs(logs) <==> InLogs(logs, n, op)
  {
    hide Applied, LoggedAt;
    if logs != [] {
      var front, last := logs[..|logs| - 1], logs[|logs| - 1];
      AppliedLogsHave(front, n, op);
      AppliedHas(last.groups, n, op);
      LoggedIs(last, n, op);
      assert forall log :: log in logs <==> log in front || log == last;
    }
  }

  lemma LoggedIs(log: LogFile, n: nat, op: Operation)
    ensures LoggedAt(log, n, op) <==> exists g, i :: g in log.groups && 0 <= i < |g.ops| && n == g.first + i && op == g.ops[i]
  {
  }

  /** The entries of numbered operations are those that stand for one. */
  lemma EntriesStand(ps: seq<(nat, Operation)>)
    ensures forall n: nat, op :: (n, op) in ps && n <= MAX_SEQUENCE_NUMBER ==> exists e :: e in EntriesAt(ps) && Stands(e, n, op)
    ensures forall e :: e in EntriesAt(ps) ==> exists n: nat, op :: (n, op) in ps && Stands(e, n, op)
  {
    hide OpOf, OpEntry, Stands;
    forall n: nat, op | (n, op) in ps && n <= MAX_SEQUENCE_NUMBER ensures exists e :: e in EntriesAt(ps) && Stands(e, n, op) {
      var i :| 0 <= i < |ps| && ps[i] == (n, op);
      OpStands(op, n);
      assert OpEntry(OpOf(ps[i].1), ps[i].0) in EntriesAt(ps);
    }
    forall e | e in EntriesAt(ps) ensures exists n: nat, op :: (n, op) in ps && Stands(e, n, op) {
      var i :| 0 <= i < |ps| && ps[i].0 <= MAX_SEQUENCE_NUMBER && e == OpEntry(OpOf(ps[i].1), ps[i].0);
      OpStands(ps[i].1, ps[i].0);
      assert (ps[i].0, ps[i].1) in ps;
    }
  }

  // The store after a crash.

  /** Of the logged operations of its key up to `s`, the last. */
  ghost predicate LastLogged(logs: seq<LogFile>, s: nat, n: nat, op: Operation) {
    InLogs(logs, n, op) && n <= s && forall m: nat, other :: InLogs(logs, m, other) && other.key == op.key && m <= s ==> m <= n
  }

  lemma LogEntries(logs: seq<LogFile>)
    requires forall i :: 0 <= i < |AppliedLogs(logs)| ==> AppliedLogs(logs)[i].0 <= MAX_SEQUENCE_NUMBER
    ensures var found := EntriesAt(AppliedLogs(logs));
      && (forall n: nat, op :: InLogs(logs, n, op) ==> exists e :: e in found && Stands(e, n, op))
      && (forall e :: e in found ==> exists n: nat, op :: InLogs(logs, n, op) && Stands(e, n, op))
  {
    hide EntriesAt, AppliedLogs, InLogs, Stands;
    var ps := AppliedLogs(logs);
    EntriesStand(ps);
    forall n: nat, op | InLogs(logs, n, op) ensures exists e :: e in EntriesAt(ps) && Stands(e, n, op) {
      AppliedLogsHave(logs, n, op);
      var i :| 0 <= i < |ps| && ps[i] == (n, op);
    }
    forall e | e in EntriesAt(ps) ensures exists n: nat, op :: InLogs(logs, n, op) && Stands(e, n, op) {
      var n: nat, op :| (n, op) in ps && Stands(e, n, op);
      AppliedLogsHave(logs, n, op);
    }
  }

  lemma FoundEntries(st: State, disk: Disk, names: Naming, cut: Disk)
    requires Durable(st, disk, names) && Survives(disk, cut)
    ensures var logs, found := LiveLogs(cut), EntriesAt(AppliedLogs(LiveLogs(cut)));
      && (forall n: nat, op :: InLogs(logs, n, op) ==> exists e :: e in found && Stands(e, n, op))
      && (forall e :: e in found ==> exists n: nat, op :: InLogs(logs, n, op) && Stands(e, n, op))
  {
    hide Durable, Survives, LiveLogs, EntriesAt, AppliedLogs, InLogs, Stands;
    FoundFit(st, disk, names, cut);
    LogEntries(LiveLogs(cut));
  }

  /** Level 0 then holds what it held, and an entry for each operation that is whole in a live log. */
  lemma LoggedIsStored(st: State, disk: Disk, names: Naming, cut: Disk, r: Recovered, st': State)
    requires Durable(st, disk, names) && Survives(disk, cut) && CameBack(cut, names, r, st')
    ensures |st.levels| == |st'.levels| == NUM_LEVELS && LevelEntries(st.levels[0]) <= LevelEntries(st'.levels[0])
    ensures forall n: nat, op :: InLogs(LiveLogs(cut), n, op) ==> exists e :: e in LevelEntries(st'.levels[0]) && Stands(e, n, op)
    ensures forall e :: e in LevelEntries(st'.levels[0]) ==>
      e in LevelEntries(st.levels[0]) || exists n: nat, op :: InLogs(LiveLogs(cut), n, op) && Stands(e, n, op)
  {
    StartsDurable(st, disk, names);
    ComesBack(st, disk, names, cut, r, st');
    FoundEntries(st, disk, names, cut);
    ReopenedSources(st, r.chunks, r.files, FirstNumber(disk), st');
    hide Durable, Survives, CameBack, LiveLogs, EntriesAt, AppliedLogs, InLogs, Stands, Reopens, Joined, FirstNumber, Source, LevelEntries;
    Level0Source(st);
    Level0Source(st');
  }

  /** Their numbers are among those given out. */
  lemma LoggedNumbers(st: State, disk: Disk, names: Naming, cut: Disk, r: Recovered, st': State)
    requires Durable(st, disk, names) && Survives(disk, cut) && CameBack(cut, names, r, st')
    ensures forall n: nat, op :: InLogs(LiveLogs(cut), n, op) ==> n <= st'.lastSequence
  {
    LastInLogs(cut, names, r, st');
    FoundGroupsFit(st, disk, names, cut);
    hide Durable, Survives, CameBack, LiveLogs, AppliedLogs, InLogs, MaxInLogs;
    var logs := LiveLogs(cut);
    MaxIsLast(logs, 0, st.lastSequence);
    forall n: nat, op | InLogs(logs, n, op) ensures n <= st'.lastSequence {
      AppliedLogsHave(logs, n, op);
      var i :| 0 <= i < |AppliedLogs(logs)| && AppliedLogs(logs)[i] == (n, op);
    }
  }

  lemma LastInLogs(cut: Disk, names: Naming, r: Recovered, st': State)
    requires CameBack(cut, names, r, st')
    ensures MaxInLogs(LiveLogs(cut), 0) <= st'.lastSequence
  {
    hide MaxInLogs, Live, Tabled, Joined, AppliedLogs;
  }

  lemma OtherKeys(a: Bytes, b: Bytes)
    ensures Rank(a) == Rank(b) <==> a == b
  {
    RankEmbeds(a, b);
  }

  /** Entries found in logs are newer than the levels. */
  lemma FoundIsNewer(st: State, found: set<Entry>, e: Entry, x: Entry)
    requires Inv(st) && found <= Source(st, 0) + Source(st, 1) && e in found && e.key.user == x.key.user
    requires exists i :: 2 <= i < NUM_SOURCES && x in Source(st, i)
    ensures x.key.sn < e.key.sn
  {
    var i :| 2 <= i < NUM_SOURCES && x in Source(st, i);
    assert Newer(Source(st, 0), Source(st, i)) && Newer(Source(st, 1), Source(st, i));
  }

  /** So a read finds the last operation of its key that was found in a log. */
  lemma LoggedIsRead(st: State, disk: Disk, names: Naming, cut: Disk, r: Recovered, st': State, s: nat, n: nat, op: Operation)
    requires Durable(st, disk, names) && Survives(disk, cut) && CameBack(cut, names, r, st') && LastLogged(LiveLogs(cut), s, n, op)
    ensures |st'.levels| == NUM_LEVELS && Answered(Read(All(st'), Rank(op.key), s), op)
  {
    StartsDurable(st, disk, names);
    ComesBack(st, disk, names, cut, r, st');
    ReopenedInv(st, r.chunks, r.files, FirstNumber(disk), st');
    InvShape(st');
    AllUnique(st');
    FoundEntries(st, disk, names, cut);
    hide Durable, Survives, CameBack, LiveLogs, EntriesAt, AppliedLogs, InLogs, Reopens, Joined, FirstNumber, Source, Inv, All, Rank, Answered,
         SameBytes, Read;
    var found := EntriesAt(AppliedLogs(LiveLogs(cut)));
    var e :| e in found && Stands(e, n, op);
    forall x | x in All(st') && x.key.user == Rank(op.key) && x.key.sn <= s ensures x.key.sn <= e.key.sn {
      if x in found {
        var m: nat, other :| InLogs(LiveLogs(cut), m, other) && Stands(x, m, other);
        OtherKeys(other.key, op.key);
      } else {
        FoundIsNewer(st, found, e, x);
      }
    }
    ReadVisible(All(st'), Rank(op.key), s, e);
    AnswerOf(e, n, op);
  }

  // A write, on its way to the log and to the memtable.

  lemma WriteAppends(st: State, disk: Disk, ops: seq<Op>, effect: Effect, names: Naming, st': State, disk': Disk)
    requires disk.logs != [] && Writes(st, disk, Write(ops), effect, names, st', disk')
    ensures effect.Appended? && effect.group.first == st.lastSequence + 1 && OpsOf(effect.group) == ops
    ensures disk'.logs != [] && effect.group in disk'.logs[|disk'.logs| - 1].groups
  {
    hide OpsOf, EditFor, EditSets, LogNumber;
    var last := disk'.logs[|disk'.logs| - 1];
    assert last.groups[|last.groups| - 1] == effect.group;
  }

  lemma BatchStands(g: Group, ops: seq<Op>, i: nat)
    requires OpsOf(g) == ops && i < |ops| && g.first + |ops| <= MAX_SEQUENCE_NUMBER
    ensures exists e :: e in BatchEntries(ops, g.first) && Stands(e, g.first + i, g.ops[i])
  {
    hide Stands, OpEntry, OpOf;
    OpStands(g.ops[i], g.first + i);
    assert OpEntry(ops[i], g.first + i) in BatchEntries(ops, g.first);
  }

  /** What a write logs stands for what it puts into the memtable. */
  lemma WrittenIsLogged(st: State, disk: Disk, ops: seq<Op>, effect: Effect, names: Naming, st': State, disk': Disk, i: nat)
    requires |st.levels| == |st'.levels| == NUM_LEVELS && disk.logs != []
    requires WriteTo(st, ops, st') && Writes(st, disk, Write(ops), effect, names, st', disk') && i < |ops|
    ensures |effect.group.ops| == |ops| && disk'.logs != []
    ensures LoggedAt(disk'.logs[|disk'.logs| - 1], st.lastSequence + 1 + i, effect.group.ops[i])
    ensures exists e :: e in Source(st', 0) && Stands(e, st.lastSequence + 1 + i, effect.group.ops[i])
  {
    WriteAppends(st, disk, ops, effect, names, st', disk');
    WriteChanges(st, ops, st');
    WriteSources(st, ops, st');
    hide Writes, WriteTo, Stands, BatchEntries, OpsOf, Source;
    OpsLength(effect.group);
    BatchStands(effect.group, ops, i);
  }
}
