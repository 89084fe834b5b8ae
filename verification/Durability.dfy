/** What a store keeps on disk while it runs (db/db_impl.cc, LogAndApply in db/version_set.cc): a manifest of
    version edits, and a log for each memtable that is not in a table yet. */
module Durability {
  import opened Wrappers
  import opened Coding
  import opened DbFormat
  import opened Versions
  import opened VersionBuilder
  import opened Inputs
  import opened Compactions
  import opened States
  import opened Steps
  import opened Structure
  import opened StepInvariant
  import opened Store
  import opened Recovery
  import opened Reopening
  import M = Manifest

  /** A write-ahead log; its first `synced` groups are known to be on the device. */
  datatype LogFile = LogFile(number: nat, groups: seq<Group>, synced: nat)

  datatype Disk = Disk(edits: seq<M.Edit>, logs: seq<LogFile>)

  // How file descriptions in the manifest name tables, and the name of the comparator.
  datatype Naming = Naming(resolve: M.Resolver, comparator: Bytes)

  // What a step does to the disk.
  datatype Effect =
    | Untouched
    | Appended(group: Group, sync: bool)
    | NewLog
    | Edited(edit: M.Edit)

  const NO_FILES: seq<seq<File>> := [[], [], [], [], [], [], []]

  function OpsOf(g: Group): (r: seq<Op>)
    ensures |r| == |g.ops|
  {
    seq(|g.ops|, i requires 0 <= i < |g.ops| => OpOf(g.ops[i]))
  }

  /** The logs that still count: those from number `least` on. */
  function Live(logs: seq<LogFile>, least: nat): (r: seq<LogFile>)
    ensures |r| <= |logs|
  {
    if logs == [] then []
    else Live(logs[..|logs| - 1], least) + if logs[|logs| - 1].number >= least then [logs[|logs| - 1]] else []
  }

  /** Their operations, one log after the other. */
  function AppliedLogs(logs: seq<LogFile>): seq<(nat, Batches.Operation)> {
    if logs == [] then [] else AppliedLogs(logs[..|logs| - 1]) + Applied(logs[|logs| - 1].groups)
  }

  ghost predicate NumberedLogs(logs: seq<LogFile>, limit: nat) {
    && (forall i, j :: 0 <= i < j < |logs| ==> logs[i].number < logs[j].number)
    && (forall i :: 0 <= i < |logs| ==> 0 < logs[i].number < limit && logs[i].synced <= |logs[i].groups|)
  }

  /** The live logs hold what the memtables hold, in the order it was written. */
  ghost predicate LogsOk(st: State, logs: seq<LogFile>, least: nat) {
    && logs != [] && least <= logs[|logs| - 1].number && NumberedLogs(logs, st.nextFile)
    && LiveOk(st, Live(logs, least), logs[|logs| - 1])
  }

  /** Every group has its numbers from those given out. */
  ghost predicate GroupsFit(logs: seq<LogFile>, last: nat) {
    forall i, g :: 0 <= i < |logs| && g in logs[i].groups ==> 0 < g.first && g.first + |g.ops| <= last + 1
  }

  ghost predicate LiveOk(st: State, live: seq<LogFile>, last: LogFile) {
    && |live| == (if st.imm.Some? then 2 else 1)
    && Entries(st.mem) == EntriesAt(Applied(last.groups))
    && (st.imm.Some? ==> Entries(st.imm.value) == EntriesAt(Applied(live[0].groups)))
    && Increasing(AppliedLogs(live)) && UpTo(AppliedLogs(live), st.lastSequence) && GroupsFit(live, st.lastSequence)
  }

  ghost predicate UpTo(ps: seq<(nat, Batches.Operation)>, last: nat) {
    forall i :: 0 <= i < |ps| ==> 0 < ps[i].0 <= last
  }

  ghost predicate KnownSettings(s: M.Settings) {
    s.logNumber.Some? && s.nextFile.Some? && s.lastSequence.Some? && (s.prevLogNumber.None? || s.prevLogNumber == Some(0))
  }

  /** What the manifest says bounds what the levels hold. */
  ghost predicate SettingsOk(st: State, s: M.Settings)
    requires |st.levels| == NUM_LEVELS
  {
    && KnownSettings(s) && s.nextFile.value <= st.nextFile && s.lastSequence.value <= st.lastSequence
    && (forall l, f :: 0 <= l < NUM_LEVELS && f in st.levels[l] ==> f.number < s.nextFile.value)
    && (forall i, e :: 2 <= i < NUM_SOURCES && e in Source(st, i) ==> e.key.sn <= s.lastSequence.value)
  }

  /** A file number is used once per level, and files only move down. */
  ghost predicate NumbersUsed(st: State, edits: seq<VersionEdit>)
    requires |st.levels| == NUM_LEVELS
  {
    forall l, n :: 0 <= l < NUM_LEVELS && n in M.NumbersAfter([], edits, l) ==>
      n < st.nextFile && forall m, f :: 0 <= m < NUM_LEVELS && f in st.levels[m] && f.number == n ==> l <= m
  }

  /** Replaying the manifest gives the levels. */
  ghost predicate ManifestOk(st: State, edits: seq<M.Edit>, names: Naming) {
    && M.GoodEdits(NO_FILES, edits, names.resolve, names.comparator)
    && M.Replayed(st.levels, NO_FILES, M.ResolvedAll(edits, names.resolve))
    && NumbersUsed(st, M.ResolvedAll(edits, names.resolve))
  }

  /** The number of the oldest log that counts. */
  ghost function LogNumber(edits: seq<M.Edit>): nat {
    var log := M.SettingsOf(edits).logNumber;
    if log.Some? then log.value else 0
  }

  ghost predicate ManifestKeeps(st: State, edits: seq<M.Edit>, names: Naming) {
    ManifestOk(st, edits, names) && SettingsOk(st, M.SettingsOf(edits))
  }

  /** The disk stands for the state. */
  ghost predicate Durable(st: State, disk: Disk, names: Naming) {
    Inv(st) && ManifestKeeps(st, disk.edits, names) && LogsOk(st, disk.logs, LogNumber(disk.edits))
  }

  /** The edit of a step as it is written: the files of the step, and the settings at that time. */
  ghost predicate EditFor(edit: M.Edit, names: Naming, target: nat, in0: seq<File>, in1: seq<File>, outputs: seq<File>) {
    && M.Encodable(edit) && M.LevelsOk(M.Resolved(edit, names.resolve)) && edit.comparator.None?
    && M.Resolved(edit, names.resolve).added == Additions(target, outputs)
    && forall p :: p in edit.deleted <==> p in EditOf(target, in0, in1, outputs).deleted
  }

  ghost predicate EditSets(edit: M.Edit, log: nat, st': State) {
    edit.logNumber == Some(log) && edit.prevLogNumber == Some(0) && edit.nextFileNumber == Some(st'.nextFile)
    && edit.lastSequence == Some(st'.lastSequence)
  }

  /** A step together with what it writes. */
  ghost predicate Writes(st: State, disk: Disk, step: Step, effect: Effect, names: Naming, st': State, disk': Disk)
    requires disk.logs != []
  {
    var last, log := disk.logs[|disk.logs| - 1], LogNumber(disk.edits);
    match step
    case Write(ops) =>
      && effect.Appended? && effect.group.first == st.lastSequence + 1 && OpsOf(effect.group) == ops
      && disk' == disk.(logs := disk.logs[..|disk.logs| - 1] +
                          [last.(groups := last.groups + [effect.group], synced := if effect.sync then |last.groups| + 1 else last.synced)])
    case SwitchMemTable => effect.NewLog? && disk' == disk.(logs := disk.logs + [LogFile(st.nextFile, [], 0)])
    case FlushNothing =>
      && effect.Edited? && disk' == disk.(edits := disk.edits + [effect.edit])
      && EditFor(effect.edit, names, 0, [], [], []) && EditSets(effect.edit, last.number, st')
    case Flush(level, f) =>
      && effect.Edited? && disk' == disk.(edits := disk.edits + [effect.edit])
      && EditFor(effect.edit, names, level, [], [], [f]) && EditSets(effect.edit, last.number, st')
    case TrivialMove(level, f) =>
      && effect.Edited? && disk' == disk.(edits := disk.edits + [effect.edit])
      && EditFor(effect.edit, names, level + 1, [f], [], [f]) && EditSets(effect.edit, log, st')
    case Compact(level, in0, in1, input, outputs) =>
      && effect.Edited? && disk' == disk.(edits := disk.edits + [effect.edit])
      && EditFor(effect.edit, names, level + 1, in0, in1, outputs) && EditSets(effect.edit, log, st')
    case TakeSnapshot => effect.Untouched? && disk' == disk
    case ReleaseSnapshot(_) => effect.Untouched? && disk' == disk
  }

  // The manifest.

  lemma ResolvedNext(edits: seq<M.Edit>, edit: M.Edit, names: Naming)
    ensures M.ResolvedAll(edits + [edit], names.resolve) == M.ResolvedAll(edits, names.resolve) + [M.Resolved(edit, names.resolve)]
    ensures M.SettingsOf(edits + [edit]) == M.Set(M.SettingsOf(edits), edit)
  {
    assert (edits + [edit])[..|edits|] == edits;
  }

  lemma ReplayNext(files: set<File>, edits: seq<VersionEdit>, edit: VersionEdit, l: nat)
    ensures Replay(files, edits + [edit], l) == AfterEdit(Replay(files, edits, l), edit, l)
  {
    assert (edits + [edit])[..|edits|] == edits;
  }

  lemma NumbersNext(edits: seq<VersionEdit>, edit: VersionEdit, l: nat)
    ensures M.NumbersAfter([], edits + [edit], l) == M.NumbersAfter([], edits, l) + set p | p in edit.added && p.0 == l :: p.1.number
  {
    assert (edits + [edit])[..|edits|] == edits;
  }

  /** Numbers for one more edit that each level has not seen. */
  ghost predicate FreshFor(edits: seq<VersionEdit>, added: seq<(nat, File)>) {
    forall l :: 0 <= l < NUM_LEVELS ==> Fresh(M.NumbersAfter([], edits, l), added, l)
  }

  lemma GoodNext(edits: seq<M.Edit>, edit: M.Edit, names: Naming)
    requires M.GoodEdits(NO_FILES, edits, names.resolve, names.comparator)
    requires M.Encodable(edit) && M.LevelsOk(M.Resolved(edit, names.resolve))
    requires edit.comparator.None? || edit.comparator.value == names.comparator
    requires FreshFor(M.ResolvedAll(edits, names.resolve), M.Resolved(edit, names.resolve).added)
    ensures M.GoodEdits(NO_FILES, edits + [edit], names.resolve, names.comparator)
  {
    hide M.Encodable, M.LevelsOk, M.Resolved, Fresh, M.NumbersAfter;
    var more := edits + [edit];
    forall i, l | 0 <= i < |more| && 0 <= l < NUM_LEVELS
      ensures Fresh(M.NumbersAfter(NO_FILES[l], M.ResolvedAll(more[..i], names.resolve), l), M.Resolved(more[i], names.resolve).added, l)
    {
      assert NO_FILES[l] == [];
      assert more[..i] == edits[..i];
      if i == |edits| { assert edits[..i] == edits; }
    }
  }

  /** The edit of a step does to the manifest what the step does to the levels. */
  lemma ManifestNext(st: State, edits: seq<M.Edit>, edit: M.Edit, names: Naming, target: nat, in0: seq<File>, in1: seq<File>, outputs: seq<File>, st': State)
    requires |st.levels| == NUM_LEVELS && NumbersDistinct(st) && target < NUM_LEVELS && ManifestOk(st, edits, names)
    requires EditFor(edit, names, target, in0, in1, outputs) && Installs(st.levels, st'.levels, target, in0, in1, outputs)
    requires target > 0 ==> forall f :: f in in0 ==> f in st.levels[target - 1]
    requires forall f :: f in in1 ==> f in st.levels[target]
    requires FreshFor(M.ResolvedAll(edits, names.resolve), Additions(target, outputs))
    requires NumbersUsed(st', M.ResolvedAll(edits, names.resolve) + [M.Resolved(edit, names.resolve)])
    ensures ManifestOk(st', edits + [edit], names)
  {
    var all, resolved := M.ResolvedAll(edits, names.resolve), M.Resolved(edit, names.resolve);
    ResolvedNext(edits, edit, names);
    GoodNext(edits, edit, names);
    hide M.GoodEdits, NumbersUsed, NumbersDistinct, FreshFor, M.Encodable, M.LevelsOk, M.ResolvedAll, Replay, EditOf, Additions;
    forall l | 0 <= l < NUM_LEVELS ensures Members(st'.levels[l]) == Replay(Members(NO_FILES[l]), all + [resolved], l) {
      ReplayNext(Members(NO_FILES[l]), all, resolved, l);
      EditInstalls(st, target, in0, in1, outputs, l);
      SameEffect(Members(st.levels[l]), resolved, EditOf(target, in0, in1, outputs), l);
      EditAdds(target, in0, in1, outputs);
    }
  }

  lemma EditAdds(target: nat, in0: seq<File>, in1: seq<File>, outputs: seq<File>)
    ensures EditOf(target, in0, in1, outputs).added == Additions(target, outputs)
  {
  }

  /** The order of deletions does not matter. */
  lemma SameEffect(files: set<File>, a: VersionEdit, b: VersionEdit, l: nat)
    requires forall p :: p in a.deleted <==> p in b.deleted
    ensures a.added == b.added ==> AfterEdit(files, a, l) == AfterEdit(files, b, l)
  {
  }

  /** New numbers are used by nothing before. */
  lemma NewIsFresh(st: State, edits: seq<VersionEdit>, target: nat, outputs: seq<File>)
    requires |st.levels| == NUM_LEVELS && NumbersUsed(st, edits)
    requires forall i :: 0 <= i < |outputs| ==> outputs[i].number == st.nextFile + i
    ensures FreshFor(edits, Additions(target, outputs))
  {
    hide M.NumbersAfter;
    var added := Additions(target, outputs);
    forall l | 0 <= l < NUM_LEVELS ensures Fresh(M.NumbersAfter([], edits, l), added, l) {
    }
  }

  /** A file that moves down a level was never there. */
  lemma MovedIsFresh(st: State, edits: seq<VersionEdit>, target: nat, f: File)
    requires |st.levels| == NUM_LEVELS && NumbersUsed(st, edits) && 0 < target < NUM_LEVELS && f in st.levels[target - 1]
    ensures FreshFor(edits, Additions(target, [f]))
  {
    hide M.NumbersAfter;
    var added := Additions(target, [f]);
    assert |added| == 1 && added[0] == (target, f);
    forall l | 0 <= l < NUM_LEVELS ensures Fresh(M.NumbersAfter([], edits, l), added, l) {
    }
  }

  lemma AddedNumbers(target: nat, outputs: seq<File>, l: nat, n: nat)
    ensures n in (set p | p in Additions(target, outputs) && p.0 == l :: p.1.number) <==>
      l == target && exists o :: o in outputs && o.number == n
  {
    var added := Additions(target, outputs);
    if l == target {
      if o :| o in outputs && o.number == n {
        var i :| 0 <= i < |outputs| && outputs[i] == o;
        assert added[i] == (target, o) && (target, o).1.number == n;
      }
    }
  }

  lemma UsedAt(st: State, edits: seq<VersionEdit>, l: nat, n: nat, m: int, f: File)
    requires |st.levels| == NUM_LEVELS && NumbersUsed(st, edits) && l < NUM_LEVELS && n in M.NumbersAfter([], edits, l) && f.number == n
    requires f.number >= st.nextFile || (0 <= m < NUM_LEVELS && f in st.levels[m])
    ensures l <= m
  {
  }

  /** A number that a level has seen names, if any, a file there or further down. */
  lemma UsedNextAt(st: State, edits: seq<VersionEdit>, edit: VersionEdit, target: nat, outputs: seq<File>, st': State, l: nat, n: nat, m: nat, f: File)
    requires |st.levels| == NUM_LEVELS && NumbersUsed(st, edits) && target < NUM_LEVELS && edit.added == Additions(target, outputs)
    requires |st'.levels| == NUM_LEVELS && NumbersDistinct(st') && forall o :: o in outputs ==> o in st'.levels[target]
    requires forall o :: o in outputs ==> o.number >= st.nextFile || (target > 0 && o in st.levels[target - 1])
    requires l < NUM_LEVELS && n in M.NumbersAfter([], edits + [edit], l) && f.number == n
    requires m < NUM_LEVELS && f in st'.levels[m] && (f in st.levels[m] || (m == target && f in outputs))
    ensures l <= m
  {
    hide M.NumbersAfter, Additions, NumbersUsed, NumbersDistinct;
    NumbersNext(edits, edit, l);
    AddedNumbers(target, outputs, l, n);
    if n in M.NumbersAfter([], edits, l) {
      UsedAt(st, edits, l, n, if f in st.levels[m] then m else target - 1, f);
    } else {
      var o :| o in outputs && o.number == n;
      NumberNames(st', m, f, target, o);
    }
  }

  /** Files stay at their level or are new there. */
  lemma UsedNext(st: State, edits: seq<VersionEdit>, edit: VersionEdit, target: nat, in0: seq<File>, in1: seq<File>, outputs: seq<File>, st': State)
    requires |st.levels| == NUM_LEVELS && NumbersUsed(st, edits) && target < NUM_LEVELS && edit.added == Additions(target, outputs)
    requires Installs(st.levels, st'.levels, target, in0, in1, outputs) && st.nextFile <= st'.nextFile
    requires |st'.levels| == NUM_LEVELS && NumbersDistinct(st')
    requires forall o :: o in outputs ==> o.number >= st.nextFile || (target > 0 && o in st.levels[target - 1])
    ensures NumbersUsed(st', edits + [edit])
  {
    hide M.NumbersAfter, Additions;
    forall o | o in outputs ensures o in st'.levels[target] {
      assert o in Members(st'.levels[target]);
    }
    forall l, n | 0 <= l < NUM_LEVELS && n in M.NumbersAfter([], edits + [edit], l)
      ensures n < st'.nextFile && forall m, f :: 0 <= m < NUM_LEVELS && f in st'.levels[m] && f.number == n ==> l <= m
    {
      forall m, f | 0 <= m < NUM_LEVELS && f in st'.levels[m] && f.number == n ensures l <= m {
        assert f in Members(st'.levels[m]);
        UsedNextAt(st, edits, edit, target, outputs, st', l, n, m, f);
      }
      NumbersNext(edits, edit, l);
      AddedNumbers(target, outputs, l, n);
    }
  }

  // The settings.

  lemma SettingsNext(st: State, edits: seq<M.Edit>, edit: M.Edit, log: nat, st': State)
    requires EditSets(edit, log, st') && Inv(st')
    ensures SettingsOk(st', M.SettingsOf(edits + [edit])) && LogNumber(edits + [edit]) == log
  {
    assert (edits + [edit])[..|edits|] == edits;
  }

  // The logs.

  lemma LastLive(logs: seq<LogFile>, least: nat)
    requires logs != [] && least <= logs[|logs| - 1].number
    ensures Live(logs, least) == Live(logs[..|logs| - 1], least) + [logs[|logs| - 1]]
  {
  }

  lemma AppliedLast(before: seq<LogFile>, last: LogFile)
    ensures AppliedLogs(before + [last]) == AppliedLogs(before) + Applied(last.groups)
  {
    assert (before + [last])[..|before|] == before;
  }

  lemma {:induction false} OldLogsAreDead(logs: seq<LogFile>, least: nat)
    requires forall i :: 0 <= i < |logs| ==> logs[i].number < least
    ensures Live(logs, least) == []
  {
    if logs != [] {
      OldLogsAreDead(logs[..|logs| - 1], least);
    }
  }

  lemma AppliedOne(groups: seq<Group>, g: Group)
    ensures Applied(groups + [g]) == Applied(groups) + Batches.Numbered(g.ops, g.first)
  {
    assert (groups + [g])[..|groups|] == groups;
  }

  /** A batch in the log is the batch in the memtable. */
  lemma GroupIsBatch(g: Group)
    requires g.first + |g.ops| <= MAX_SEQUENCE_NUMBER
    ensures EntriesAt(Batches.Numbered(g.ops, g.first)) == BatchEntries(OpsOf(g), g.first)
  {
    hide OpOf, OpEntry;
    var ps, ops := Batches.Numbered(g.ops, g.first), OpsOf(g);
    forall e | e in EntriesAt(ps) ensures e in BatchEntries(ops, g.first) {
      var i :| 0 <= i < |ps| && ps[i].0 <= MAX_SEQUENCE_NUMBER && e == OpEntry(OpOf(ps[i].1), ps[i].0);
      assert ops[i] == OpOf(ps[i].1);
    }
    forall e | e in BatchEntries(ops, g.first) ensures e in EntriesAt(ps) {
      var i :| 0 <= i < |ops| && e == OpEntry(ops[i], g.first + i);
      assert ps[i] == (g.first + i, g.ops[i]);
    }
  }

  lemma IncreasingAppend(a: seq<(nat, Batches.Operation)>, b: seq<(nat, Batches.Operation)>, last: nat)
    requires Increasing(a) && Increasing(b) && (forall i :: 0 <= i < |a| ==> a[i].0 <= last) && (forall i :: 0 <= i < |b| ==> b[i].0 > last)
    ensures Increasing(a + b)
  {
  }

  lemma WriteLive(st: State, before: seq<LogFile>, last: LogFile, last': LogFile, g: Group, st': State)
    requires LiveOk(st, before + [last], last) && last'.groups == last.groups + [g]
    requires g.first == st.lastSequence + 1 && st'.imm == st.imm && st'.lastSequence == st.lastSequence + |g.ops|
    requires Entries(st'.mem) == Entries(st.mem) + EntriesAt(Batches.Numbered(g.ops, g.first))
    ensures LiveOk(st', before + [last'], last')
  {
    hide EntriesAt, Applied, GroupsFit;
    GroupsFitMore(before + [last], last', g, st.lastSequence, st'.lastSequence);
    assert (before + [last])[..|before|] == before;
    var ps := Batches.Numbered(g.ops, g.first);
    AppliedLast(before, last);
    AppliedLast(before, last');
    AppliedOne(last.groups, g);
    EntriesAppend(Applied(last.groups), ps);
    var all := AppliedLogs(before + [last]);
    assert AppliedLogs(before + [last']) == all + ps;
    IncreasingAppend(all, ps, st.lastSequence);
    assert UpTo(all + ps, st'.lastSequence);
    assert st.imm.Some? ==> (before + [last])[0] == before[0] && (before + [last'])[0] == before[0];
  }

  lemma GroupsFitMore(logs: seq<LogFile>, last: LogFile, g: Group, limit: nat, limit': nat)
    requires logs != [] && GroupsFit(logs, limit) && limit <= limit' && 0 < g.first && g.first + |g.ops| <= limit' + 1
    requires last.groups == logs[|logs| - 1].groups + [g]
    ensures GroupsFit(logs[..|logs| - 1] + [last], limit')
  {
  }

  lemma SyncedFits(logs: seq<LogFile>, limit: nat)
    requires logs != [] && NumberedLogs(logs, limit)
    ensures logs[|logs| - 1].synced <= |logs[|logs| - 1].groups|
  {
  }

  lemma ReplaceLast(logs: seq<LogFile>, last: LogFile, limit: nat)
    requires logs != [] && NumberedLogs(logs, limit) && last.number == logs[|logs| - 1].number && last.synced <= |last.groups|
    ensures NumberedLogs(logs[..|logs| - 1] + [last], limit)
  {
  }

  lemma WriteLogs(st: State, logs: seq<LogFile>, least: nat, g: Group, sync: bool, st': State)
    requires LogsOk(st, logs, least) && g.first + |g.ops| <= MAX_SEQUENCE_NUMBER
    requires g.first == st.lastSequence + 1 && WriteTo(st, OpsOf(g), st')
    ensures var last := logs[|logs| - 1];
      LogsOk(st', logs[..|logs| - 1] + [last.(groups := last.groups + [g], synced := if sync then |last.groups| + 1 else last.synced)], least)
  {
    hide EntriesAt, Applied, BatchEntries, OpsOf, LiveOk, NumberedLogs;
    OpsLength(g);
    SyncedFits(logs, st.nextFile);
    var front, last := logs[..|logs| - 1], logs[|logs| - 1];
    var last' := last.(groups := last.groups + [g], synced := if sync then |last.groups| + 1 else last.synced);
    var logs' := front + [last'];
    assert logs'[..|logs'| - 1] == front;
    ReplaceLast(logs, last', st.nextFile);
    LastLive(logs, least);
    LastLive(logs', least);
    GroupIsBatch(g);
    WriteLive(st, Live(front, least), last, last', g, st');
  }

  lemma NewLogFits(live: seq<LogFile>, log: LogFile, last: nat)
    requires GroupsFit(live, last) && log.groups == []
    ensures GroupsFit(live + [log], last)
  {
  }

  lemma NothingLogged()
    ensures Applied([]) == [] && EntriesAt([]) == {}
  {
  }

  lemma SwitchLive(st: State, live: seq<LogFile>, last: LogFile, log: LogFile, st': State)
    requires LiveOk(st, live, last) && live != [] && live[|live| - 1] == last && SwitchTo(st, st') && log.groups == []
    ensures LiveOk(st', live + [log], log)
  {
    hide EntriesAt, Applied, Increasing, UpTo, GroupsFit;
    NothingLogged();
    NewLogFits(live, log, st.lastSequence);
    AppliedLast(live, log);
    assert AppliedLogs(live) + [] == AppliedLogs(live);
    assert |live| == 1 && (live + [log])[0] == last;
  }

  lemma AddLog(logs: seq<LogFile>, number: nat, limit: nat)
    requires NumberedLogs(logs, number) && 0 < number < limit
    ensures NumberedLogs(logs + [LogFile(number, [], 0)], limit)
  {
  }

  lemma NumbersRise(logs: seq<LogFile>, limit: nat)
    requires logs != [] && NumberedLogs(logs, limit)
    ensures 0 < logs[|logs| - 1].number < limit
  {
  }

  lemma SwitchLogs(st: State, logs: seq<LogFile>, least: nat, st': State)
    requires LogsOk(st, logs, least) && SwitchTo(st, st')
    ensures LogsOk(st', logs + [LogFile(st.nextFile, [], 0)], least)
  {
    hide EntriesAt, LiveOk, NumberedLogs;
    var log := LogFile(st.nextFile, [], 0);
    var logs' := logs + [log];
    NumbersRise(logs, st.nextFile);
    AddLog(logs, st.nextFile, st'.nextFile);
    assert logs'[..|logs'| - 1] == logs;
    LastLive(logs, least);
    LastLive(logs', least);
    SwitchLive(st, Live(logs, least), logs[|logs| - 1], log, st');
  }

  lemma FlushLive(st: State, before: seq<LogFile>, last: LogFile, st': State)
    requires LiveOk(st, before + [last], last) && st'.mem == st.mem && st'.imm == None && st'.lastSequence == st.lastSequence
    ensures LiveOk(st', [last], last)
  {
    hide EntriesAt, Applied, Increasing, UpTo;
    AppliedLast(before, last);
    AppliedLast([], last);
    assert [] + [last] == [last];
    var ps, earlier := Applied(last.groups), AppliedLogs(before);
    assert [] + ps == ps;
    LaterPart(earlier, ps, st.lastSequence);
  }

  /** Once the immutable memtable is in a table, its log is dead. */
  lemma FlushLogs(st: State, logs: seq<LogFile>, least: nat, st': State)
    requires LogsOk(st, logs, least) && st'.mem == st.mem && st'.imm == None && st'.lastSequence == st.lastSequence && st'.nextFile >= st.nextFile
    ensures LogsOk(st', logs, logs[|logs| - 1].number)
  {
    hide EntriesAt, Applied, LiveOk;
    var n := |logs| - 1;
    LastLive(logs, least);
    LastLive(logs, logs[n].number);
    OldLogsAreDead(logs[..n], logs[n].number);
    assert [] + [logs[n]] == [logs[n]];
    FlushLive(st, Live(logs[..n], least), logs[n], st');
  }

  lemma LaterPart(a: seq<(nat, Batches.Operation)>, b: seq<(nat, Batches.Operation)>, last: nat)
    requires Increasing(a + b) && UpTo(a + b, last)
    ensures Increasing(b) && UpTo(b, last)
  {
    assert forall i :: 0 <= i < |b| ==> (a + b)[|a| + i] == b[i];
  }

  lemma SameLogs(st: State, logs: seq<LogFile>, least: nat, st': State)
    requires LogsOk(st, logs, least) && st'.mem == st.mem && st'.imm == st.imm && st'.lastSequence == st.lastSequence && st'.nextFile >= st.nextFile
    ensures LogsOk(st', logs, least)
  {
  }

  // The steps.

  lemma SameManifest(st: State, edits: seq<M.Edit>, names: Naming, st': State)
    requires |st.levels| == NUM_LEVELS && ManifestOk(st, edits, names) && SettingsOk(st, M.SettingsOf(edits))
    requires st'.levels == st.levels && st'.nextFile >= st.nextFile && st'.lastSequence >= st.lastSequence
    ensures ManifestOk(st', edits, names) && SettingsOk(st', M.SettingsOf(edits))
  {
    hide M.GoodEdits, M.SettingsOf, M.ResolvedAll, M.Replayed, M.NumbersAfter;
    forall i, e | 2 <= i < NUM_SOURCES && e in Source(st', i) ensures e in Source(st, i) {}
  }

  /** What a step that installs files does to the levels. */
  ghost predicate InstallStep(st: State, target: nat, in0: seq<File>, in1: seq<File>, outputs: seq<File>, st': State) {
    && |st.levels| == |st'.levels| == NUM_LEVELS && target < NUM_LEVELS && st.nextFile <= st'.nextFile
    && NumbersDistinct(st) && NumbersDistinct(st') && Installs(st.levels, st'.levels, target, in0, in1, outputs)
    && (target > 0 ==> forall f :: f in in0 ==> f in st.levels[target - 1])
    && (forall f :: f in in1 ==> f in st.levels[target])
    && (NewlyNumbered(st, outputs) || (target > 0 && |outputs| == 1 && outputs[0] in st.levels[target - 1]))
  }

  ghost predicate NewlyNumbered(st: State, outputs: seq<File>) {
    forall i :: 0 <= i < |outputs| ==> outputs[i].number == st.nextFile + i
  }

  lemma InstallUses(st: State, edits: seq<VersionEdit>, edit: VersionEdit, target: nat, in0: seq<File>, in1: seq<File>, outputs: seq<File>, st': State)
    requires InstallStep(st, target, in0, in1, outputs, st') && NumbersUsed(st, edits) && edit.added == Additions(target, outputs)
    ensures FreshFor(edits, Additions(target, outputs)) && NumbersUsed(st', edits + [edit])
  {
    hide FreshFor, NumbersUsed, Additions, Installs, NumbersDistinct;
    if NewlyNumbered(st, outputs) {
      NewIsFresh(st, edits, target, outputs);
    } else {
      assert outputs == [outputs[0]];
      MovedIsFresh(st, edits, target, outputs[0]);
    }
    UsedNext(st, edits, edit, target, in0, in1, outputs, st');
  }

  /** It keeps manifest and settings right. */
  lemma InstallDurable(st: State, edits: seq<M.Edit>, edit: M.Edit, log: nat, names: Naming,
                       target: nat, in0: seq<File>, in1: seq<File>, outputs: seq<File>, st': State)
    requires ManifestKeeps(st, edits, names) && Inv(st') && InstallStep(st, target, in0, in1, outputs, st')
    requires EditFor(edit, names, target, in0, in1, outputs) && EditSets(edit, log, st')
    ensures ManifestKeeps(st', edits + [edit], names) && LogNumber(edits + [edit]) == log
  {
    hide Inv, SettingsOk, M.GoodEdits, M.Replayed, M.SettingsOf, M.ResolvedAll, M.Encodable, M.LevelsOk, FreshFor, NumbersUsed, Installs,
         NumbersDistinct, EditSets, LogNumber, Additions, NewlyNumbered;
    SettingsNext(st, edits, edit, log, st');
    InstallUses(st, M.ResolvedAll(edits, names.resolve), M.Resolved(edit, names.resolve), target, in0, in1, outputs, st');
    ManifestNext(st, edits, edit, names, target, in0, in1, outputs, st');
  }

  lemma InvShape(st: State)
    requires Inv(st)
    ensures |st.levels| == NUM_LEVELS && NumbersDistinct(st)
  {
  }

  lemma CompactIsInstall(st: State, level: nat, in0: seq<File>, in1: seq<File>, input: seq<Entry>, outputs: seq<File>, st': State)
    requires Inv(st) && Inv(st') && CompactTo(st, level, in0, in1, input, outputs, st')
    ensures InstallStep(st, level + 1, in0, in1, outputs, st')
  {
    hide Inv, NumbersDistinct, LegalInputs, Merges, Survivors, Flatten, EndsMatch;
    InvShape(st);
    InvShape(st');
    LegalIsStored(st.levels, level, in0, in1);
    assert NewlyNumbered(st, outputs);
  }

  lemma MoveIsInstall(st: State, level: nat, f: File, st': State)
    requires Inv(st) && Inv(st') && MoveTo(st, level, f, st')
    ensures InstallStep(st, level + 1, [f], [], [f], st')
  {
    hide Inv, NumbersDistinct, LegalInputs;
    InvShape(st);
    InvShape(st');
    LegalIsStored(st.levels, level, [f], []);
    assert f in [f] && f in st.levels[level] && forall g :: g in [f] ==> g == f;
  }

  lemma FlushIsInstall(st: State, level: nat, f: File, st': State)
    requires Inv(st) && Inv(st') && FlushTo(st, level, f, st')
    ensures InstallStep(st, level, [], [], [f], st')
  {
    hide Inv, NumbersDistinct, EndsMatch, Overlaps;
    InvShape(st);
    InvShape(st');
    assert NewlyNumbered(st, [f]);
  }

  lemma EmptyFlushIsInstall(st: State, st': State)
    requires Inv(st) && Inv(st') && FlushNothingTo(st, st')
    ensures InstallStep(st, 0, [], [], [], st')
  {
    hide SourceOrder, Level0Order, NumbersDistinct, Bounded;
    assert NewlyNumbered(st, []);
  }

  lemma StartsDurable(st: State, disk: Disk, names: Naming)
    requires Durable(st, disk, names)
    ensures Inv(st) && |st.levels| == NUM_LEVELS && disk.logs != []
  {
  }

  lemma SameKeeps(st: State, edits: seq<M.Edit>, names: Naming, st': State)
    requires |st.levels| == NUM_LEVELS && ManifestKeeps(st, edits, names)
    requires st'.levels == st.levels && st'.nextFile >= st.nextFile && st'.lastSequence >= st.lastSequence
    ensures ManifestKeeps(st', edits, names)
  {
    hide ManifestOk, SettingsOk;
    SameManifest(st, edits, names, st');
  }

  lemma WriteChanges(st: State, ops: seq<Op>, st': State)
    requires WriteTo(st, ops, st')
    ensures st'.levels == st.levels && st'.nextFile == st.nextFile && st'.lastSequence == st.lastSequence + |ops| < MAX_SEQUENCE_NUMBER
  {
  }

  lemma WriteDurable(st: State, disk: Disk, ops: seq<Op>, effect: Effect, names: Naming, st': State, disk': Disk)
    requires Durable(st, disk, names) && disk.logs != [] && WriteTo(st, ops, st') && Writes(st, disk, Write(ops), effect, names, st', disk')
    ensures Durable(st', disk', names)
  {
    hide Inv, LogsOk, ManifestKeeps, LogNumber, OpsOf, WriteTo, EditFor, EditSets;
    StartsDurable(st, disk, names);
    StepKeepsInv(st, Write(ops), st');
    WriteChanges(st, ops, st');
    SameKeeps(st, disk.edits, names, st');
    OpsLength(effect.group);
    WriteLogs(st, disk.logs, LogNumber(disk.edits), effect.group, effect.sync, st');
  }

  lemma OpsLength(g: Group)
    ensures |OpsOf(g)| == |g.ops|
  {
  }

  /** The steps that write an edit. */
  lemma EditStepDurable(st: State, disk: Disk, step: Step, effect: Effect, names: Naming, st': State, disk': Disk)
    requires Durable(st, disk, names) && disk.logs != [] && |st.levels| == NUM_LEVELS
    requires StepTo(st, step, st') && Writes(st, disk, step, effect, names, st', disk') && effect.Edited?
    ensures ManifestKeeps(st', disk'.edits, names)
    ensures LogNumber(disk'.edits) == if step.Flush? || step.FlushNothing? then disk.logs[|disk.logs| - 1].number else LogNumber(disk.edits)
  {
    hide Inv, LogsOk, ManifestKeeps, LogNumber, EditFor, EditSets, InstallStep, WriteTo, SwitchTo, FlushNothingTo, FlushTo, MoveTo, CompactTo;
    StepKeepsInv(st, step, st');
    var last, log := disk.logs[|disk.logs| - 1].number, LogNumber(disk.edits);
    match step
    case FlushNothing =>
      EmptyFlushIsInstall(st, st');
      InstallDurable(st, disk.edits, effect.edit, last, names, 0, [], [], [], st');
    case Flush(level, f) =>
      FlushIsInstall(st, level, f, st');
      InstallDurable(st, disk.edits, effect.edit, last, names, level, [], [], [f], st');
    case TrivialMove(level, f) =>
      MoveIsInstall(st, level, f, st');
      InstallDurable(st, disk.edits, effect.edit, log, names, level + 1, [f], [], [f], st');
    case Compact(level, in0, in1, input, outputs) =>
      CompactIsInstall(st, level, in0, in1, input, outputs, st');
      InstallDurable(st, disk.edits, effect.edit, log, names, level + 1, in0, in1, outputs, st');
    case Write(_) =>
    case SwitchMemTable =>
    case TakeSnapshot =>
    case ReleaseSnapshot(_) =>
  }

  /** Such a step, and the logs. */
  lemma EditStepLogs(st: State, step: Step, logs: seq<LogFile>, least: nat, st': State)
    requires |st.levels| == NUM_LEVELS && StepTo(st, step, st') && logs != [] && LogsOk(st, logs, least)
    requires step.Flush? || step.FlushNothing? || step.TrivialMove? || step.Compact?
    ensures LogsOk(st', logs, if step.Flush? || step.FlushNothing? then logs[|logs| - 1].number else least)
  {
    hide LogsOk, Installs, FlushLevelOk, LegalInputs, Merges, OutputsAre, Survivors, EndsMatch;
    if step.Flush? || step.FlushNothing? {
      FlushLogs(st, logs, least, st');
    } else {
      SameLogs(st, logs, least, st');
    }
  }

  lemma QuietStepDurable(st: State, disk: Disk, step: Step, effect: Effect, names: Naming, st': State, disk': Disk)
    requires Durable(st, disk, names) && disk.logs != [] && |st.levels| == NUM_LEVELS
    requires StepTo(st, step, st') && Writes(st, disk, step, effect, names, st', disk')
    requires step.SwitchMemTable? || step.TakeSnapshot? || step.ReleaseSnapshot?
    ensures Durable(st', disk', names)
  {
    hide Inv, LogsOk, ManifestKeeps, LogNumber;
    StepKeepsInv(st, step, st');
    SameKeeps(st, disk.edits, names, st');
    if step.SwitchMemTable? {
      SwitchLogs(st, disk.logs, LogNumber(disk.edits), st');
    } else {
      SameLogs(st, disk.logs, LogNumber(disk.edits), st');
    }
  }

  /** MAIN: whatever step the store takes, and writes, the disk goes on standing for the state. */
  lemma StepDurable(st: State, disk: Disk, step: Step, effect: Effect, names: Naming, st': State, disk': Disk)
    requires Durable(st, disk, names) && disk.logs != [] && |st.levels| == NUM_LEVELS
    requires StepTo(st, step, st') && Writes(st, disk, step, effect, names, st', disk')
    ensures Durable(st', disk', names)
  {
    hide Inv, LogsOk, ManifestKeeps, LogNumber, EditFor, EditSets, WriteTo, SwitchTo, FlushNothingTo, FlushTo, MoveTo, CompactTo;
    if step.Write? {
      WriteDurable(st, disk, step.ops, effect, names, st', disk');
    } else if effect.Edited? {
      StepKeepsInv(st, step, st');
      EditStepDurable(st, disk, step, effect, names, st', disk');
      EditStepLogs(st, step, disk.logs, LogNumber(disk.edits), st');
    } else {
      QuietStepDurable(st, disk, step, effect, names, st', disk');
    }
  }
}
