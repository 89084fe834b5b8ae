/** A crash and what comes after it (DB::Open, DBImpl::Recover in db/db_impl.cc; VersionSet::Recover and
    WriteSnapshot in db/version_set.cc): the logs lose what was not synced, the store comes back from the
    manifest and the logs, and what it writes then stands for the state it came back in. */
module Crashes {
  import opened Wrappers
  import opened Coding
  import opened DbFormat
  import opened Versions
  import opened VersionBuilder
  import opened Compactions
  import opened States
  import opened Steps
  import opened Structure
  import opened StepInvariant
  import opened Store
  import opened Recovery
  import opened Reopening
  import opened Durability
  import M = Manifest

  // What recovery found and wrote: the version of the manifest, the contents of the tables written for
  // the logs, and these tables as files.
  datatype Recovered = Recovered(levels: seq<seq<File>>, chunks: seq<seq<(nat, Batches.Operation)>>, files: seq<File>)

  /** A log cut back by a crash, but not behind its last sync. */
  ghost predicate Cut(log: LogFile, log': LogFile) {
    log'.number == log.number && log'.synced == log.synced <= |log'.groups| && log'.groups <= log.groups
  }

  ghost predicate Survives(disk: Disk, disk': Disk) {
    disk'.edits == disk.edits && |disk'.logs| == |disk.logs| && forall i :: 0 <= i < |disk.logs| ==> Cut(disk.logs[i], disk'.logs[i])
  }

  /** The greatest sequence number found in the logs, counting from `least`. */
  function MaxInLogs(logs: seq<LogFile>, least: nat): nat {
    if logs == [] then least else MaxSequence(logs[|logs| - 1].groups, MaxInLogs(logs[..|logs| - 1], least))
  }

  /** WriteSnapshot: a first edit that adds every file of the version. */
  ghost predicate SnapshotEdit(edit: M.Edit, names: Naming, levels: seq<seq<File>>)
    requires |levels| == NUM_LEVELS
  {
    var added := M.Resolved(edit, names.resolve).added;
    && M.Encodable(edit) && edit.comparator == Some(names.comparator) && edit.deleted == []
    && edit.logNumber.None? && edit.prevLogNumber.None? && edit.nextFileNumber.None? && edit.lastSequence.None?
    && (forall p :: p in added <==> p.0 < NUM_LEVELS && p.1 in levels[p.0])
    && (forall i, j :: 0 <= i < j < |added| ==> added[i] != added[j])
  }

  function Larger(a: nat, b: nat): nat { if a > b then a else b }

  /** The store comes back from what is on disk: the version of the manifest, and a level-0 table for each
      memtable that was filled from the live logs. */
  ghost predicate CameBack(disk: Disk, names: Naming, r: Recovered, st': State) {
    var s, live := M.SettingsOf(disk.edits), Live(disk.logs, LogNumber(disk.edits));
    && KnownSettings(s) && M.Replayed(r.levels, NO_FILES, M.ResolvedAll(disk.edits, names.resolve))
    && Joined(r.chunks) == AppliedLogs(live)
    && Tabled(r.chunks, r.files, s.nextFile.value + 1)
    && Installs(r.levels, st'.levels, 0, [], [], r.files)
    && st'.mem == [] && st'.imm == None && st'.snapshots == []
    && st'.lastSequence == Larger(MaxInLogs(live, 0), s.lastSequence.value)
    && FirstNumber(disk) <= st'.nextFile && forall f :: f in r.files ==> f.number < st'.nextFile
  }

  /** And it begins a new log, and a new manifest that says so. */
  ghost predicate Reopened(disk: Disk, names: Naming, r: Recovered, st': State, disk': Disk) {
    CameBack(disk, names, r, st') && Rewritten(disk, names, r, st', disk')
  }

  /** The new manifest and the new log; older logs may still lie about. */
  ghost predicate Rewritten(disk: Disk, names: Naming, r: Recovered, st': State, disk': Disk) {
    && |r.levels| == NUM_LEVELS && |disk'.edits| == 2 && disk'.logs != []
    && var snapshot, edit, last := disk'.edits[0], disk'.edits[1], disk'.logs[|disk'.logs| - 1];
    && SnapshotEdit(snapshot, names, r.levels)
    && EditFor(edit, names, 0, [], [], r.files) && EditSets(edit, last.number, st')
    && last.groups == [] && last.synced == 0 && 0 < last.number < st'.nextFile
    && (forall log :: log in disk'.logs[..|disk'.logs| - 1] ==> log in disk.logs) && NumberedLogs(disk'.logs[..|disk'.logs| - 1], last.number)
  }

  // The version.

  /** Key order leaves one way to list some files. */
  lemma {:induction false} OrderedUnique(a: seq<File>, b: seq<File>)
    requires Ordered(a) && Ordered(b) && Members(a) == Members(b)
    ensures a == b
  {
    forall f ensures f in a <==> f in b {
      assert f in Members(a) <==> f in Members(b);
    }
    if a == [] {
      SomeMember(b);
    } else if b == [] {
      SomeMember(a);
    } else {
      assert a[0] in b && b[0] in a;
      SameFirst(a, b);
      forall f ensures f in a[1..] <==> f in b[1..] {
        NotAgain(a, f);
        NotAgain(b, f);
      }
      assert Members(a[1..]) == Members(b[1..]);
      OrderedUnique(a[1..], b[1..]);
      assert a == [a[0]] + a[1..] && b == [b[0]] + b[1..];
    }
  }

  lemma SomeMember(files: seq<File>)
    ensures files != [] ==> files[0] in files
  {
  }

  lemma SameFirst(a: seq<File>, b: seq<File>)
    requires a != [] && b != [] && Ordered(a) && Ordered(b) && a[0] in b && b[0] in a
    ensures a[0] == b[0]
  {
    var i :| 0 <= i < |b| && b[i] == a[0];
    var j :| 0 <= j < |a| && a[j] == b[0];
    assert i > 0 ==> BySmallestKey(b[0], b[i]);
    assert j > 0 ==> BySmallestKey(a[0], a[j]);
  }

  lemma NotAgain(a: seq<File>, f: File)
    requires a != [] && Ordered(a)
    ensures f in a[1..] <==> f in a && f != a[0]
  {
    if f in a[1..] {
      var i :| 0 <= i < |a[1..]| && a[1..][i] == f;
      assert BySmallestKey(a[0], a[i + 1]);
    }
  }

  lemma SameVersion(st: State, edits: seq<M.Edit>, names: Naming, levels: seq<seq<File>>)
    requires ManifestOk(st, edits, names) && M.Replayed(levels, NO_FILES, M.ResolvedAll(edits, names.resolve))
    ensures levels == st.levels
  {
    hide M.GoodEdits, NumbersUsed, Ordered, M.ResolvedAll, Replay;
    forall l | 0 <= l < NUM_LEVELS ensures levels[l] == st.levels[l] {
      OrderedUnique(levels[l], st.levels[l]);
    }
  }

  // The logs.

  lemma {:induction false} AppliedPrefix(groups: seq<Group>, n: nat)
    requires n <= |groups|
    ensures Applied(groups[..n]) <= Applied(groups)
    decreases |groups| - n
  {
    if n == |groups| {
      assert groups[..n] == groups;
    } else {
      AppliedPrefix(groups, n + 1);
      NextGroup(groups, n, 0);
    }
  }

  lemma CutApplied(log: LogFile, log': LogFile)
    requires Cut(log, log')
    ensures Applied(log'.groups) <= Applied(log.groups)
  {
    AppliedPrefix(log.groups, |log'.groups|);
    assert log.groups[..|log'.groups|] == log'.groups;
  }

  ghost predicate AllCut(logs: seq<LogFile>, logs': seq<LogFile>) {
    |logs'| == |logs| && forall i :: 0 <= i < |logs| ==> Cut(logs[i], logs'[i])
  }

  lemma {:induction false} LiveCut(logs: seq<LogFile>, logs': seq<LogFile>, least: nat)
    requires AllCut(logs, logs')
    ensures AllCut(Live(logs, least), Live(logs', least))
  {
    if logs != [] {
      LiveCut(logs[..|logs| - 1], logs'[..|logs| - 1], least);
    }
  }

  /** Of numbers that rise, some from each part rise. */
  lemma PrefixesIncrease(a: seq<(nat, Batches.Operation)>, b: seq<(nat, Batches.Operation)>, a': seq<(nat, Batches.Operation)>, b': seq<(nat, Batches.Operation)>)
    requires Increasing(a + b) && a' <= a && b' <= b
    ensures Increasing(a' + b')
  {
    var all, all' := a + b, a' + b';
    assert forall i :: 0 <= i < |a'| ==> all'[i] == a'[i] == a[i] == all[i];
    assert forall i :: 0 <= i < |b'| ==> all'[|a'| + i] == b'[i] == b[i] == all[|a| + i];
  }

  lemma PrefixEntries(ps: seq<(nat, Batches.Operation)>, ps': seq<(nat, Batches.Operation)>)
    requires ps' <= ps
    ensures EntriesAt(ps') <= EntriesAt(ps)
  {
    assert ps == ps' + ps[|ps'|..];
    EntriesAppend(ps', ps[|ps'|..]);
  }

  lemma AppliedOneLog(log: LogFile)
    ensures AppliedLogs([log]) == Applied(log.groups)
  {
    AppliedLast([], log);
    assert [] + [log] == [log] && [] + Applied(log.groups) == Applied(log.groups);
  }

  lemma AppliedTwoLogs(a: LogFile, b: LogFile)
    ensures AppliedLogs([a, b]) == Applied(a.groups) + Applied(b.groups)
  {
    AppliedOneLog(a);
    AppliedLast([a], b);
    assert [a] + [b] == [a, b];
  }

  /** What survives in the live logs was in the memtables, in order. */
  lemma CutLive(st: State, live: seq<LogFile>, live': seq<LogFile>, last: LogFile)
    requires |st.levels| == NUM_LEVELS && LiveOk(st, live, last) && live != [] && live[|live| - 1] == last && AllCut(live, live')
    ensures Increasing(AppliedLogs(live')) && EntriesAt(AppliedLogs(live')) <= Source(st, 0) + Source(st, 1)
  {
    hide EntriesAt, Applied, Increasing, Cut;
    var n := |live| - 1;
    CutApplied(live[n], live'[n]);
    PrefixEntries(Applied(live[n].groups), Applied(live'[n].groups));
    if n == 0 {
      assert live == [live[0]] && live' == [live'[0]];
      AppliedOneLog(live[0]);
      AppliedOneLog(live'[0]);
      assert [] + Applied(live[0].groups) == Applied(live[0].groups) && [] + Applied(live'[0].groups) == Applied(live'[0].groups);
      PrefixesIncrease([], Applied(live[0].groups), [], Applied(live'[0].groups));
    } else {
      assert live == [live[0], live[1]] && live' == [live'[0], live'[1]];
      CutApplied(live[0], live'[0]);
      PrefixEntries(Applied(live[0].groups), Applied(live'[0].groups));
      AppliedTwoLogs(live[0], live[1]);
      AppliedTwoLogs(live'[0], live'[1]);
      EntriesAppend(Applied(live'[0].groups), Applied(live'[1].groups));
      PrefixesIncrease(Applied(live[0].groups), Applied(live[1].groups), Applied(live'[0].groups), Applied(live'[1].groups));
    }
  }

  // The last sequence number.

  lemma {:induction false} MaxInGroups(groups: seq<Group>, least: nat, limit: nat)
    requires least <= limit && forall g :: g in groups ==> g.first + |g.ops| <= limit + 1
    ensures least <= MaxSequence(groups, least) <= limit
    ensures forall i :: 0 <= i < |Applied(groups)| ==> Applied(groups)[i].0 <= MaxSequence(groups, least)
  {
    if groups != [] {
      MaxInGroups(groups[..|groups| - 1], least, limit);
    }
  }

  lemma {:induction false} MaxIsLast(logs: seq<LogFile>, least: nat, limit: nat)
    requires least <= limit && GroupsFit(logs, limit)
    ensures least <= MaxInLogs(logs, least) <= limit
    ensures forall i :: 0 <= i < |AppliedLogs(logs)| ==> AppliedLogs(logs)[i].0 <= MaxInLogs(logs, least)
  {
    if logs != [] {
      var front := logs[..|logs| - 1];
      MaxIsLast(front, least, limit);
      MaxInGroups(logs[|logs| - 1].groups, MaxInLogs(front, least), limit);
    }
  }

  lemma CutFits(logs: seq<LogFile>, logs': seq<LogFile>, limit: nat)
    requires GroupsFit(logs, limit) && AllCut(logs, logs')
    ensures GroupsFit(logs', limit)
  {
    forall i, g | 0 <= i < |logs'| && g in logs'[i].groups ensures 0 < g.first && g.first + |g.ops| <= limit + 1 {
      assert g in logs[i].groups;
    }
  }

  lemma LiveFits(st: State, live: seq<LogFile>, last: LogFile)
    requires LiveOk(st, live, last)
    ensures GroupsFit(live, st.lastSequence)
  {
  }

  lemma EntriesBelow(ps: seq<(nat, Batches.Operation)>, last: nat)
    requires forall i :: 0 <= i < |ps| ==> ps[i].0 <= last
    ensures forall e :: e in EntriesAt(ps) ==> e.key.sn <= last
  {
    hide OpOf;
    forall e | e in EntriesAt(ps) ensures e.key.sn <= last {
      var i :| 0 <= i < |ps| && ps[i].0 <= MAX_SEQUENCE_NUMBER && e == OpEntry(OpOf(ps[i].1), ps[i].0);
      EntryNumber(OpOf(ps[i].1), ps[i].0);
    }
  }

  /** The live logs after a crash. */
  ghost function LiveLogs(disk: Disk): seq<LogFile> {
    Live(disk.logs, LogNumber(disk.edits))
  }

  lemma FoundFacts(st: State, disk: Disk, names: Naming, disk1: Disk)
    requires Durable(st, disk, names) && Survives(disk, disk1)
    ensures |st.levels| == NUM_LEVELS && AllCut(LiveLogs(disk), LiveLogs(disk1))
    ensures Increasing(AppliedLogs(LiveLogs(disk1))) && EntriesAt(AppliedLogs(LiveLogs(disk1))) <= Source(st, 0) + Source(st, 1)
    ensures MaxInLogs(LiveLogs(disk1), 0) <= st.lastSequence
    ensures forall e :: e in EntriesAt(AppliedLogs(LiveLogs(disk1))) ==> e.key.sn <= MaxInLogs(LiveLogs(disk1), 0)
  {
    StartsDurable(st, disk, names);
    hide Inv, ManifestKeeps, LiveOk, NumberedLogs, Cut, EntriesAt, Increasing, LogNumber, GroupsFit;
    var least := LogNumber(disk.edits);
    LiveCut(disk.logs, disk1.logs, least);
    LastLive(disk.logs, least);
    CutLive(st, LiveLogs(disk), LiveLogs(disk1), disk.logs[|disk.logs| - 1]);
    LiveFits(st, LiveLogs(disk), disk.logs[|disk.logs| - 1]);
    CutFits(LiveLogs(disk), LiveLogs(disk1), st.lastSequence);
    MaxIsLast(LiveLogs(disk1), 0, st.lastSequence);
    EntriesBelow(AppliedLogs(LiveLogs(disk1)), MaxInLogs(LiveLogs(disk1), 0));
  }

  /** The numbers in the logs have been given out, and those stay below the limit. */
  lemma FoundFit(st: State, disk: Disk, names: Naming, disk1: Disk)
    requires Durable(st, disk, names) && Survives(disk, disk1)
    ensures forall i :: 0 <= i < |AppliedLogs(LiveLogs(disk1))| ==> AppliedLogs(LiveLogs(disk1))[i].0 <= MAX_SEQUENCE_NUMBER
  {
    FoundFacts(st, disk, names, disk1);
    LastBelow(st, disk, names);
    hide Durable, ManifestKeeps, LiveOk, NumberedLogs, Cut, EntriesAt, Increasing, LogNumber;
    FoundGroupsFit(st, disk, names, disk1);
    MaxIsLast(LiveLogs(disk1), 0, st.lastSequence);
  }

  lemma LastBelow(st: State, disk: Disk, names: Naming)
    requires Durable(st, disk, names)
    ensures st.lastSequence < MAX_SEQUENCE_NUMBER
  {
  }

  lemma FoundGroupsFit(st: State, disk: Disk, names: Naming, disk1: Disk)
    requires Durable(st, disk, names) && Survives(disk, disk1)
    ensures GroupsFit(LiveLogs(disk1), st.lastSequence)
  {
    StartsDurable(st, disk, names);
    hide Inv, ManifestKeeps, LiveOk, NumberedLogs, Cut, LogNumber, GroupsFit;
    LiveCut(disk.logs, disk1.logs, LogNumber(disk.edits));
    LiveFits(st, LiveLogs(disk), disk.logs[|disk.logs| - 1]);
    CutFits(LiveLogs(disk), LiveLogs(disk1), st.lastSequence);
  }

  // The state the store comes back in.

  /** The first file number the store uses when it comes back. */
  ghost function FirstNumber(disk: Disk): nat {
    var next := M.SettingsOf(disk.edits).nextFile;
    if next.Some? then next.value + 1 else 0
  }

  lemma KeptSettings(st: State, disk: Disk, names: Naming)
    requires Durable(st, disk, names)
    ensures |st.levels| == NUM_LEVELS && ManifestOk(st, disk.edits, names) && KnownSettings(M.SettingsOf(disk.edits))
    ensures SettingsOk(st, M.SettingsOf(disk.edits)) && Inv(st)
  {
  }

  lemma NumbersGoOn(st: State, disk: Disk, names: Naming, disk1: Disk, chunks: seq<seq<(nat, Batches.Operation)>>, last: nat)
    requires Durable(st, disk, names) && Survives(disk, disk1) && Joined(chunks) == AppliedLogs(LiveLogs(disk1))
    requires M.SettingsOf(disk.edits).lastSequence.Some? ==> M.SettingsOf(disk.edits).lastSequence.value <= last
    requires MaxInLogs(LiveLogs(disk1), 0) <= last
    ensures Reopenable(st, chunks, FirstNumber(disk), last)
  {
    KeptSettings(st, disk, names);
    FoundFacts(st, disk, names, disk1);
    hide Durable, Survives, ManifestOk, M.SettingsOf, EntriesAt, Increasing, AppliedLogs, Joined, Inv, LiveLogs, MaxInLogs;
  }

  lemma BackInLevels(st: State, disk1: Disk, names: Naming, r: Recovered, st': State)
    requires CameBack(disk1, names, r, st') && r.levels == st.levels && st'.lastSequence < MAX_SEQUENCE_NUMBER
    ensures Reopens(st, r.chunks, r.files, FirstNumber(disk1), st')
  {
    hide M.SettingsOf, M.Replayed, Tabled, Joined, Installs, AppliedLogs, Live, MaxInLogs;
  }

  /** The levels are there again, with the tables of the logs on top. */
  lemma ComesBack(st: State, disk: Disk, names: Naming, disk1: Disk, r: Recovered, st': State)
    requires Durable(st, disk, names) && Survives(disk, disk1) && CameBack(disk1, names, r, st')
    ensures Reopenable(st, r.chunks, FirstNumber(disk), st'.lastSequence) && Reopens(st, r.chunks, r.files, FirstNumber(disk), st')
    ensures r.levels == st.levels && st'.lastSequence <= st.lastSequence && Joined(r.chunks) == AppliedLogs(LiveLogs(disk1))
  {
    KeptSettings(st, disk, names);
    FoundFacts(st, disk, names, disk1);
    hide Durable, ManifestOk, M.SettingsOf, M.Replayed, Tabled, EntriesAt, Increasing, AppliedLogs, Joined, Shape, SourceOrder, Level0Order,
         NumbersDistinct, Installs, Reopenable, Reopens, MaxInLogs, Live, Cut, FirstNumber, Source;
    SameVersion(st, disk.edits, names, r.levels);
    NumbersGoOn(st, disk, names, disk1, r.chunks, st'.lastSequence);
    BackInLevels(st, disk1, names, r, st');
    SameFirstNumber(disk, disk1);
  }

  lemma SameFirstNumber(disk: Disk, disk1: Disk)
    requires Survives(disk, disk1)
    ensures FirstNumber(disk1) == FirstNumber(disk)
  {
  }

  // What is written then.

  lemma SnapshotHas(edit: M.Edit, names: Naming, levels: seq<seq<File>>, l: nat, n: nat)
    requires |levels| == NUM_LEVELS && SnapshotEdit(edit, names, levels) && l < NUM_LEVELS
    ensures n in (set p | p in M.Resolved(edit, names.resolve).added && p.0 == l :: p.1.number) <==> n in Numbers(levels[l])
  {
    var added := M.Resolved(edit, names.resolve).added;
    if n in Numbers(levels[l]) {
      var f :| f in levels[l] && f.number == n;
      assert (l, f) in added && (l, f).1.number == n;
    }
  }

  lemma SnapshotLevel(edit: M.Edit, names: Naming, levels: seq<seq<File>>, l: nat)
    requires |levels| == NUM_LEVELS && SnapshotEdit(edit, names, levels) && l < NUM_LEVELS
    ensures AfterEdit({}, M.Resolved(edit, names.resolve), l) == Members(levels[l])
    ensures M.NumbersAfter([], [M.Resolved(edit, names.resolve)], l) == Numbers(levels[l])
  {
    var resolved := M.Resolved(edit, names.resolve);
    forall f ensures f in AfterEdit({}, resolved, l) <==> f in Members(levels[l]) {
      if f in levels[l] { assert (l, f) in resolved.added && (l, f).1 == f; }
    }
    NumbersNext([], resolved, l);
    assert [] + [resolved] == [resolved];
    forall n ensures n in M.NumbersAfter([], [resolved], l) <==> n in Numbers(levels[l]) {
      SnapshotHas(edit, names, levels, l, n);
    }
  }

  lemma ListedFresh(st: State, added: seq<(nat, File)>, l: nat)
    requires |st.levels| == NUM_LEVELS && NumbersDistinct(st) && l < NUM_LEVELS
    requires forall p :: p in added ==> p.0 < NUM_LEVELS && p.1 in st.levels[p.0]
    requires forall i, j :: 0 <= i < j < |added| ==> added[i] != added[j]
    ensures Fresh({}, added, l)
  {
    forall j, i | 0 <= i < j < |added| ensures added[i].0 == l && added[j].0 == l ==> added[i].1.number != added[j].1.number {
      assert added[i] in added && added[j] in added;
      assert added[i] == (added[i].0, added[i].1) && added[j] == (added[j].0, added[j].1);
      NumberNames(st, added[i].0, added[i].1, added[j].0, added[j].1);
    }
  }

  lemma SnapshotFresh(st: State, edit: M.Edit, names: Naming)
    requires |st.levels| == NUM_LEVELS && NumbersDistinct(st) && SnapshotEdit(edit, names, st.levels)
    ensures FreshFor([], M.Resolved(edit, names.resolve).added) && M.LevelsOk(M.Resolved(edit, names.resolve))
  {
    hide NumbersDistinct, Fresh;
    var added := M.Resolved(edit, names.resolve).added;
    forall l | 0 <= l < NUM_LEVELS ensures Fresh(M.NumbersAfter([], [], l), added, l) {
      ListedFresh(st, added, l);
      assert M.NumbersAfter([], [], l) == {};
    }
  }

  /** The snapshot stands for the version it was made of. */
  lemma SnapshotKeeps(st: State, edit: M.Edit, names: Naming)
    requires |st.levels| == NUM_LEVELS && NumbersDistinct(st) && SnapshotEdit(edit, names, st.levels)
    requires forall l :: 0 <= l < NUM_LEVELS ==> Ordered(st.levels[l])
    ensures ManifestOk(st, [edit], names)
  {
    hide NumbersDistinct, Ordered, SnapshotEdit;
    SnapshotFresh(st, edit, names);
    var all, resolved := M.ResolvedAll([edit], names.resolve), M.Resolved(edit, names.resolve);
    ResolvedNext([], edit, names);
    assert [] + [edit] == [edit] && M.ResolvedAll([], names.resolve) == [] && all == [resolved];
    NothingGood(names);
    SnapshotIsEdit(edit, names, st.levels);
    GoodNext([], edit, names);
    forall l | 0 <= l < NUM_LEVELS ensures Members(st.levels[l]) == Replay(Members(NO_FILES[l]), [resolved], l) {
      SnapshotLevel(edit, names, st.levels, l);
      ReplayNext({}, [], resolved, l);
      assert [] + [resolved] == [resolved] && Members(NO_FILES[l]) == {};
    }
    SnapshotUses(st, edit, names);
  }

  lemma SnapshotIsEdit(edit: M.Edit, names: Naming, levels: seq<seq<File>>)
    requires |levels| == NUM_LEVELS && SnapshotEdit(edit, names, levels)
    ensures M.Encodable(edit) && edit.comparator == Some(names.comparator)
  {
  }

  lemma NothingGood(names: Naming)
    ensures M.GoodEdits(NO_FILES, [], names.resolve, names.comparator)
  {
  }

  lemma SnapshotUses(st: State, edit: M.Edit, names: Naming)
    requires |st.levels| == NUM_LEVELS && NumbersDistinct(st) && SnapshotEdit(edit, names, st.levels)
    ensures NumbersUsed(st, [M.Resolved(edit, names.resolve)])
  {
    hide SnapshotEdit, M.Resolved;
    var resolved := M.Resolved(edit, names.resolve);
    forall l, n | 0 <= l < NUM_LEVELS && n in M.NumbersAfter([], [resolved], l)
      ensures n < st.nextFile && forall m, f :: 0 <= m < NUM_LEVELS && f in st.levels[m] && f.number == n ==> l <= m
    {
      SnapshotLevel(edit, names, st.levels, l);
      var g :| g in st.levels[l] && g.number == n;
      forall m, f | 0 <= m < NUM_LEVELS && f in st.levels[m] && f.number == n ensures l <= m {
        NumberNames(st, m, f, l, g);
      }
    }
  }

  lemma SnapshotSettings(snapshot: M.Edit, edit: M.Edit, names: Naming, levels: seq<seq<File>>, log: nat, st': State)
    requires |levels| == NUM_LEVELS && SnapshotEdit(snapshot, names, levels) && EditSets(edit, log, st') && Inv(st')
    ensures SettingsOk(st', M.SettingsOf([snapshot, edit])) && LogNumber([snapshot, edit]) == log
  {
    SettingsNext(st', [snapshot], edit, log, st');
    assert [snapshot] + [edit] == [snapshot, edit];
  }

  /** What the edit adds is numbered past everything in the snapshot. */
  lemma RewrittenUses(st: State, edits: seq<VersionEdit>, edit: VersionEdit, files: seq<File>, st': State)
    requires |st.levels| == NUM_LEVELS && NumbersUsed(st, edits) && edit.added == Additions(0, files)
    requires Installs(st.levels, st'.levels, 0, [], [], files) && NumbersDistinct(st') && st.nextFile <= st'.nextFile
    requires forall o :: o in files ==> o.number >= st.nextFile
    requires forall f, g :: f in files && g in files && f.number == g.number ==> f == g
    requires forall i, j :: 0 <= i < j < |files| ==> files[i] != files[j]
    ensures FreshFor(edits, Additions(0, files)) && NumbersUsed(st', edits + [edit])
  {
    hide M.NumbersAfter;
    UsedNext(st, edits, edit, 0, [], [], files, st');
    var added := Additions(0, files);
    forall l | 0 <= l < NUM_LEVELS ensures Fresh(M.NumbersAfter([], edits, l), added, l) {
      forall j | 0 <= j < |added| && added[j].0 == l
        ensures added[j].1.number !in M.NumbersAfter([], edits, l) && forall i :: 0 <= i < j && added[i].0 == l ==> added[i].1.number != added[j].1.number
      {
        assert files[j] in files;
        forall i | 0 <= i < j ensures added[i].1.number != added[j].1.number {
          assert files[i] in files && files[i] != files[j];
        }
      }
    }
  }

  lemma {:induction false} TabledApart(chunks: seq<seq<(nat, Batches.Operation)>>, files: seq<File>, first: nat)
    requires Tabled(chunks, files, first)
    ensures forall i, j :: 0 <= i < j < |files| ==> files[i] != files[j]
    decreases |chunks|
  {
    hide EntriesAt, WellFormed;
    if chunks != [] {
      var front, last := chunks[..|chunks| - 1], chunks[|chunks| - 1];
      if EntriesAt(last) == {} {
        TabledApart(front, files, first);
      } else {
        TabledApart(front, files[..|files| - 1], first);
        forall i, j | 0 <= i < j < |files| ensures files[i] != files[j] {
          assert i < |files| - 1 ==> files[i] in files[..|files| - 1];
        }
      }
    }
  }

  /** The manifest written then stands for the state the store came back in. */
  lemma RewrittenKeeps(st: State, chunks: seq<seq<(nat, Batches.Operation)>>, files: seq<File>, first: nat, names: Naming,
                       snapshot: M.Edit, edit: M.Edit, log: nat, st': State)
    requires |st.levels| == NUM_LEVELS && NumbersDistinct(st) && first == st.nextFile && Inv(st')
    requires forall l :: 0 <= l < NUM_LEVELS ==> Ordered(st.levels[l])
    requires Increasing(Joined(chunks)) && Reopens(st, chunks, files, first, st')
    requires SnapshotEdit(snapshot, names, st.levels) && EditFor(edit, names, 0, [], [], files) && EditSets(edit, log, st')
    ensures ManifestKeeps(st', [snapshot, edit], names) && LogNumber([snapshot, edit]) == log
  {
    TabledFacts(chunks, files, first);
    TabledApart(chunks, files, first);
    InvShape(st');
    SnapshotKeeps(st, snapshot, names);
    SnapshotSettings(snapshot, edit, names, st.levels, log, st');
    hide Inv, NumbersDistinct, Ordered, Increasing, Tabled, SnapshotEdit, M.GoodEdits, M.Replayed, NumbersUsed, FreshFor, Additions, WellFormed,
         M.SettingsOf, SettingsOk, LogNumber, Installs, EditSets, M.Resolved, M.Encodable, M.LevelsOk, Newer, Joined;
    ResolvedNext([], snapshot, names);
    assert [] + [snapshot] == [snapshot] && [snapshot] + [edit] == [snapshot, edit];
    RewrittenUses(st, M.ResolvedAll([snapshot], names.resolve), M.Resolved(edit, names.resolve), files, st');
    ManifestNext(st, [snapshot], edit, names, 0, [], [], files, st');
  }

  lemma EmptyLive(st: State, last: LogFile)
    requires st.mem == [] && st.imm == None && last.groups == []
    ensures LiveOk(st, [last], last)
  {
    AppliedOneLog(last);
    NothingLogged();
    hide EntriesAt;
  }

  lemma EmptyLast(logs: seq<LogFile>, limit: nat)
    requires logs != []
    requires logs[|logs| - 1].synced == 0 && 0 < logs[|logs| - 1].number < limit
    requires NumberedLogs(logs[..|logs| - 1], logs[|logs| - 1].number)
    ensures NumberedLogs(logs, limit) && Live(logs[..|logs| - 1], logs[|logs| - 1].number) == []
  {
    OldLogsAreDead(logs[..|logs| - 1], logs[|logs| - 1].number);
  }

  lemma NewLogOnly(logs: seq<LogFile>, st': State)
    requires logs != [] && st'.mem == [] && st'.imm == None
    requires logs[|logs| - 1].groups == [] && logs[|logs| - 1].synced == 0 && 0 < logs[|logs| - 1].number < st'.nextFile
    requires NumberedLogs(logs[..|logs| - 1], logs[|logs| - 1].number)
    ensures LogsOk(st', logs, logs[|logs| - 1].number)
  {
    hide LiveOk, NumberedLogs;
    var front, last := logs[..|logs| - 1], logs[|logs| - 1];
    EmptyLast(logs, st'.nextFile);
    LastLive(logs, last.number);
    assert [] + [last] == [last];
    EmptyLive(st', last);
  }

  /** A store with the numbers it goes on with, but otherwise as it was. */
  function Renumbered(st: State, first: nat): State { st.(nextFile := first) }

  lemma RenumberedFacts(st: State, disk: Disk, names: Naming)
    requires Durable(st, disk, names)
    ensures var mid := Renumbered(st, FirstNumber(disk));
      |mid.levels| == NUM_LEVELS && NumbersDistinct(mid) && forall l :: 0 <= l < NUM_LEVELS ==> Ordered(mid.levels[l])
  {
    KeptSettings(st, disk, names);
    hide Durable, ManifestOk, SourceOrder, Level0Order, Bounded, M.SettingsOf;
    var mid := Renumbered(st, FirstNumber(disk));
    forall l, f, m, g | 0 <= l < NUM_LEVELS && 0 <= m < NUM_LEVELS && f in mid.levels[l] && g in mid.levels[m] && SameNumber(f, g)
      ensures l == m && f == g
    {
      NumberNames(st, l, f, m, g);
    }
  }

  /** What was written anew. */
  lemma RewrittenParts(disk1: Disk, names: Naming, r: Recovered, st': State, disk': Disk)
    requires Reopened(disk1, names, r, st', disk')
    ensures |r.levels| == NUM_LEVELS && disk'.logs != [] && |disk'.edits| == 2 && disk'.edits == [disk'.edits[0], disk'.edits[1]]
    ensures SnapshotEdit(disk'.edits[0], names, r.levels) && EditFor(disk'.edits[1], names, 0, [], [], r.files)
    ensures EditSets(disk'.edits[1], disk'.logs[|disk'.logs| - 1].number, st') && LogsOk(st', disk'.logs, disk'.logs[|disk'.logs| - 1].number)
  {
    hide M.SettingsOf, M.Replayed, Tabled, AppliedLogs, Joined, SnapshotEdit, Installs, EditFor, EditSets, NumberedLogs, MaxInLogs, Live, LogsOk;
    NewLogOnly(disk'.logs, st');
  }

  lemma MovedOn(st: State, chunks: seq<seq<(nat, Batches.Operation)>>, files: seq<File>, first: nat, last: nat, st': State)
    requires Reopenable(st, chunks, first, last) && Reopens(st, chunks, files, first, st')
    ensures Increasing(Joined(chunks)) && Reopens(Renumbered(st, first), chunks, files, first, st')
  {
  }

  /** MAIN: after a crash at any moment, whatever was cut off behind the last sync of each log, the store
      comes back in a state with the invariant, and the disk stands for that state, so that it may go on
      and crash again. */
  lemma ReopenDurable(st: State, disk: Disk, names: Naming, disk1: Disk, r: Recovered, st': State, disk': Disk)
    requires Durable(st, disk, names) && Survives(disk, disk1) && Reopened(disk1, names, r, st', disk')
    ensures Durable(st', disk', names)
  {
    hide Durable, Survives, CameBack, Rewritten, Reopenable, Reopens, Joined, Increasing, Inv, NumbersDistinct, Ordered, SnapshotEdit, EditFor, EditSets,
         LogsOk, ManifestKeeps, LogNumber, All, Source, FirstNumber, EntriesAt;
    var first := FirstNumber(disk);
    ComesBack(st, disk, names, disk1, r, st');
    ReopenedInv(st, r.chunks, r.files, first, st');
    RenumberedFacts(st, disk, names);
    RewrittenParts(disk1, names, r, st', disk');
    MovedOn(st, r.chunks, r.files, first, st'.lastSequence, st');
    var log := disk'.logs[|disk'.logs| - 1].number;
    RewrittenKeeps(Renumbered(st, first), r.chunks, r.files, first, names, disk'.edits[0], disk'.edits[1], log, st');
    IsDurable(st', disk', names);
  }

  lemma IsDurable(st: State, disk: Disk, names: Naming)
    requires Inv(st) && ManifestKeeps(st, disk.edits, names) && LogsOk(st, disk.logs, LogNumber(disk.edits))
    ensures Durable(st, disk, names)
  {
  }

  /** A store that has just been created (NewDB), with its first log. */
  function NewStore(log: nat): State {
    INITIAL.(nextFile := log + 1)
  }

  lemma NewStoreInv(log: nat)
    ensures Inv(NewStore(log)) && NewStore(log).levels == NO_FILES && forall l :: 0 <= l < NUM_LEVELS ==> Ordered(NO_FILES[l])
  {
    hide Inv;
    EmptyInv(log + 1);
  }

  lemma NewStoreReopens(log: nat)
    ensures Reopens(NewStore(log).(nextFile := log), [], [], log, NewStore(log)) && Increasing(Joined([]))
  {
  }

  /** The runs with crashes may begin there: its disk stands for it. */
  lemma NewStoreDurable(log: nat, names: Naming, snapshot: M.Edit, edit: M.Edit)
    requires log > 0 && SnapshotEdit(snapshot, names, NO_FILES) && EditFor(edit, names, 0, [], [], []) && EditSets(edit, log, NewStore(log))
    ensures Durable(NewStore(log), Disk([snapshot, edit], [LogFile(log, [], 0)]), names)
  {
    var st := NewStore(log);
    NewStoreInv(log);
    NewStoreReopens(log);
    hide SnapshotEdit, EditFor, EditSets, Ordered, Inv, ManifestKeeps, LogsOk, Reopens, Increasing, Joined, LogNumber;
    var before := st.(nextFile := log);
    assert NumbersDistinct(before);
    RewrittenKeeps(before, [], [], log, names, snapshot, edit, log, st);
    var logs := [LogFile(log, [], 0)];
    assert logs[..|logs| - 1] == [];
    NewLogOnly(logs, st);
    IsDurable(st, Disk([snapshot, edit], logs), names);
  }

  // What is still there.

  /** The part of a log that is known to be on the device. */
  function SyncedPart(log: LogFile): LogFile {
    log.(groups := if log.synced <= |log.groups| then log.groups[..log.synced] else log.groups)
  }

  function SyncedParts(logs: seq<LogFile>): (r: seq<LogFile>)
    ensures |r| == |logs| && forall i :: 0 <= i < |r| ==> r[i] == SyncedPart(logs[i])
  {
    seq(|logs|, i requires 0 <= i < |logs| => SyncedPart(logs[i]))
  }

  /** The entries that no crash can take: those of synced groups. */
  ghost function SyncedEntries(disk: Disk): set<Entry> {
    SyncedLogs(disk.logs, LogNumber(disk.edits))
  }

  ghost function SyncedLogs(logs: seq<LogFile>, least: nat): set<Entry> {
    EntriesAt(AppliedLogs(SyncedParts(Live(logs, least))))
  }

  lemma {:induction false} PartsApplied(logs: seq<LogFile>, logs': seq<LogFile>)
    requires |logs| == |logs'| && forall i :: 0 <= i < |logs| ==> logs[i].groups <= logs'[i].groups
    ensures EntriesAt(AppliedLogs(logs)) <= EntriesAt(AppliedLogs(logs'))
  {
    hide EntriesAt, Applied;
    if logs != [] {
      var front, front', log, log' := logs[..|logs| - 1], logs'[..|logs| - 1], logs[|logs| - 1], logs'[|logs| - 1];
      PartsApplied(front, front');
      AppliedPrefix(log'.groups, |log.groups|);
      assert log'.groups[..|log.groups|] == log.groups;
      PrefixEntries(Applied(log'.groups), Applied(log.groups));
      EntriesAppend(AppliedLogs(front), Applied(log.groups));
      EntriesAppend(AppliedLogs(front'), Applied(log'.groups));
    }
  }

  lemma SyncedIsFound(st: State, disk: Disk, names: Naming, disk1: Disk)
    requires Durable(st, disk, names) && Survives(disk, disk1)
    ensures SyncedEntries(disk) <= EntriesAt(AppliedLogs(LiveLogs(disk1)))
  {
    FoundFacts(st, disk, names, disk1);
    hide Durable, EntriesAt, AppliedLogs, Live, LogNumber;
    PartsApplied(SyncedParts(LiveLogs(disk)), LiveLogs(disk1));
  }

  /** MAIN: a read whose answer is in a table or in a synced group gives the same result after the crash. */
  lemma CrashReads(st: State, disk: Disk, names: Naming, disk1: Disk, r: Recovered, st': State, user: UserKey, s: nat)
    requires Durable(st, disk, names) && Survives(disk, disk1) && CameBack(disk1, names, r, st')
    requires |st.levels| == NUM_LEVELS && SafeRead(st, SyncedEntries(disk), user, s)
    ensures |st'.levels| == NUM_LEVELS && Read(All(st'), user, s) == Read(All(st), user, s)
    ensures forall e :: Visible(All(st'), user, s, e) <==> Visible(All(st), user, s, e)
  {
    hide Durable, Survives, CameBack, Reopenable, Reopens, Joined, EntriesAt, AppliedLogs, SyncedEntries, FirstNumber, All, Read, Visible, Source, LiveLogs;
    ComesBack(st, disk, names, disk1, r, st');
    SyncedIsFound(st, disk, names, disk1);
    ReopenedRead(st, r.chunks, r.files, FirstNumber(disk), st', user, s);
  }
}
