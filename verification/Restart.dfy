/** Opening a store after a crash (DBImpl::Recover and DB::Open in db/db_impl.cc): from the bytes of the
    manifest and of the logs, wherever the crash cut them, back to a state of the store. */
module Restart {
  import opened Wrappers
  import opened Coding
  import opened DbFormat
  import opened Versions
  import opened VersionBuilder
  import opened States
  import opened Steps
  import opened StepInvariant
  import opened Store
  import opened Recovery
  import opened Reopening
  import opened Durability
  import opened Crashes
  import opened ReplayedWrites
  import opened ByteKeys
  import Batches
  import Log
  import M = Manifest

  // Log files by number.
  type Directory = map<nat, Bytes>

  /** The bytes of a log: its records, cut behind the last sync. */
  ghost predicate LogBytes(crc: Checksum, log: LogFile, records: seq<Bytes>, bytes: Bytes) {
    && Logged(records, log.groups) && log.synced <= |records|
    && bytes <= Log.Layout(crc, 0, records) && |Log.Layout(crc, 0, records[..log.synced])| <= |bytes|
  }

  ghost predicate AllBytes(crc: Checksum, logs: seq<LogFile>, records: map<nat, seq<Bytes>>, dir: Directory) {
    forall i :: 0 <= i < |logs| ==>
      logs[i].number in dir && logs[i].number in records && LogBytes(crc, logs[i], records[logs[i].number], dir[logs[i].number])
  }

  /** The bytes of a manifest: its edits, and at most part of those being written. */
  ghost predicate ManifestBytes(crc: Checksum, edits: seq<M.Edit>, pending: seq<M.Edit>, names: Naming, bytes: Bytes) {
    && M.GoodEdits(NO_FILES, edits + pending, names.resolve, names.comparator)
    && bytes <= Log.Layout(crc, 0, M.Encodings(edits + pending))
    && Log.WholeRecords(crc, 0, M.Encodings(edits + pending), |bytes|) == |edits|
  }

  /** What is left of a log. */
  ghost function CutLog(crc: Checksum, log: LogFile, records: map<nat, seq<Bytes>>, dir: Directory): LogFile {
    if log.number in dir && log.number in records then
      var n := Log.WholeRecords(crc, 0, records[log.number], |dir[log.number]|);
      log.(groups := if n <= |log.groups| then log.groups[..n] else log.groups)
    else log
  }

  ghost function CutLogs(crc: Checksum, logs: seq<LogFile>, records: map<nat, seq<Bytes>>, dir: Directory): (r: seq<LogFile>)
    ensures |r| == |logs| && forall i :: 0 <= i < |r| ==> r[i] == CutLog(crc, logs[i], records, dir)
  {
    seq(|logs|, i requires 0 <= i < |logs| => CutLog(crc, logs[i], records, dir))
  }

  ghost function CutDisk(crc: Checksum, disk: Disk, records: map<nat, seq<Bytes>>, dir: Directory): Disk {
    disk.(logs := CutLogs(crc, disk.logs, records, dir))
  }

  lemma CutSurvives(crc: Checksum, disk: Disk, records: map<nat, seq<Bytes>>, dir: Directory)
    requires AllBytes(crc, disk.logs, records, dir)
    ensures Survives(disk, CutDisk(crc, disk, records, dir))
  {
    hide Log.Layout, Log.WholeRecords;
    forall i | 0 <= i < |disk.logs| ensures Cut(disk.logs[i], CutLog(crc, disk.logs[i], records, dir)) {
      var log := disk.logs[i];
      var n := Log.WholeRecords(crc, 0, records[log.number], |dir[log.number]|);
      SyncedGroupsSurvive(crc, records[log.number], log.groups, log.synced, |dir[log.number]|);
      assert |log.groups[..log.synced]| <= |log.groups[..n]|;
    }
  }

  lemma CutNumber(crc: Checksum, log: LogFile, records: map<nat, seq<Bytes>>, dir: Directory)
    ensures CutLog(crc, log, records, dir).number == log.number
  {
  }

  lemma {:induction false} LiveOfCut(crc: Checksum, logs: seq<LogFile>, records: map<nat, seq<Bytes>>, dir: Directory, least: nat)
    ensures Live(CutLogs(crc, logs, records, dir), least) == CutLogs(crc, Live(logs, least), records, dir)
  {
    hide CutLog;
    var cut := CutLogs(crc, logs, records, dir);
    if logs != [] {
      CutNumber(crc, logs[|logs| - 1], records, dir);
      assert cut[..|logs| - 1] == CutLogs(crc, logs[..|logs| - 1], records, dir);
      LiveOfCut(crc, logs[..|logs| - 1], records, dir, least);
    }
  }

  // Which logs are replayed, and in what order.

  ghost predicate Rising(ns: seq<nat>) {
    forall i, j :: 0 <= i < j < |ns| ==> ns[i] < ns[j]
  }

  function InsertNumber(ns: seq<nat>, n: nat): (r: seq<nat>)
    requires Rising(ns) && n !in ns
    ensures Rising(r) && forall m :: m in r <==> m in ns || m == n
  {
    if ns == [] then [n]
    else if ns[|ns| - 1] < n then ns + [n]
    else
      assert ns == ns[..|ns| - 1] + [ns[|ns| - 1]];
      var front := InsertNumber(ns[..|ns| - 1], n);
      assert forall i :: 0 <= i < |front| ==> front[i] in front;
      front + [ns[|ns| - 1]]
  }

  /** The logs the manifest does not cover, sorted. */
  method LogsToReplay(children: seq<nat>, minLog: nat, prevLog: nat) returns (logs: seq<nat>)
    requires forall i, j :: 0 <= i < j < |children| ==> children[i] != children[j]
    ensures Rising(logs) && forall n :: n in logs <==> n in children && (n >= minLog || n == prevLog)
  {
    logs := [];
    for i := 0 to |children|
      invariant Rising(logs) && forall n :: n in logs <==> n in children[..i] && (n >= minLog || n == prevLog)
    {
      assert children[..i + 1] == children[..i] + [children[i]];
      if children[i] >= minLog || children[i] == prevLog {
        logs := InsertNumber(logs, children[i]);
      }
    }
    assert children[..|children|] == children;
  }

  ghost function NumbersOf(logs: seq<LogFile>): (r: seq<nat>)
    ensures |r| == |logs| && forall i :: 0 <= i < |r| ==> r[i] == logs[i].number
  {
    seq(|logs|, i requires 0 <= i < |logs| => logs[i].number)
  }

  lemma LastIsGreatest(front: seq<nat>, last: nat)
    requires Rising(front + [last])
    ensures Rising(front) && last in front + [last] && forall n :: n in front <==> n in front + [last] && n < last
  {
    var ns := front + [last];
    assert ns[|front|] == last;
    assert forall i :: 0 <= i < |front| ==> ns[i] == front[i];
  }

  lemma FirstIsIn(ns: seq<nat>)
    ensures ns != [] ==> ns[0] in ns
  {
  }

  lemma {:induction false} RisingUnique(a: seq<nat>, b: seq<nat>)
    requires Rising(a) && Rising(b) && forall n :: n in a <==> n in b
    ensures a == b
  {
    if a == [] {
      FirstIsIn(b);
    } else {
      assert a[0] in a;
      var a', x, b', y := a[..|a| - 1], a[|a| - 1], b[..|b| - 1], b[|b| - 1];
      assert a == a' + [x] && b == b' + [y];
      LastIsGreatest(a', x);
      LastIsGreatest(b', y);
      hide Rising;
      assert x in b && y in a;
      assert x == y;
      RisingUnique(a', b');
    }
  }

  lemma {:induction false} LiveNumbers(logs: seq<LogFile>, least: nat, limit: nat)
    requires NumberedLogs(logs, limit)
    ensures Rising(NumbersOf(Live(logs, least)))
    ensures forall n :: n in NumbersOf(Live(logs, least)) <==> n >= least && exists i :: 0 <= i < |logs| && logs[i].number == n
    ensures forall i :: 0 <= i < |Live(logs, least)| ==> Live(logs, least)[i] in logs
  {
    if logs != [] {
      var front, last := logs[..|logs| - 1], logs[|logs| - 1];
      LiveNumbers(front, least, limit);
      var before := Live(front, least);
      forall i | 0 <= i < |before| ensures before[i].number < last.number {
        assert before[i] in front;
      }
      forall n ensures n in NumbersOf(Live(logs, least)) <==> n in NumbersOf(before) || (n == last.number && n >= least) {
        if last.number >= least {
          assert NumbersOf(Live(logs, least)) == NumbersOf(before) + [last.number];
        }
      }
      assert forall i :: 0 <= i < |front| ==> logs[i] == front[i];
    }
  }

  // Tables for what the logs held.

  /** Numbers as a log hands them out: no entry comes twice. */
  ghost predicate Insertable(ps: seq<(nat, Batches.Operation)>) {
    Increasing(ps) && forall i :: 0 <= i < |ps| ==> ps[i].0 <= MAX_SEQUENCE_NUMBER
  }

  lemma NextEntry(ps: seq<(nat, Batches.Operation)>, i: nat)
    requires Insertable(ps) && i < |ps|
    ensures EntriesAt(ps[..i + 1]) == EntriesAt(ps[..i]) + {OpEntry(OpOf(ps[i].1), ps[i].0)}
    ensures forall e :: e in EntriesAt(ps[..i]) ==> e.key.sn < ps[i].0
    ensures OpEntry(OpOf(ps[i].1), ps[i].0).key.sn == ps[i].0
  {
    hide OpOf;
    assert ps[..i + 1] == ps[..i] + [ps[i]];
    EntriesAppend(ps[..i], [ps[i]]);
    forall e ensures e in EntriesAt([ps[i]]) <==> e == OpEntry(OpOf(ps[i].1), ps[i].0) {
      assert [ps[i]][0] == ps[i];
    }
    if i == 0 { NothingTabled(); } else { EntriesBefore(ps[..i], ps[i].0); }
  }

  lemma EntriesBefore(ps: seq<(nat, Batches.Operation)>, n: nat)
    requires forall i :: 0 <= i < |ps| ==> ps[i].0 < n
    ensures forall e :: e in EntriesAt(ps) ==> e.key.sn < n
  {
    hide OpOf;
    forall e | e in EntriesAt(ps) ensures e.key.sn < n {
      var i :| 0 <= i < |ps| && ps[i].0 <= MAX_SEQUENCE_NUMBER && e == OpEntry(OpOf(ps[i].1), ps[i].0);
      EntryNumber(OpOf(ps[i].1), ps[i].0);
    }
  }

  /** A memtable filled with the operations. */
  method FillMemTable(ps: seq<(nat, Batches.Operation)>) returns (mem: seq<Entry>)
    requires Insertable(ps)
    ensures Sorted(mem) && Entries(mem) == EntriesAt(ps)
  {
    hide OpOf, OpEntry, Increasing, EntriesAt, Sorted;
    NothingThere();
    assert ps[..0] == [];
    mem := [];
    for i := 0 to |ps|
      invariant Sorted(mem) && Entries(mem) == EntriesAt(ps[..i])
    {
      NextEntry(ps, i);
      mem := InsertEntry(mem, OpEntry(OpOf(ps[i].1), ps[i].0));
    }
    assert ps[..|ps|] == ps;
  }

  lemma NothingThere()
    ensures Sorted([]) && Entries([]) == {} && EntriesAt([]) == {}
  {
  }

  lemma EmptyTabled(chunks: seq<seq<(nat, Batches.Operation)>>, chunk: seq<(nat, Batches.Operation)>, files: seq<File>, first: nat)
    requires Tabled(chunks, files, first) && EntriesAt(chunk) == {}
    ensures Tabled(chunks + [chunk], files, first)
  {
    hide EntriesAt;
    assert (chunks + [chunk])[..|chunks|] == chunks;
  }

  lemma OneMoreTabled(chunks: seq<seq<(nat, Batches.Operation)>>, chunk: seq<(nat, Batches.Operation)>, files: seq<File>, f: File, first: nat)
    requires Tabled(chunks, files, first) && EntriesAt(chunk) != {} && first <= f.number && TableOf(chunk, f)
    requires forall g :: g in files ==> g.number < f.number
    ensures Tabled(chunks + [chunk], files + [f], first)
  {
    hide EntriesAt, TableOf;
    assert (chunks + [chunk])[..|chunks|] == chunks && (files + [f])[..|files|] == files;
  }

  /** WriteLevel0Table for no version: the table goes to level 0, and an empty one is not kept. */
  method WriteLevel0Table(chunk: seq<(nat, Batches.Operation)>, files: seq<File>, next: nat, sizeOf: seq<Entry> -> nat,
                          ghost chunks: seq<seq<(nat, Batches.Operation)>>, ghost first: nat)
    returns (files': seq<File>, next': nat)
    requires Insertable(chunk) && Tabled(chunks, files, first) && first <= next && forall f :: f in files ==> f.number < next
    ensures Tabled(chunks + [chunk], files', first) && next' == next + 1 && forall f :: f in files' ==> f.number < next'
  {
    hide EntriesAt, Sorted, Increasing, Tabled;
    var es := FillMemTable(chunk);
    next' := next + 1;
    if es == [] {
      EmptyTabled(chunks, chunk, files, first);
      files' := files;
    } else {
      var f := File(next, sizeOf(es), es[0].key, es[|es| - 1].key, es);
      assert es[0] in Entries(es);
      OneMoreTabled(chunks, chunk, files, f, first);
      files' := files + [f];
    }
  }

  lemma {:induction false} PartsInsertable(chunks: seq<seq<(nat, Batches.Operation)>>)
    requires Insertable(Joined(chunks))
    ensures forall i :: 0 <= i < |chunks| ==> Insertable(chunks[i])
  {
    if chunks != [] {
      var front, last := chunks[..|chunks| - 1], chunks[|chunks| - 1];
      SplitInsertable(Joined(front), last);
      PartsInsertable(front);
    }
  }

  lemma SplitInsertable(a: seq<(nat, Batches.Operation)>, b: seq<(nat, Batches.Operation)>)
    requires Insertable(a + b)
    ensures Insertable(a) && Insertable(b)
  {
    var ab := a + b;
    assert forall i :: 0 <= i < |a| ==> ab[i] == a[i];
    assert forall i :: 0 <= i < |b| ==> ab[|a| + i] == b[i];
  }

  lemma {:induction false} LogsInsertable(logs: seq<LogFile>)
    requires Insertable(AppliedLogs(logs))
    ensures forall i :: 0 <= i < |logs| ==> Insertable(Applied(logs[i].groups))
  {
    hide Applied, Insertable;
    if logs != [] {
      var front, last := logs[..|logs| - 1], logs[|logs| - 1];
      SplitInsertable(AppliedLogs(front), Applied(last.groups));
      LogsInsertable(front);
    }
  }

  lemma {:induction false} JoinedTwo(a: seq<seq<(nat, Batches.Operation)>>, b: seq<seq<(nat, Batches.Operation)>>)
    ensures Joined(a + b) == Joined(a) + Joined(b)
  {
    hide Joined;
    NoLogs([]);
    if b == [] {
      assert a + b == a && Joined(a) + [] == Joined(a);
    } else {
      var front, last := b[..|b| - 1], b[|b| - 1];
      JoinedTwo(a, front);
      assert a + b == (a + front) + [last] && b == front + [last];
      JoinedNext(a + front, last);
      JoinedNext(front, last);
      assert Joined(a) + Joined(front) + last == Joined(a) + (Joined(front) + last);
    }
  }

  /** The tables of one log. */
  method WriteTables(tables: seq<seq<(nat, Batches.Operation)>>, files: seq<File>, next: nat, sizeOf: seq<Entry> -> nat,
                     ghost chunks: seq<seq<(nat, Batches.Operation)>>, ghost first: nat)
    returns (files': seq<File>, next': nat)
    requires Insertable(Joined(tables)) && Tabled(chunks, files, first) && first <= next && forall f :: f in files ==> f.number < next
    ensures Tabled(chunks + tables, files', first) && next' >= next && forall f :: f in files' ==> f.number < next'
  {
    hide Insertable, Joined, Tabled;
    PartsInsertable(tables);
    files', next' := files, next;
    assert chunks + tables[..0] == chunks;
    for i := 0 to |tables|
      invariant Tabled(chunks + tables[..i], files', first) && next' >= next && forall f :: f in files' ==> f.number < next'
    {
      assert chunks + tables[..i + 1] == chunks + tables[..i] + [tables[i]];
      files', next' := WriteLevel0Table(tables[i], files', next', sizeOf, chunks + tables[..i], first);
    }
    assert tables[..|tables|] == tables;
  }

  // The loop over the logs.

  lemma NextLog(logs: seq<LogFile>, i: nat)
    requires i < |logs|
    ensures AppliedLogs(logs[..i + 1]) == AppliedLogs(logs[..i]) + Applied(logs[i].groups)
    ensures MaxInLogs(logs[..i + 1], 0) == MaxSequence(logs[i].groups, MaxInLogs(logs[..i], 0))
  {
    assert logs[..i + 1][..i] == logs[..i];
  }

  lemma NoLogs(logs: seq<LogFile>)
    ensures AppliedLogs(logs[..0]) == [] && MaxInLogs(logs[..0], 0) == 0 && Joined([]) == [] && logs[..|logs|] == logs
  {
  }

  lemma CutGroups(crc: Checksum, log: LogFile, records: map<nat, seq<Bytes>>, dir: Directory)
    requires log.number in dir && log.number in records && LogBytes(crc, log, records[log.number], dir[log.number])
    ensures CutLog(crc, log, records, dir).groups == log.groups[..Log.WholeRecords(crc, 0, records[log.number], |dir[log.number]|)]
  {
    hide Log.Layout, Log.WholeRecords;
  }

  /** Each log in turn goes through memtables into tables. */
  method ReplayLogs(crc: Checksum, dir: Directory, logs: seq<nat>, first: nat, full: (nat, nat) -> bool, sizeOf: seq<Entry> -> nat,
                    ghost written: seq<LogFile>, ghost records: map<nat, seq<Bytes>>)
    returns (files: seq<File>, next: nat, maxSequence: nat, ghost chunks: seq<seq<(nat, Batches.Operation)>>)
    requires logs == NumbersOf(written) && AllBytes(crc, written, records, dir)
    requires Insertable(AppliedLogs(CutLogs(crc, written, records, dir)))
    ensures var cut := CutLogs(crc, written, records, dir);
      Tabled(chunks, files, first) && Joined(chunks) == AppliedLogs(cut) && maxSequence == MaxInLogs(cut, 0)
    ensures first <= next && (forall f :: f in files ==> f.number < next) && forall n :: n in logs ==> n < next
  {
    hide Insertable, Joined, Tabled, AppliedLogs, Applied, MaxInLogs, MaxSequence, CutLog, Log.Layout, Log.WholeRecords, Logged;
    ghost var cut := CutLogs(crc, written, records, dir);
    LogsInsertable(cut);
    NoLogs(cut);
    files, next, maxSequence, chunks := [], first, 0, [];
    assert Tabled(chunks, files, first) by { NoTables(first); }
    for i := 0 to |logs|
      invariant Tabled(chunks, files, first) && Joined(chunks) == AppliedLogs(cut[..i]) && maxSequence == MaxInLogs(cut[..i], 0)
      invariant first <= next && (forall f :: f in files ==> f.number < next) && forall k :: 0 <= k < i ==> logs[k] < next
    {
      var number := logs[i];
      CutGroups(crc, written[i], records, dir);
      NextLog(cut, i);
      var tables, ok;
      tables, maxSequence, ok := RecoverLogFile(crc, dir[number], maxSequence, (n: nat) => full(number, n), records[number], written[i].groups);
      JoinedTwo(chunks, tables);
      files, next := WriteTables(tables, files, next, sizeOf, chunks, first);
      chunks := chunks + tables;
      if next <= number { next := number + 1; }
    }
  }

  lemma NoTables(first: nat)
    ensures Tabled([], [], first)
  {
  }

  // The whole of it.

  /** The files after a crash: every edit the store relies on, and each log up to its last sync at least. */
  ghost predicate OnDevice(crc: Checksum, disk: Disk, pending: seq<M.Edit>, records: map<nat, seq<Bytes>>, names: Naming, manifest: Bytes, dir: Directory) {
    && ManifestBytes(crc, disk.edits, pending, names, manifest) && AllBytes(crc, disk.logs, records, dir)
    && forall n :: n in dir <==> exists i :: 0 <= i < |disk.logs| && disk.logs[i].number == n
  }

  /** The listing of a directory. */
  ghost predicate Lists(children: seq<nat>, dir: Directory) {
    (forall n :: n in children <==> n in dir) && forall i, j :: 0 <= i < j < |children| ==> children[i] != children[j]
  }

  lemma BaseOrdered()
    ensures |NO_FILES| == NUM_LEVELS && forall l :: 0 <= l < NUM_LEVELS ==> Ordered(NO_FILES[l])
  {
  }

  /** VersionSet::Recover on it gives the version of the state. */
  method RecoverVersion(crc: Checksum, manifest: Bytes, names: Naming, ghost st: State, ghost edits: seq<M.Edit>, ghost pending: seq<M.Edit>)
    returns (m: M.Recovered)
    requires |st.levels| == NUM_LEVELS && ManifestKeeps(st, edits, names) && ManifestBytes(crc, edits, pending, names, manifest)
    ensures m.levels == st.levels && KnownSettings(M.SettingsOf(edits))
    ensures Some(m) == M.Finish(M.SettingsOf(edits), st.levels) && m.prevLogNumber == 0 && m.logNumber == LogNumber(edits)
    ensures m.nextFile == M.SettingsOf(edits).nextFile.value + 1 && m.lastSequence == M.SettingsOf(edits).lastSequence.value
  {
    hide M.GoodEdits, M.Replayed, M.SettingsOf, M.ResolvedAll, Log.Layout, Log.WholeRecords, NumbersUsed, Ordered;
    BaseOrdered();
    var r := M.Recover(crc, manifest, names.comparator, NO_FILES, names.resolve, edits + pending);
    assert (edits + pending)[..|edits|] == edits;
    ghost var levels :| r == M.Finish(M.SettingsOf(edits), levels) && M.Replayed(levels, NO_FILES, M.ResolvedAll(edits, names.resolve));
    SameVersion(st, edits, names, levels);
    m := r.value;
  }

  lemma ReplayedLogs(st: State, disk: Disk, names: Naming, crc: Checksum, records: map<nat, seq<Bytes>>, dir: Directory)
    requires Durable(st, disk, names) && AllBytes(crc, disk.logs, records, dir)
    ensures AllBytes(crc, LiveLogs(disk), records, dir)
    ensures LiveLogs(CutDisk(crc, disk, records, dir)) == CutLogs(crc, LiveLogs(disk), records, dir)
    ensures Insertable(AppliedLogs(LiveLogs(CutDisk(crc, disk, records, dir))))
  {
    hide Inv, ManifestKeeps, LogBytes, LogNumber, LiveOk, CutLog, AppliedLogs;
    var least, cut := LogNumber(disk.edits), CutDisk(crc, disk, records, dir);
    LiveNumbers(disk.logs, least, st.nextFile);
    LiveOfCut(crc, disk.logs, records, dir, least);
    CutSurvives(crc, disk, records, dir);
    FoundFacts(st, disk, names, cut);
    FoundFit(st, disk, names, cut);
  }

  /** The logs found by listing the directory are the live ones, in order. */
  lemma FoundLogs(st: State, disk: Disk, names: Naming, dir: Directory, children: seq<nat>, logs: seq<nat>)
    requires Durable(st, disk, names) && Lists(children, dir) && Rising(logs)
    requires forall n :: n in dir <==> exists i :: 0 <= i < |disk.logs| && disk.logs[i].number == n
    requires forall n :: n in logs <==> n in children && (n >= LogNumber(disk.edits) || n == 0)
    ensures logs == NumbersOf(LiveLogs(disk))
  {
    hide Inv, ManifestKeeps, LogNumber, LiveOk;
    LiveNumbers(disk.logs, LogNumber(disk.edits), st.nextFile);
    assert 0 !in dir;
    RisingUnique(logs, NumbersOf(LiveLogs(disk)));
  }

  lemma VersionKept(st: State, edits: seq<M.Edit>, names: Naming)
    requires |st.levels| == NUM_LEVELS && ManifestKeeps(st, edits, names)
    ensures M.SettingsOf(edits).nextFile.Some? && forall l :: 0 <= l < NUM_LEVELS ==> Ordered(st.levels[l])
    ensures forall f :: f in st.levels[0] ==> f.number < M.SettingsOf(edits).nextFile.value
  {
    hide Ordered, M.SettingsOf, M.GoodEdits, NumbersUsed, M.ResolvedAll, Replay;
  }

  /** The new tables may be added to the version. */
  lemma NewTables(st: State, edits: seq<M.Edit>, names: Naming, chunks: seq<seq<(nat, Batches.Operation)>>, files: seq<File>, first: nat)
    requires Inv(st) && |st.levels| == NUM_LEVELS && ManifestKeeps(st, edits, names)
    requires KnownSettings(M.SettingsOf(edits)) && M.SettingsOf(edits).nextFile.value < first
    requires Tabled(chunks, files, first) && Insertable(Joined(chunks))
    ensures Installable(st, 0, [], [], files)
  {
    hide Inv, ManifestKeeps, Tabled, EntriesAt, WellFormed, Newer, LevelEntries, Entries, Joined, M.SettingsOf, NumbersDistinct, Ordered, Increasing;
    InvShape(st);
    VersionKept(st, edits, names);
    TabledFacts(chunks, files, first);
    TabledApart(chunks, files, first);
    forall i, j | 0 <= i < j < |files| ensures files[i].number != files[j].number {
      assert files[i] in files && files[j] in files;
    }
  }

  lemma Parts(crc: Checksum, st: State, disk: Disk, pending: seq<M.Edit>, records: map<nat, seq<Bytes>>, names: Naming, manifest: Bytes, dir: Directory, children: seq<nat>)
    requires Durable(st, disk, names) && OnDevice(crc, disk, pending, records, names, manifest, dir) && Lists(children, dir)
    ensures forall i, j :: 0 <= i < j < |children| ==> children[i] != children[j]
    ensures Inv(st) && ManifestKeeps(st, disk.edits, names) && |st.levels| == NUM_LEVELS
    ensures ManifestBytes(crc, disk.edits, pending, names, manifest) && AllBytes(crc, disk.logs, records, dir)
    ensures forall n :: n in dir <==> exists i :: 0 <= i < |disk.logs| && disk.logs[i].number == n
  {
    hide Inv, ManifestKeeps, LogsOk, ManifestBytes, AllBytes, LogNumber;
    InvShape(st);
  }

  /** What was found and written makes up the state. */
  lemma MadeUp(st: State, cut: Disk, names: Naming, m: M.Recovered, r: Recovered, st': State)
    requires ManifestKeeps(st, cut.edits, names) && |st.levels| == NUM_LEVELS && m.levels == st.levels == r.levels
    requires m.nextFile == M.SettingsOf(cut.edits).nextFile.value + 1 && m.lastSequence == M.SettingsOf(cut.edits).lastSequence.value
    requires Joined(r.chunks) == AppliedLogs(LiveLogs(cut)) && Tabled(r.chunks, r.files, m.nextFile)
    requires Installs(st.levels, st'.levels, 0, [], [], r.files) && st'.mem == [] && st'.imm == None && st'.snapshots == []
    requires st'.lastSequence == Larger(MaxInLogs(LiveLogs(cut), 0), m.lastSequence)
    requires m.nextFile < st'.nextFile && forall f :: f in r.files ==> f.number < st'.nextFile
    ensures CameBack(cut, names, r, st')
  {
    hide M.SettingsOf, M.GoodEdits, M.Replayed, M.ResolvedAll, NumbersUsed, Tabled, Joined, AppliedLogs, Live, LogNumber, MaxInLogs, Installs;
  }

  /** And the state is a good one. */
  lemma BackIsGood(st: State, disk: Disk, names: Naming, cut: Disk, r: Recovered, st': State)
    requires Durable(st, disk, names) && Survives(disk, cut) && CameBack(cut, names, r, st') && |st.levels| == NUM_LEVELS
    ensures Inv(st') && |st'.levels| == NUM_LEVELS
    ensures forall user, s :: SafeRead(st, SyncedEntries(disk), user, s) ==> Read(All(st'), user, s) == Read(All(st), user, s)
    ensures forall n: nat, op :: InLogs(LiveLogs(cut), n, op) ==>
      n <= st'.lastSequence && exists e :: e in LevelEntries(st'.levels[0]) && Stands(e, n, op)
    ensures forall s: nat, n: nat, op :: LastLogged(LiveLogs(cut), s, n, op) ==> Answered(Read(All(st'), Rank(op.key), s), op)
  {
    hide *;
    ComesBack(st, disk, names, cut, r, st');
    ReopenedInv(st, r.chunks, r.files, FirstNumber(disk), st');
    InvShape(st');
    forall user, s | SafeRead(st, SyncedEntries(disk), user, s) ensures Read(All(st'), user, s) == Read(All(st), user, s) {
      CrashReads(st, disk, names, cut, r, st', user, s);
    }
    LoggedIsStored(st, disk, names, cut, r, st');
    LoggedNumbers(st, disk, names, cut, r, st');
    forall s: nat, n: nat, op | LastLogged(LiveLogs(cut), s, n, op) ensures Answered(Read(All(st'), Rank(op.key), s), op) {
      LoggedIsRead(st, disk, names, cut, r, st', s, n, op);
    }
  }

  /** DBImpl::Recover, and the version that DB::Open then installs. MAIN: from the bytes a crash left, the
      store comes back in a state with the invariant, in which every read is right whose answer was in a
      table or in a synced group; each operation that is whole in a live log is in a level-0 table, and the
      last of its key is what a read finds. */
  method Recover(crc: Checksum, manifest: Bytes, dir: Directory, children: seq<nat>, names: Naming, full: (nat, nat) -> bool,
                 sizeOf: seq<Entry> -> nat, ghost st: State, ghost disk: Disk, ghost pending: seq<M.Edit>, ghost records: map<nat, seq<Bytes>>)
    returns (st': State, newLog: nat, ghost r: Recovered)
    requires Durable(st, disk, names) && OnDevice(crc, disk, pending, records, names, manifest, dir) && Lists(children, dir)
    ensures CameBack(CutDisk(crc, disk, records, dir), names, r, st') && Inv(st') && |st'.levels| == |st.levels| == NUM_LEVELS
    ensures newLog < st'.nextFile && forall log :: log in LiveLogs(disk) ==> log.number < newLog
    ensures forall user, s :: SafeRead(st, SyncedEntries(disk), user, s) ==> Read(All(st'), user, s) == Read(All(st), user, s)
    ensures var logs := LiveLogs(CutDisk(crc, disk, records, dir));
      && (forall n: nat, op :: InLogs(logs, n, op) ==>
            n <= st'.lastSequence && exists e :: e in LevelEntries(st'.levels[0]) && Stands(e, n, op))
      && (forall s: nat, n: nat, op :: LastLogged(logs, s, n, op) ==> Answered(Read(All(st'), Rank(op.key), s), op))
  {
    hide *;
    Parts(crc, st, disk, pending, records, names, manifest, dir, children);
    var m := RecoverVersion(crc, manifest, names, st, disk.edits, pending);
    var logs := LogsToReplay(children, m.logNumber, m.prevLogNumber);
    FoundLogs(st, disk, names, dir, children, logs);
    ReplayedLogs(st, disk, names, crc, records, dir);
    var files, next, maxSequence;
    ghost var chunks;
    files, next, maxSequence, chunks := ReplayLogs(crc, dir, logs, m.nextFile, full, sizeOf, LiveLogs(disk), records);
    NewTables(st, disk.edits, names, chunks, files, m.nextFile);
    var levels := LogAndApply(st, m.levels, 0, [], [], files);
    newLog := next;
    st' := State([], None, levels, Larger(maxSequence, m.lastSequence), [], next + 1);
    r := Recovered(m.levels, chunks, files);
    ghost var cut := CutDisk(crc, disk, records, dir);
    CutSurvives(crc, disk, records, dir);
    SameEdits(crc, disk, records, dir);
    MadeUp(st, cut, names, m, r, st');
    BackIsGood(st, disk, names, cut, r, st');
    forall log | log in LiveLogs(disk) ensures log.number < newLog {
      var i :| 0 <= i < |LiveLogs(disk)| && LiveLogs(disk)[i] == log;
      assert logs[i] in logs;
    }
  }

  lemma SameEdits(crc: Checksum, disk: Disk, records: map<nat, seq<Bytes>>, dir: Directory)
    ensures CutDisk(crc, disk, records, dir).edits == disk.edits
  {
  }
}
