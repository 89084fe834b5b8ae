/** Recovery of the write-ahead log (DBImpl::RecoverLogFile in db/db_impl.cc): after a crash every
    group whose record was written whole is in a table again, in order, and nothing else is. */
module Recovery {
  import opened Wrappers
  import opened Coding
  import opened Batches
  import opened GroupCommit
  import Log

  // A committed group: its first sequence number and its operations.
  datatype Group = Group(first: nat, ops: seq<Operation>)

  ghost predicate Logged(records: seq<Bytes>, groups: seq<Group>) {
    |records| == |groups| && forall i :: 0 <= i < |records| ==>
      groups[i].first > 0 && Records(records[i], groups[i].first, groups[i].ops)
  }

  /** What the groups put into a memtable. */
  function Applied(groups: seq<Group>): seq<(nat, Operation)> {
    if groups == [] then []
    else Applied(groups[..|groups| - 1]) + Numbered(groups[|groups| - 1].ops, groups[|groups| - 1].first)
  }

  /** The greatest last sequence number of a group, counting from `least`. */
  function MaxSequence(groups: seq<Group>, least: nat): nat {
    if groups == [] then least
    else
      var before, g := MaxSequence(groups[..|groups| - 1], least), groups[|groups| - 1];
      if g.first + |g.ops| > before + 1 then g.first + |g.ops| - 1 else before
  }

  lemma NextGroup(groups: seq<Group>, i: nat, least: nat)
    requires i < |groups|
    ensures Applied(groups[..i + 1]) == Applied(groups[..i]) + Numbered(groups[i].ops, groups[i].first)
    ensures MaxSequence(groups[..i + 1], least) ==
      var before, g := MaxSequence(groups[..i], least), groups[i];
      if g.first + |g.ops| > before + 1 then g.first + |g.ops| - 1 else before
  {
    assert groups[..i + 1][..i] == groups[..i];
  }

  /** The contents of the tables that recovery writes, one after the other. */
  function Joined(tables: seq<seq<(nat, Operation)>>): seq<(nat, Operation)> {
    if tables == [] then [] else Joined(tables[..|tables| - 1]) + tables[|tables| - 1]
  }

  lemma JoinedNext(tables: seq<seq<(nat, Operation)>>, table: seq<(nat, Operation)>)
    ensures Joined(tables + [table]) == Joined(tables) + table
  {
    assert (tables + [table])[..|tables|] == tables;
  }

  ghost predicate IsSlice(table: seq<(nat, Operation)>, groups: seq<Group>, begin: nat, end: nat) {
    begin < end <= |groups| && table == Applied(groups[begin..end])
  }

  /** Each table holds the groups between two bounds. */
  ghost predicate Slices(tables: seq<seq<(nat, Operation)>>, groups: seq<Group>, bounds: seq<nat>) {
    && |bounds| == |tables| + 1 && bounds[0] == 0
    && forall k {:trigger tables[k]} :: 0 <= k < |tables| ==> IsSlice(tables[k], groups, bounds[k], bounds[k + 1])
  }

  /** The groups fill one table after the other: each but the last ends with a group after which the memtable
      was full, and no other group does that. */
  ghost predicate FilledTables(tables: seq<seq<(nat, Operation)>>, groups: seq<Group>, full: nat -> bool) {
    exists bounds: seq<nat> :: Slices(tables, groups, bounds) && bounds[|bounds| - 1] == |groups| && EndsWhenFull(bounds, |groups| - 1, full)
  }

  ghost predicate EndsWhenFull(bounds: seq<nat>, n: int, full: nat -> bool) {
    forall i :: 0 <= i < n ==> (full(i) <==> i + 1 in bounds)
  }

  /** The tables written before the i-th group, and what is in memory since. */
  ghost predicate Filling(tables: seq<seq<(nat, Operation)>>, mem: Option<seq<(nat, Operation)>>, groups: seq<Group>, full: nat -> bool, bounds: seq<nat>) {
    && Slices(tables, groups, bounds) && bounds[|tables|] <= |groups| && EndsWhenFull(bounds, |groups|, full) && (forall b :: b in bounds ==> b <= |groups|)
    && (mem.None? <==> bounds[|tables|] == |groups|)
    && InMemory(mem) == Applied(groups[bounds[|tables|]..])
  }

  lemma FillingStarts(full: nat -> bool)
    ensures Filling([], None, [], full, [0])
  {
  }

  lemma SlicesMore(tables: seq<seq<(nat, Operation)>>, groups: seq<Group>, bounds: seq<nat>, g: Group)
    requires Slices(tables, groups, bounds)
    ensures Slices(tables, groups + [g], bounds)
  {
    hide Applied;
    forall k | 0 <= k < |tables| ensures IsSlice(tables[k], groups + [g], bounds[k], bounds[k + 1]) {
      assert IsSlice(tables[k], groups, bounds[k], bounds[k + 1]);
      assert (groups + [g])[bounds[k]..bounds[k + 1]] == groups[bounds[k]..bounds[k + 1]];
    }
  }

  lemma SlicesCut(tables: seq<seq<(nat, Operation)>>, groups: seq<Group>, bounds: seq<nat>, table: seq<(nat, Operation)>)
    requires Slices(tables, groups, bounds) && bounds[|tables|] < |groups| && table == Applied(groups[bounds[|tables|]..])
    ensures Slices(tables + [table], groups, bounds + [|groups|])
  {
    hide Applied;
    assert groups[bounds[|tables|]..|groups|] == groups[bounds[|tables|]..];
    var tables', bounds' := tables + [table], bounds + [|groups|];
    forall k | 0 <= k < |tables'| ensures IsSlice(tables'[k], groups, bounds'[k], bounds'[k + 1]) {
      if k < |tables| { assert tables'[k] == tables[k] && IsSlice(tables[k], groups, bounds[k], bounds[k + 1]); }
    }
  }

  lemma AppliedOne(groups: seq<Group>, g: Group)
    ensures Applied(groups + [g]) == Applied(groups) + Numbered(g.ops, g.first)
    ensures groups == [] ==> Applied(groups) == []
  {
    assert (groups + [g])[..|groups|] == groups;
  }

  /** One more group. */
  lemma FillingNext(tables: seq<seq<(nat, Operation)>>, mem: Option<seq<(nat, Operation)>>, groups: seq<Group>, full: nat -> bool, bounds: seq<nat>, g: Group)
    requires Filling(tables, mem, groups, full, bounds)
    ensures var mem' := InMemory(mem) + Numbered(g.ops, g.first);
      if full(|groups|) then Filling(tables + [mem'], None, groups + [g], full, bounds + [|groups| + 1])
      else Filling(tables, Some(mem'), groups + [g], full, bounds)
  {
    hide Numbered, Applied, Slices;
    var last := BoundOf(tables, groups, bounds);
    var more := groups + [g];
    var mem' := InMemory(mem) + Numbered(g.ops, g.first);
    assert more[last..] == groups[last..] + [g];
    AppliedOne(groups[last..], g);
    SlicesMore(tables, groups, bounds, g);
    if full(|groups|) {
      SlicesCut(tables, more, bounds, mem');
      AppliedOne(more[|more|..], g);
      assert forall b :: b in bounds + [|groups| + 1] <==> b in bounds || b == |groups| + 1;
    }
  }

  lemma BoundOf(tables: seq<seq<(nat, Operation)>>, groups: seq<Group>, bounds: seq<nat>) returns (last: nat)
    requires Slices(tables, groups, bounds)
    ensures |bounds| == |tables| + 1 && last == bounds[|tables|] <= |groups|
  {
    hide Applied;
    last := bounds[|tables|];
    if tables != [] { assert IsSlice(tables[|tables| - 1], groups, bounds[|tables| - 1], bounds[|tables|]); }
  }

  lemma FillingEnds(tables: seq<seq<(nat, Operation)>>, mem: Option<seq<(nat, Operation)>>, groups: seq<Group>, full: nat -> bool, bounds: seq<nat>)
    requires Filling(tables, mem, groups, full, bounds)
    ensures FilledTables(if mem.Some? then tables + [mem.value] else tables, groups, full)
  {
    hide Applied, Slices;
    var last := BoundOf(tables, groups, bounds);
    if mem.Some? {
      SlicesCut(tables, groups, bounds, mem.value);
      var bounds' := bounds + [|groups|];
      assert forall b :: b in bounds' <==> b in bounds || b == |groups|;
      assert bounds'[|bounds'| - 1] == |groups|;
    }
  }

  /** DBImpl::RecoverLogFile: the records go to a memtable, which becomes a table whenever it is full,
      and once more at the end. `full` says after which record the memtable is. */
  method RecoverLogFile(crc: Checksum, file: Bytes, maxSequence: nat, full: nat -> bool, ghost records: seq<Bytes>, ghost groups: seq<Group>)
    returns (tables: seq<seq<(nat, Operation)>>, maxSequence': nat, ok: bool)
    requires Logged(records, groups) && file <= Log.Layout(crc, 0, records)
    ensures var whole := groups[..Log.WholeRecords(crc, 0, records, |file|)];
      ok && Joined(tables) == Applied(whole) && FilledTables(tables, whole, full) && maxSequence' == MaxSequence(whole, maxSequence)
  {
    hide Applied, MaxSequence, Log.Layout, Log.WholeRecords, Numbered, Records, Joined, FilledTables, Filling;
    var found, drops := Log.ReadAll(crc, file, records);
    var mem: Option<seq<(nat, Operation)>> := None;
    tables, maxSequence', ok := [], maxSequence, true;
    Nothing(groups, maxSequence);
    ghost var bounds: seq<nat> := [0];
    FillingStarts(full);
    for i := 0 to |found|
      invariant ok && Joined(tables) + InMemory(mem) == Applied(groups[..i]) && maxSequence' == MaxSequence(groups[..i], maxSequence)
      invariant Filling(tables, mem, groups[..i], full, bounds)
    {
      FillingNext(tables, mem, groups[..i], full, bounds, groups[i]);
      assert groups[..i + 1] == groups[..i] + [groups[i]];
      NextGroup(groups, i, maxSequence);
      ghost var filled := InMemory(mem);
      mem, maxSequence', ok := ReplayRecord(found[i], mem, maxSequence', groups[i]);
      if !ok { return; }
      JoinMore(Joined(tables), filled, Numbered(groups[i].ops, groups[i].first));
      if mem.Some? && full(i) {
        JoinedNext(tables, mem.value);
        JoinMore(Joined(tables), mem.value, []);
        tables, mem := tables + [mem.value], None;
        bounds := bounds + [i + 1];
      }
    }
    FillingEnds(tables, mem, groups[..|found|], full, bounds);
    if mem.Some? {
      JoinedNext(tables, mem.value);
      tables := tables + [mem.value];
    }
  }

  lemma JoinMore(a: seq<(nat, Operation)>, b: seq<(nat, Operation)>, c: seq<(nat, Operation)>)
    ensures a + (b + c) == (a + b) + c && a + b + [] == a + b
  {
  }

  /** One record, into the memtable, which is made when there is none. */
  method ReplayRecord(record: Bytes, mem: Option<seq<(nat, Operation)>>, maxSequence: nat, ghost g: Group)
    returns (mem': Option<seq<(nat, Operation)>>, maxSequence': nat, ok: bool)
    requires Records(record, g.first, g.ops) && g.first > 0
    ensures ok && mem' == Some(InMemory(mem) + Numbered(g.ops, g.first))
    ensures maxSequence' == if g.first + |g.ops| > maxSequence + 1 then g.first + |g.ops| - 1 else maxSequence
  {
    hide Numbered, ParseBody, DecodeFixed32, DecodeFixed64;
    mem', maxSequence', ok := mem, maxSequence, true;
    if |record| < HEADER { return; }
    var batch := new WriteBatch();
    batch.rep := record;
    var inserted;
    ok, inserted := batch.InsertInto(InMemory(mem));
    if !ok { return; }
    mem' := Some(inserted);
    var count := batch.Count();
    var last := DecodeFixed64(record) + count;
    if last > maxSequence + 1 { maxSequence' := last - 1; }
  }

  function InMemory(mem: Option<seq<(nat, Operation)>>): seq<(nat, Operation)> {
    if mem.Some? then mem.value else []
  }

  lemma Nothing(groups: seq<Group>, least: nat)
    ensures Applied(groups[..0]) == [] && MaxSequence(groups[..0], least) == least && Joined([]) == []
  {
  }

  /** Whatever a crash cuts off, the groups logged before the last successful sync are recovered. */
  lemma SyncedGroupsSurvive(crc: Checksum, records: seq<Bytes>, groups: seq<Group>, synced: nat, size: nat)
    requires Logged(records, groups) && synced <= |records| && |Log.Layout(crc, 0, records[..synced])| <= size
    ensures groups[..synced] <= groups[..Log.WholeRecords(crc, 0, records, size)]
  {
    hide Log.Layout, Log.WholeRecords;
    if synced > 0 {
      Log.WholeRecordsAre(crc, 0, records, size, synced - 1);
    }
  }
}
