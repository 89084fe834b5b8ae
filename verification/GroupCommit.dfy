/** Group commit (DBImpl::Write and BuildBatchGroup in db/db_impl.cc): the writer at the front of the
    queue logs and applies its batch together with those of the writers behind it. */
module GroupCommit {
  import opened Wrappers
  import opened Coding
  import opened Batches

  datatype Status = Ok | Failed

  class Writer {
    const batch: WriteBatch?   // none for a writer that only wants the memtable switched
    const sync: bool
    var done: bool
    var status: Status
    ghost var completions: nat

    constructor (batch: WriteBatch?, sync: bool)
      ensures this.batch == batch && this.sync == sync && !done && completions == 0
    {
      this.batch, this.sync := batch, sync;
      done, status, completions := false, Ok, 0;
    }
  }

  // What the grouping rule looks at: the size of the batch, if there is one, and the sync flag.
  datatype Request = Request(size: Option<nat>, sync: bool)

  function SizeOf(r: Request): nat { if r.size.Some? then r.size.value else 0 }

  function TotalSize(rs: seq<Request>): nat {
    if rs == [] then 0 else TotalSize(rs[..|rs| - 1]) + SizeOf(rs[|rs| - 1])
  }

  const SMALL: nat := 0x2_0000
  const LARGE: nat := 0x10_0000

  /** A small first write keeps the group small. */
  function MaxSize(first: nat): nat {
    if first <= SMALL then first + SMALL else LARGE
  }

  /** The first `n` requests may be committed together. */
  ghost predicate MayGroup(rs: seq<Request>, n: nat) {
    && 0 < n <= |rs|
    && forall i :: 0 < i < n ==> (rs[i].sync ==> rs[0].sync) && (rs[i].size.Some? ==> TotalSize(rs[..i + 1]) <= MaxSize(SizeOf(rs[0])))
  }

  /** The group is the longest that may be. */
  ghost predicate IsGroup(rs: seq<Request>, n: nat) {
    MayGroup(rs, n) && (n < |rs| ==> !MayGroup(rs, n + 1))
  }

  lemma OneMayGroup(rs: seq<Request>)
    requires rs != []
    ensures MayGroup(rs, 1) && TotalSize(rs[..0]) == 0
  {
  }

  lemma GroupStep(rs: seq<Request>, n: nat)
    requires MayGroup(rs, n) && n < |rs|
    ensures MayGroup(rs, n + 1) <==>
      (rs[n].sync ==> rs[0].sync) && (rs[n].size.Some? ==> TotalSize(rs[..n]) + SizeOf(rs[n]) <= MaxSize(SizeOf(rs[0])))
  {
    PrefixSizes(rs, n);
  }

  lemma GroupUnique(rs: seq<Request>, m: nat, n: nat)
    requires IsGroup(rs, m) && IsGroup(rs, n)
    ensures m == n
  {
    if m < n { assert MayGroup(rs, m + 1); }
    if n < m { assert MayGroup(rs, n + 1); }
  }

  /** The bytes of all batches, from the first on. */
  function BytesIn(rs: seq<Request>): nat {
    if rs == [] then 0 else (match rs[0].size case Some(n) => n case None => 0) + BytesIn(rs[1..])
  }

  lemma {:induction false} BytesSplit(a: seq<Request>, b: seq<Request>)
    ensures BytesIn(a + b) == BytesIn(a) + BytesIn(b)
  {
    if a == [] {
      assert a + b == b;
    } else {
      assert (a + b)[1..] == a[1..] + b;
      BytesSplit(a[1..], b);
    }
  }

  lemma {:induction false} TotalIsBytes(rs: seq<Request>)
    ensures TotalSize(rs) == BytesIn(rs)
  {
    if rs != [] {
      var front, last := rs[..|rs| - 1], rs[|rs| - 1];
      TotalIsBytes(front);
      BytesSplit(front, [last]);
      assert rs == front + [last] && [last][1..] == [];
    }
  }

  /** The writers of a group hold at most 1 MB together, or 128 KB more than the first if that one holds no
      more; the first writer behind the group would be past that, or wants a sync that the leader does not. */
  lemma GroupLimits(rs: seq<Request>, n: nat)
    requires IsGroup(rs, n)
    ensures 0 < n <= |rs|
    ensures var first := BytesIn(rs[..1]); var limit := if first <= 131_072 then first + 131_072 else 1_048_576;
      && (forall i :: 0 < i < n ==> (rs[i].sync ==> rs[0].sync) && (rs[i].size.Some? ==> BytesIn(rs[..i + 1]) <= limit))
      && (n < |rs| ==> (rs[n].sync && !rs[0].sync) || (rs[n].size.Some? && BytesIn(rs[..n + 1]) > limit))
  {
    hide BytesIn, TotalSize;
    FirstBytes(rs);
    forall m: nat | m <= |rs| ensures TotalSize(rs[..m]) == BytesIn(rs[..m]) { TotalIsBytes(rs[..m]); }
  }

  lemma FirstBytes(rs: seq<Request>)
    requires rs != []
    ensures BytesIn(rs[..1]) == SizeOf(rs[0])
  {
    assert rs[..1][1..] == [];
  }

  ghost function BatchesOf(ws: seq<Writer>): set<WriteBatch> {
    set w | w in ws && w.batch != null :: w.batch
  }

  /** What the batch of a writer holds. */
  ghost predicate Asks(w: Writer, r: Request, ops: seq<Operation>)
    reads w.batch
  {
    && r.sync == w.sync
    && (w.batch == null ==> r.size == None && ops == [])
    && (w.batch != null ==> w.batch.Valid() && r.size == Some(|w.batch.rep|) && ops == w.batch.ops)
  }

  /** The requests and operations of a queue of writers. */
  ghost predicate Describes(ws: seq<Writer>, rs: seq<Request>, opss: seq<seq<Operation>>)
    reads BatchesOf(ws)
  {
    |ws| == |rs| == |opss| && forall i :: 0 <= i < |ws| ==> Asks(ws[i], rs[i], opss[i])
  }

  lemma FirstAsks(ws: seq<Writer>, rs: seq<Request>, opss: seq<seq<Operation>>)
    requires Describes(ws, rs, opss) && ws != []
    ensures |rs| == |ws| == |opss| && Asks(ws[0], rs[0], opss[0])
  {
  }

  lemma JoinNone(opss: seq<seq<Operation>>)
    ensures Join(opss[..0]) == []
  {
  }

  function Join(opss: seq<seq<Operation>>): seq<Operation> {
    if opss == [] then [] else Join(opss[..|opss| - 1]) + opss[|opss| - 1]
  }

  lemma JoinNext(opss: seq<seq<Operation>>, n: nat)
    requires n < |opss|
    ensures Join(opss[..n + 1]) == Join(opss[..n]) + opss[n]
  {
    assert opss[..n + 1][..n] == opss[..n];
  }

  lemma PrefixSizes(rs: seq<Request>, n: nat)
    requires n < |rs|
    ensures TotalSize(rs[..n + 1]) == TotalSize(rs[..n]) + SizeOf(rs[n])
  {
    assert rs[..n + 1][..n] == rs[..n];
  }

  /** A batch has at least one byte for every operation. */
  lemma {:induction false} BodyLength(ops: seq<Operation>)
    ensures |ops| <= |Body(ops)|
  {
    if ops != [] { BodyLength(ops[..|ops| - 1]); }
  }

  class WriteQueue {
    const tmpBatch: WriteBatch
    var writers: seq<Writer>
    var lastSequence: nat
    var mem: seq<(nat, Operation)>   // what the memtable was given, in order
    var log: seq<Bytes>
    var syncedRecords: nat           // how much of the log is known to be on disk
    var bgError: Status              // failed once the log can no longer be relied on

    ghost predicate Valid()
      reads this, tmpBatch, writers, BatchesOf(writers)
    {
      && tmpBatch.Valid() && tmpBatch.ops == []
      && (forall b :: b in BatchesOf(writers) ==> b.Valid() && b != tmpBatch)
      && (forall i, j :: 0 <= i < j < |writers| ==> writers[i] != writers[j])
      && (forall w :: w in writers ==> !w.done)
    }

    constructor ()
      ensures Valid() && writers == [] && fresh(tmpBatch) && bgError.Ok?
    {
      tmpBatch := new WriteBatch();
      writers, lastSequence, mem, log, syncedRecords, bgError := [], 0, [], [], 0, Ok;
    }

    /** The batches of the longest group the rule allows, joined in queue order; the batches of the
        writers stay as they are. */
    method BuildBatchGroup(ghost rs: seq<Request>, ghost opss: seq<seq<Operation>>) returns (result: WriteBatch, n: nat)
      requires Valid() && writers != [] && writers[0].batch != null && Describes(writers, rs, opss)
      modifies tmpBatch
      ensures IsGroup(rs, n) && 0 < n <= |writers| && result.Valid() && result.ops == Join(opss[..n])
      ensures result == writers[0].batch || result == tmpBatch
      ensures result == writers[0].batch ==> tmpBatch.Valid() && tmpBatch.ops == []
    {
      hide WriteBatch.Valid, MayGroup, TotalSize, Join;
      var first := writers[0];
      OneMayGroup(rs);
      assert Asks(first, rs[0], opss[0]);
      JoinNone(opss);
      JoinNext(opss, 0);
      PrefixSizes(rs, 0);
      BatchLength(first.batch);
      result := first.batch;
      var size := |first.batch.rep|;
      var maxSize := if size <= SMALL then size + SMALL else LARGE;
      n := 1;
      while n < |writers|
        invariant 1 <= n <= |writers| && MayGroup(rs, n) && Describes(writers, rs, opss)
        invariant size == TotalSize(rs[..n])
        invariant result.Valid() && result.ops == Join(opss[..n]) && |result.ops| <= size
        invariant result == first.batch || result == tmpBatch
        invariant result == first.batch ==> tmpBatch.Valid() && tmpBatch.ops == []
      {
        var w := writers[n];
        assert Asks(w, rs[n], opss[n]);
        PrefixSizes(rs, n);
        GroupStep(rs, n);
        JoinNext(opss, n);
        if w.sync && !first.sync { return; }
        if w.batch != null {
          size := size + |w.batch.rep|;
          if size > maxSize { return; }
          BatchLength(w.batch);
          result := AppendTo(result, first.batch, w.batch);
        }
        n := n + 1;
      }
    }

    /** A group of more than one batch is collected in the spare batch. */
    method AppendTo(result: WriteBatch, first: WriteBatch, more: WriteBatch) returns (result': WriteBatch)
      requires result.Valid() && more.Valid() && more != tmpBatch && first != tmpBatch
      requires result == first || result == tmpBatch
      requires result == first ==> tmpBatch.Valid() && tmpBatch.ops == []
      requires |result.ops| + |more.ops| < MAX_COUNT
      modifies tmpBatch
      ensures result' == tmpBatch && result'.Valid() && result'.ops == old(result.ops) + more.ops
    {
      hide WriteBatch.Valid;
      result' := result;
      if result' == first {
        result' := tmpBatch;
        result'.Append(first);
      }
      result'.Append(more);
    }

    /** A writer joins the queue. */
    method Enqueue(w: Writer)
      requires Valid() && w !in writers && !w.done && (w.batch != null ==> w.batch.Valid() && w.batch != tmpBatch)
      modifies `writers
      ensures Valid() && writers == old(writers) + [w]
    {
      writers := writers + [w];
    }

    /** Logs and applies the group of the front writer. The lock is released meanwhile, so writers
        may arrive; the outcomes of logging and of syncing are given. */
    method Commit(logged: Status, synced: Status, arrivals: seq<Writer>, ghost rs: seq<Request>, ghost opss: seq<seq<Operation>>)
      returns (status: Status, n: nat)
      requires Valid() && writers != [] && writers[0].batch != null && Describes(writers, rs, opss)
      requires lastSequence + 1 < TWO_TO_THE_64
      requires CanJoin(writers, arrivals, tmpBatch)
      modifies `writers, `lastSequence, `mem, `log, `syncedRecords, `bgError, tmpBatch, writers[0].batch
      ensures Valid() && writers == old(writers) + arrivals && IsGroup(rs, n) && 0 < n <= |old(writers)|
      ensures var ops := Join(opss[..n]);
        && lastSequence == old(lastSequence) + |ops|
        && status == Outcome(logged, synced, old(writers)[0].sync)
        && mem == old(mem) + (if status.Ok? then Numbered(ops, old(lastSequence) + 1) else [])
        && (if logged.Ok? then |log| == |old(log)| + 1 && log[..|old(log)|] == old(log) && Records(log[|old(log)|], old(lastSequence) + 1, ops)
            else log == old(log))
      ensures syncedRecords == if status.Ok? && old(writers)[0].sync then |log| else old(syncedRecords)
      ensures bgError == AfterCommit(old(bgError), logged, synced, old(writers)[0].sync)
    {
      hide WriteBatch.Valid, Numbered, Records, Join, IsGroup;
      var first := writers[0];
      var updates;
      updates, n := BuildBatchGroup(rs, opss);
      status := CommitBatch(updates, first.sync, logged, synced);
      // By the time the lock is taken again these have arrived.
      writers := writers + arrivals;
    }

    /** Numbers, logs and applies a batch; the spare batch is empty afterwards. */
    method CommitBatch(updates: WriteBatch, sync: bool, logged: Status, synced: Status) returns (status: Status)
      requires updates.Valid() && lastSequence + 1 < TWO_TO_THE_64
      requires updates != tmpBatch ==> tmpBatch.Valid() && tmpBatch.ops == []
      modifies `lastSequence, `mem, `log, `syncedRecords, `bgError, tmpBatch, updates
      ensures tmpBatch.Valid() && tmpBatch.ops == [] && (updates != tmpBatch ==> updates.Valid() && updates.ops == old(updates.ops))
      ensures var ops := old(updates.ops);
        && lastSequence == old(lastSequence) + |ops|
        && status == Outcome(logged, synced, sync)
        && mem == old(mem) + (if status.Ok? then Numbered(ops, old(lastSequence) + 1) else [])
        && (if logged.Ok? then |log| == |old(log)| + 1 && log[..|old(log)|] == old(log) && Records(log[|old(log)|], old(lastSequence) + 1, ops)
            else log == old(log))
      ensures syncedRecords == if status.Ok? && sync then |log| else old(syncedRecords)
      ensures bgError == AfterCommit(old(bgError), logged, synced, sync)
    {
      hide WriteBatch.Valid, Numbered, Records;
      updates.SetSequence(lastSequence + 1);
      CountIs(updates);
      var count := updates.Count();
      var last := lastSequence + count;
      var syncError;
      status, syncError := LogAndApply(updates, lastSequence + 1, sync, logged, synced);
      if syncError { RecordBackgroundError(status); }
      if updates == tmpBatch { tmpBatch.Clear(); }
      lastSequence := last;
    }

    /** MakeRoomForWrite: none once a sync has failed; `found` is what it comes to otherwise. */
    function MakeRoom(found: Status): (room: Status)
      reads `bgError
      ensures room == if bgError.Ok? then found else Failed
    {
      if bgError.Failed? then bgError else found
    }

    /** With room and a batch the group of the front writer is committed; else it is on its own. */
    method CommitFront(room: Status, logged: Status, synced: Status, arrivals: seq<Writer>, ghost rs: seq<Request>, ghost opss: seq<seq<Operation>>)
      returns (status: Status, n: nat)
      requires Valid() && writers != [] && Describes(writers, rs, opss)
      requires lastSequence + 1 < TWO_TO_THE_64
      requires CanJoin(writers, arrivals, tmpBatch)
      modifies `writers, `lastSequence, `mem, `log, `syncedRecords, `bgError, tmpBatch, BatchesOf(writers[..1])
      ensures Valid() && 0 < n <= |old(writers)|
      ensures writers == old(writers) + (if room.Ok? && old(writers)[0].batch != null then arrivals else [])
      ensures if room.Ok? && old(writers)[0].batch != null then IsGroup(rs, n) && status == Outcome(logged, synced, old(writers)[0].sync)
              else n == 1 && status == room
      ensures lastSequence == old(lastSequence) + (if room.Ok? then |Join(opss[..n])| else 0)
      ensures mem == old(mem) + (if room.Ok? && status.Ok? then Numbered(Join(opss[..n]), old(lastSequence) + 1) else [])
      ensures room.Failed? ==> log == old(log)
      ensures bgError == if room.Ok? && old(writers)[0].batch != null then AfterCommit(old(bgError), logged, synced, old(writers)[0].sync) else old(bgError)
      ensures room.Ok? && status.Ok? && old(writers)[0].batch != null && old(writers)[0].sync ==> syncedRecords == |log|
    {
      hide WriteBatch.Valid, Numbered, Records, Join, IsGroup, Describes, CanJoin, AfterCommit, Outcome;
      var first := writers[0];
      n, status := 1, room;
      if room.Ok? && first.batch != null {
        status, n := Commit(logged, synced, arrivals, rs, opss);
      } else {
        FirstAsks(writers, rs, opss);
        NothingToCommit(mem, lastSequence, opss, first.batch == null);
      }
    }

    /** DBImpl::Write once the caller is at the front: the group is committed, or with no room or no batch
        only the front writer, and every writer of it completes. */
    method Lead(found: Status, logged: Status, synced: Status, arrivals: seq<Writer>, ghost rs: seq<Request>, ghost opss: seq<seq<Operation>>)
      returns (room: Status, status: Status, n: nat)
      requires Valid() && writers != [] && Describes(writers, rs, opss)
      requires lastSequence + 1 < TWO_TO_THE_64
      requires CanJoin(writers, arrivals, tmpBatch)
      modifies this, tmpBatch, writers, BatchesOf(writers[..1])
      ensures room == old(MakeRoom(found)) && Valid() && 0 < n <= |old(writers)|
      ensures writers == old(writers)[n..] + (if room.Ok? && old(writers)[0].batch != null then arrivals else [])
      ensures forall k :: 0 <= k < n ==> old(writers)[k].completions == old(writers[k].completions) + 1
      ensures forall k :: 0 < k < n ==> old(writers)[k].done && old(writers)[k].status == status
      ensures forall k :: n <= k < |old(writers)| ==> unchanged(old(writers)[k])
      ensures if room.Ok? && old(writers)[0].batch != null then IsGroup(rs, n) && status == Outcome(logged, synced, old(writers)[0].sync)
              else n == 1 && status == room
      ensures lastSequence == old(lastSequence) + (if room.Ok? then |Join(opss[..n])| else 0)
      ensures mem == old(mem) + (if room.Ok? && status.Ok? then Numbered(Join(opss[..n]), old(lastSequence) + 1) else [])
      ensures room.Failed? ==> log == old(log)
      ensures bgError == if room.Ok? && old(writers)[0].batch != null then AfterCommit(old(bgError), logged, synced, old(writers)[0].sync) else old(bgError)
      ensures room.Ok? && status.Ok? && old(writers)[0].batch != null && old(writers)[0].sync ==> syncedRecords == |log|
    {
      hide WriteBatch.Valid, Numbered, Records, Join, IsGroup, Describes, CanJoin, AfterCommit, Outcome, MakeRoom;
      room := MakeRoom(found);
      status, n := CommitFront(room, logged, synced, arrivals, rs, opss);
      assert forall k :: 0 <= k < n ==> writers[k] == old(writers)[k];
      Complete(n, status);
    }

    /** The writer at the front leaves; it is told the outcome unless it is the leader itself. */
    method CompleteFront(leader: bool, status: Status)
      requires Valid() && writers != []
      modifies `writers, writers[0]
      ensures Valid() && writers == old(writers)[1..]
      ensures old(writers)[0].completions == old(writers[0].completions) + 1
      ensures !leader ==> old(writers)[0].done && old(writers)[0].status == status
    {
      hide WriteBatch.Valid;
      var ready := writers[0];
      writers := writers[1..];
      if !leader {
        ready.status := status;
        ready.done := true;
      }
      ready.completions := ready.completions + 1;
    }

    /** The writers of the group leave the queue, and all but the leader are told the outcome. */
    method Complete(n: nat, status: Status)
      requires Valid() && 0 < n <= |writers|
      modifies `writers, writers[..n]
      ensures Valid() && writers == old(writers)[n..]
      ensures forall k :: 0 <= k < n ==> old(writers)[k].completions == old(writers[k].completions) + 1
      ensures forall k :: 0 < k < n ==> old(writers)[k].done && old(writers)[k].status == status
      ensures forall k :: n <= k < |old(writers)| ==> unchanged(old(writers)[k])
    {
      hide Valid;
      ghost var all := writers;
      Apart();
      for i := 0 to n
        invariant Valid() && writers == all[i..]
        invariant forall k :: 0 <= k < i ==> all[k].completions == old(all[k].completions) + 1
        invariant forall k :: 0 < k < i ==> all[k].done && all[k].status == status
        invariant forall k :: i <= k < |all| ==> unchanged(all[k])
      {
        CompleteFront(i == 0, status);
      }
    }

    lemma Apart()
      requires Valid()
      ensures forall i, j :: 0 <= i < j < |writers| ==> writers[i] != writers[j]
    {
    }

    /** The first error stays. */
    method RecordBackgroundError(status: Status)
      modifies `bgError
      ensures bgError == if old(bgError).Ok? then status else old(bgError)
    {
      if bgError.Ok? { bgError := status; }
    }

    /** The part of a write that runs without the lock. */
    method LogAndApply(updates: WriteBatch, ghost first: nat, sync: bool, logged: Status, synced: Status) returns (status: Status, syncError: bool)
      requires updates.Valid() && DecodeFixed64(updates.rep) == first
      modifies `mem, `log, `syncedRecords
      ensures status == Outcome(logged, synced, sync)
      ensures mem == old(mem) + (if status.Ok? then Numbered(updates.ops, first) else [])
      ensures if logged.Ok? then |log| == |old(log)| + 1 && log[..|old(log)|] == old(log) && Records(log[|old(log)|], first, updates.ops)
              else log == old(log)
      ensures syncedRecords == if status.Ok? && sync then |log| else old(syncedRecords)
      ensures syncError <==> SyncFails(logged, synced, sync)
    {
      BatchRecords(updates);
      hide WriteBatch.Valid, Numbered, Records, DecodeFixed64, ParseBody;
      status, syncError := logged, false;
      if status.Ok? {
        log := log + [updates.rep];
        if sync {
          status := synced;
          if status.Ok? { syncedRecords := |log|; } else { syncError := true; }
        }
      }
      if status.Ok? {
        var ok;
        ok, mem := updates.InsertInto(mem);
        status := if ok then Ok else Failed;
      } else {
        assert mem + [] == mem;
      }
    }
  }

  lemma CountIs(b: WriteBatch)
    requires b.Valid()
    ensures |b.rep| >= HEADER && DecodeFixed32(b.rep[8..]) == |b.ops|
  {
  }

  lemma BatchRecords(b: WriteBatch)
    requires b.Valid()
    ensures Records(b.rep, DecodeFixed64(b.rep), b.ops)
  {
    BodyParses(b.ops);
  }

  lemma NothingToCommit(mem: seq<(nat, Operation)>, last: nat, opss: seq<seq<Operation>>, none: bool)
    requires opss != [] && (none ==> opss[0] == [])
    ensures mem + [] == mem
    ensures none ==> Join(opss[..1]) == [] && mem + Numbered([], last + 1) == mem
  {
    JoinNone(opss);
    JoinNext(opss, 0);
  }

  /** The record was logged, but may or may not be there after a crash. */
  predicate SyncFails(logged: Status, synced: Status, sync: bool) {
    logged.Ok? && sync && synced.Failed?
  }

  /** From then on no write gets room. */
  function AfterCommit(bgError: Status, logged: Status, synced: Status, sync: bool): Status {
    if SyncFails(logged, synced, sync) then Failed else bgError
  }

  function Outcome(logged: Status, synced: Status, sync: bool): Status {
    if logged.Ok? && sync then synced else logged
  }

  /** A log record that recovery turns into the numbered operations again. */
  ghost predicate Records(record: Bytes, first: nat, ops: seq<Operation>) {
    |record| >= HEADER && DecodeFixed64(record) == first && DecodeFixed32(record[8..]) == |ops| && ParseBody(record[HEADER..]) == (ops, true)
  }

  ghost predicate CanJoin(ws: seq<Writer>, arrivals: seq<Writer>, tmp: WriteBatch)
    reads ws, arrivals, BatchesOf(arrivals)
  {
    && (forall i, j :: 0 <= i < j < |ws + arrivals| ==> (ws + arrivals)[i] != (ws + arrivals)[j])
    && (forall w :: w in arrivals ==> !w.done)
    && (forall b :: b in BatchesOf(arrivals) ==> b.Valid() && b != tmp)
  }

  lemma BatchLength(b: WriteBatch)
    requires b.Valid()
    ensures |b.ops| <= |b.rep| && |b.ops| < MAX_COUNT
  {
    BodyLength(b.ops);
  }

  /** No sync writer rides on a leader that does not sync. */
  lemma SyncLeads(rs: seq<Request>, n: nat, i: nat)
    requires IsGroup(rs, n) && i < n && rs[i].sync
    ensures rs[0].sync
  {
  }

  /** One write on its own: its operations under the next sequence numbers. */
  function Serial(mem: seq<(nat, Operation)>, last: nat, opss: seq<seq<Operation>>): (seq<(nat, Operation)>, nat) {
    if opss == [] then (mem, last)
    else
      var (m, l) := Serial(mem, last, opss[..|opss| - 1]);
      (m + Numbered(opss[|opss| - 1], l + 1), l + |opss[|opss| - 1]|)
  }

  /** MAIN: committing a group is committing its writers one by one in queue order. */
  lemma {:induction false} GroupEqualsSerial(mem: seq<(nat, Operation)>, last: nat, opss: seq<seq<Operation>>)
    ensures Serial(mem, last, opss) == (mem + Numbered(Join(opss), last + 1), last + |Join(opss)|)
  {
    if opss == [] {
      assert mem + Numbered([], last + 1) == mem;
    } else {
      var front, ops := opss[..|opss| - 1], opss[|opss| - 1];
      GroupEqualsSerial(mem, last, front);
      NumberedAppend(Join(front), ops, last + 1);
      assert mem + Numbered(Join(opss), last + 1) ==
        mem + Numbered(Join(front), last + 1) + Numbered(ops, last + |Join(front)| + 1);
    }
  }

  lemma NumberedAppend(a: seq<Operation>, b: seq<Operation>, first: nat)
    ensures Numbered(a + b, first) == Numbered(a, first) + Numbered(b, first + |a|)
  {
  }

  /** And groups committed one after the other are one serial run. */
  lemma {:induction false} GroupsAreOneRun(mem: seq<(nat, Operation)>, last: nat, a: seq<seq<Operation>>, b: seq<seq<Operation>>)
    ensures Serial(Serial(mem, last, a).0, Serial(mem, last, a).1, b) == Serial(mem, last, a + b)
  {
    var r := Serial(mem, last, a);
    assert r == (r.0, r.1);
    if b == [] {
      assert a + b == a;
    } else {
      GroupsAreOneRun(mem, last, a, b[..|b| - 1]);
      assert (a + b)[..|a + b| - 1] == a + b[..|b| - 1] && (a + b)[|a + b| - 1] == b[|b| - 1];
    }
  }
}
