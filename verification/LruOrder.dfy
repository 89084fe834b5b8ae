/** In what order entries leave the cache (LRU_Append and the eviction loop of Insert in util/cache.cc): those
    that were released longest ago go first, told from the operations of a run alone. */
module LruOrder {
  import opened Cache
  import opened CacheRuns
  import opened HandleTables
  import opened Rings
  import opened Wrappers

  /** The place of the last release of a handle among the operations, -1 if there is none. */
  ghost function LastRelease(ops: seq<Op>, r: Ref): (i: int)
    ensures -1 <= i < |ops|
    ensures i >= 0 ==> ops[i] == Release(r)
    ensures forall j :: i < j < |ops| ==> ops[j] != Release(r)
  {
    if ops == [] then -1 else if ops[|ops| - 1] == Release(r) then |ops| - 1 else LastRelease(ops[..|ops| - 1], r)
  }

  lemma LastReleaseNext(ops: seq<Op>, op: Op, r: Ref)
    ensures LastRelease(ops + [op], r) == if op == Release(r) then |ops| else LastRelease(ops, r)
  {
    assert (ops + [op])[..|ops|] == ops;
  }

  // ------------------------------------------------------------ runs, from the end

  lemma {:induction false} RunMore(s: Shard, ops: seq<Op>, op: Op)
    requires Inv(s) && Latest(s) && LegalRun(s, ops + [op])
    ensures LegalRun(s, ops) && Inv(Run(s, ops)) && Latest(Run(s, ops)) && Legal(Run(s, ops), op)
    ensures Run(s, ops + [op]) == Apply(Run(s, ops), op)
    decreases |ops|
  {
    hide Inv, Latest, Apply, Legal;
    var more := ops + [op];
    StepKeeps(s, more[0]);
    if ops == [] {
      assert more[1..] == [];
    } else {
      assert more[1..] == ops[1..] + [op];
      RunMore(Apply(s, ops[0]), ops[1..], op);
    }
  }

  /** Each was released, and the one in front before the one behind it. */
  ghost predicate ByRelease(ops: seq<Op>, lru: seq<Ref>) {
    && (forall a :: 0 <= a < |lru| ==> LastRelease(ops, lru[a]) >= 0)
    && forall a, b :: 0 <= a < b < |lru| ==> LastRelease(ops, lru[a]) < LastRelease(ops, lru[b])
  }

  lemma ByReleaseWithout(ops: seq<Op>, lru: seq<Ref>, r: Ref)
    requires ByRelease(ops, lru) && Distinct(lru)
    ensures ByRelease(ops, Drop(lru, r))
  {
    hide LastRelease;
    DropMeans(lru, r);
    if r in lru {
      var k :| 0 <= k < |lru| && lru[k] == r;
      DropAt(lru, k);
    }
  }

  lemma ByReleaseAfter(ops: seq<Op>, lru: seq<Ref>, n: nat)
    requires ByRelease(ops, lru) && n <= |lru|
    ensures ByRelease(ops, lru[n..])
  {
    hide LastRelease;
  }

  /** Other operations change nothing. */
  lemma ByReleaseOther(ops: seq<Op>, op: Op, lru: seq<Ref>)
    requires ByRelease(ops, lru) && forall r :: r in lru ==> op != Release(r)
    ensures ByRelease(ops + [op], lru)
  {
    hide LastRelease;
    forall a | 0 <= a < |lru| ensures LastRelease(ops + [op], lru[a]) == LastRelease(ops, lru[a]) {
      LastReleaseNext(ops, op, lru[a]);
    }
  }

  lemma ByReleaseOne(ops: seq<Op>, r: Ref, lru: seq<Ref>)
    requires ByRelease(ops, lru) && r !in lru
    ensures ByRelease(ops + [Release(r)], lru + [r])
  {
    hide LastRelease;
    ByReleaseOther(ops, Release(r), lru);
    LastReleaseNext(ops, Release(r), r);
    forall a | 0 <= a < |lru| ensures LastRelease(ops + [Release(r)], lru[a]) < |ops| {
      LastReleaseNext(ops, Release(r), lru[a]);
      LastBelow(ops, lru[a]);
    }
  }

  lemma LastBelow(ops: seq<Op>, r: Ref)
    ensures LastRelease(ops, r) < |ops|
  {
  }

  // ------------------------------------------------------------- one operation

  lemma ReplacingLru(s: Shard, key: HashedKey, value: Value, charge: nat)
    requires Inv(s)
    ensures key in s.dict ==> s.dict[key] in s.entries && s.entries[s.dict[key]].refs > 0 && s.dict[key] < s.issued
    ensures Replacing(s, key, value, charge).lru == if s.capacity > 0 && key in s.dict then Drop(s.lru, s.dict[key]) else s.lru
  {
    hide Members, Charge, Drop, FinishErase, UnrefEntry;
    WhichList(s, s.issued);
    PlacedKeeps(s, key, value, charge);
    if key in s.dict {
      WhichList(s, s.dict[key]);
      if s.capacity > 0 {
        FinishEraseMeans(Placed(s, key, value, charge), s.dict[key]);
      }
    }
  }

  lemma InsertOrder(s: Shard, ops: seq<Op>, key: HashedKey, value: Value, charge: nat)
    requires Inv(s) && ByRelease(ops, s.lru)
    ensures ByRelease(ops, InsertEntry(s, key, value, charge).lru)
  {
    hide ByRelease, Members, Charge, Drop, Evict, Replacing, Keyed;
    ReplacingKeeps(s, key, value, charge);
    ReplacingLru(s, key, value, charge);
    WhichList(s, s.issued);
    if s.capacity > 0 && key in s.dict { ByReleaseWithout(ops, s.lru, s.dict[key]); }
    EvictOrder(Replacing(s, key, value, charge), ops, s.capacity);
  }

  lemma EvictOrder(s: Shard, ops: seq<Op>, limit: int)
    requires Inv(s) && ByRelease(ops, s.lru)
    ensures ByRelease(ops, Evict(s, limit).lru)
  {
    hide ByRelease, Inv, Evict, Freed;
    var n := EvictMeans(s, limit);
    ByReleaseAfter(ops, s.lru, n);
  }

  lemma EraseOrder(s: Shard, ops: seq<Op>, key: HashedKey)
    requires Inv(s) && ByRelease(ops, s.lru)
    ensures DictLive(s) && ByRelease(ops, EraseKey(s, key).lru)
  {
    hide ByRelease, Members, Charge, Drop, FinishErase;
    EraseKeeps(s, key);
    WhichList(s, s.issued);
    if key in s.dict {
      FinishEraseMeans(s.(dict := s.dict - {key}), s.dict[key]);
      ByReleaseWithout(ops, s.lru, s.dict[key]);
    }
  }

  lemma LookupOrder(s: Shard, ops: seq<Op>, key: HashedKey)
    requires Inv(s) && ByRelease(ops, s.lru)
    ensures key in s.dict ==> s.dict[key] in s.entries
    ensures ByRelease(ops, LookupEntry(s, key).lru)
  {
    hide ByRelease, Members, Charge, Drop;
    WhichList(s, s.issued);
    if key in s.dict { ByReleaseWithout(ops, s.lru, s.dict[key]); }
  }

  /** A released handle was no entry to evict before, and is the last one afterwards if it is one at all. */
  lemma ReleaseOrder(s: Shard, ops: seq<Op>, h: Ref)
    requires Inv(s) && Legal(s, Release(h)) && ByRelease(ops, s.lru)
    ensures h in s.entries && s.entries[h].refs > 0 && h !in s.lru
    ensures ByRelease(ops + [Release(h)], UnrefEntry(s, h).lru)
  {
    hide ByRelease, Members, Charge, Drop;
    WhichList(s, h);
    ByReleaseOne(ops, h, s.lru);
    ByReleaseOther(ops, Release(h), s.lru);
  }

  lemma NotReleased(s: Shard, op: Op, r: Ref)
    requires Inv(s) && Legal(s, op) && r in s.lru
    ensures op != Release(r)
  {
    hide Members, Charge;
    WhichList(s, r);
  }

  lemma StepOrder(s: Shard, ops: seq<Op>, op: Op)
    requires Inv(s) && Latest(s) && Legal(s, op) && ByRelease(ops, s.lru)
    ensures Inv(Apply(s, op)) && ByRelease(ops + [op], Apply(s, op).lru)
  {
    StepKeeps(s, op);
    hide Inv, ByRelease, EraseKey, LookupEntry, UnrefEntry, InsertEntry, Evict, Legal;
    var t := Apply(s, op);
    match op
    case Release(h) => ReleaseOrder(s, ops, h);
    case Insert(key, value, charge) =>
      InsertOrder(s, ops, key, value, charge);
      ByReleaseOther(ops, op, t.lru);
    case Lookup(key) =>
      LookupOrder(s, ops, key);
      ByReleaseOther(ops, op, t.lru);
    case Erase(key) =>
      EraseOrder(s, ops, key);
      ByReleaseOther(ops, op, t.lru);
    case Prune =>
      EvictOrder(s, ops, NOTHING_FITS);
      ByReleaseOther(ops, op, t.lru);
  }

  // ---------------------------------------------------------------- whole runs

  lemma {:induction false} RunOrder(s: Shard, ops: seq<Op>)
    requires Inv(s) && Latest(s) && s.lru == [] && LegalRun(s, ops)
    ensures Inv(Run(s, ops)) && Latest(Run(s, ops)) && ByRelease(ops, Run(s, ops).lru)
    decreases |ops|
  {
    hide Inv, Latest, Legal, Apply, LastRelease;
    if ops != [] {
      var front, last := ops[..|ops| - 1], ops[|ops| - 1];
      assert ops == front + [last];
      RunMore(s, front, last);
      RunOrder(s, front);
      StepOrder(Run(s, front), front, last);
      StepKeeps(Run(s, front), last);
    }
  }

  /** In the cache, and no client holds it: what an eviction may take. */
  ghost predicate Idle(s: Shard, r: Ref) {
    r in s.entries && s.entries[r].inCache && Held(s, r) == 0
  }

  lemma IdleIsListed(s: Shard, r: Ref)
    requires Inv(s)
    ensures Idle(s, r) <==> r in s.lru
  {
    hide Members, Charge;
    WhichList(s, r);
  }

  lemma DropSubset(s: seq<Ref>, e: Ref, r: Ref)
    requires Distinct(s) && r in Drop(s, e)
    ensures r in s
  {
    DropMeans(s, e);
  }

  /** Only its release makes an entry idle. */
  lemma IdleBefore(s: Shard, op: Op, r: Ref)
    requires Inv(s) && Latest(s) && Legal(s, op) && op != Release(r) && r in Apply(s, op).lru
    ensures r in s.lru
  {
    hide Members, Charge, Drop, Evict, Replacing, FinishErase;
    WhichList(s, r);
    match op
    case Insert(key, value, charge) =>
      ReplacingKeeps(s, key, value, charge);
      ReplacingLru(s, key, value, charge);
      var n := EvictMeans(Replacing(s, key, value, charge), s.capacity);
      if key in s.dict && r !in s.lru { DropMeans(s.lru, s.dict[key]); }
    case Lookup(key) =>
      if key in s.dict { DropMeans(s.lru, s.dict[key]); }
    case Release(h) =>
    case Erase(key) =>
      EraseKeeps(s, key);
      if key in s.dict {
        FinishEraseMeans(s.(dict := s.dict - {key}), s.dict[key]);
        DropMeans(s.lru, s.dict[key]);
      }
    case Prune =>
      var n := EvictMeans(s, NOTHING_FITS);
  }

  lemma {:induction false} LegalPrefix(s: Shard, ops: seq<Op>, j: nat)
    requires Inv(s) && Latest(s) && LegalRun(s, ops) && j <= |ops|
    ensures LegalRun(s, ops[..j]) && Inv(Run(s, ops[..j])) && Latest(Run(s, ops[..j]))
    decreases |ops|
  {
    hide Inv, Latest, Legal, Apply;
    if j == |ops| {
      assert ops[..j] == ops;
      RunKeeps(s, ops, 0);
    } else {
      var front := ops[..|ops| - 1];
      assert ops == front + [ops[|ops| - 1]] && front[..j] == ops[..j];
      RunMore(s, front, ops[|ops| - 1]);
      LegalPrefix(s, front, j);
    }
  }

  /** An entry that is idle has been so since its last release, and was not before it. */
  lemma {:induction false} IdleSince(s: Shard, ops: seq<Op>, r: Ref, j: nat)
    requires Inv(s) && Latest(s) && s.lru == [] && LegalRun(s, ops) && Idle(Run(s, ops), r)
    requires LastRelease(ops, r) <= j <= |ops|
    ensures 0 <= LastRelease(ops, r) && LegalRun(s, ops[..j]) && (Idle(Run(s, ops[..j]), r) <==> LastRelease(ops, r) < j)
    decreases |ops|
  {
    hide Inv, Latest, Legal, Apply, Idle, LastRelease, ByRelease, Run, LegalRun;
    LegalPrefix(s, ops, j);
    LegalPrefix(s, ops, |ops|);
    assert ops[..|ops|] == ops;
    IdleIsListed(Run(s, ops), r);
    IdleIsListed(Run(s, ops[..j]), r);
    NoRun(s);
    if ops != [] {
      var front, last := ops[..|ops| - 1], ops[|ops| - 1];
      assert ops == front + [last];
      RunMore(s, front, last);
      LastReleaseNext(front, last, r);
      if last == Release(r) {
        assert ops[..j] == if j == |ops| then ops else front;
        HeldWhenReleased(Run(s, front), r);
      } else {
        IdleBefore(Run(s, front), last, r);
        IdleIsListed(Run(s, front), r);
        if j <= |front| {
          assert ops[..j] == front[..j];
          IdleSince(s, front, r, j);
        } else {
          IdleSince(s, front, r, |front|);
        }
      }
    }
  }

  lemma HeldWhenReleased(s: Shard, r: Ref)
    requires Inv(s) && Legal(s, Release(r))
    ensures r !in s.lru
  {
    hide Members, Charge;
    WhichList(s, r);
  }

  lemma NoRun(s: Shard)
    requires Inv(s) && Latest(s)
    ensures Run(s, []) == s
  {
  }

  /** What an eviction takes stands in front of what it leaves. */
  lemma EvictedFirst(s: Shard, limit: int, k: HashedKey, q: Ref)
    requires Inv(s) && k in s.dict && k !in Evict(s, limit).dict && q in Evict(s, limit).lru
    ensures exists a, b :: 0 <= a < b < |s.lru| && s.lru[a] == s.dict[k] && s.lru[b] == q
  {
    hide Inv, Evict;
    var n := EvictMeans(s, limit);
    var t := Evict(s, limit);
    assert s.dict[k] in s.lru[..n];
    var a :| 0 <= a < n && s.lru[..n][a] == s.dict[k];
    var b :| 0 <= b < |s.lru[n..]| && s.lru[n..][b] == q;
    assert s.lru[a] == s.dict[k] && s.lru[n + b] == q;
  }

  lemma EmptyRun(capacity: nat, ops: seq<Op>)
    requires (EmptyKeeps(capacity); LegalRun(Empty(capacity), ops))
    ensures Inv(Empty(capacity)) && Latest(Empty(capacity))
    ensures var s := Run(Empty(capacity), ops); Inv(s) && Latest(s) && ByRelease(ops, s.lru)
  {
    EmptyKeeps(capacity);
    hide Inv, Latest, ByRelease;
    RunOrder(Empty(capacity), ops);
  }

  /** MAIN: every key that an insertion drops was last released before every entry that stays and that no
      client holds. */
  lemma OldestGoFirst(capacity: nat, ops: seq<Op>, key: HashedKey, value: Value, charge: nat, k: HashedKey, q: Ref)
    requires (EmptyKeeps(capacity); LegalRun(Empty(capacity), ops))
    requires (EmptyRun(capacity, ops);
      var s := Run(Empty(capacity), ops);
      var t := Apply(s, Insert(key, value, charge));
      k in s.dict && k != key && k !in t.dict && Idle(t, q))
    ensures Inv(Empty(capacity)) && Latest(Empty(capacity))
    ensures 0 <= LastRelease(ops, Run(Empty(capacity), ops).dict[k]) < LastRelease(ops, q)
  {
    EmptyRun(capacity, ops);
    hide Run, LegalRun, Inv, Latest, Idle, Evict, ByRelease, LastRelease, Replacing;
    var s := Run(Empty(capacity), ops);
    var op := Insert(key, value, charge);
    StepKeeps(s, op);
    IdleIsListed(Apply(s, op), q);
    ReplacingKeeps(s, key, value, charge);
    ReplacingMeans(s, key, value, charge);
    var u := Replacing(s, key, value, charge);
    InsertInFront(s, ops, key, value, charge);
    EvictedFirst(u, s.capacity, k, q);
    var a, b :| 0 <= a < b < |u.lru| && u.lru[a] == u.dict[k] && u.lru[b] == q;
    InOrder(ops, u.lru, a, b);
  }

  lemma InsertInFront(s: Shard, ops: seq<Op>, key: HashedKey, value: Value, charge: nat)
    requires Inv(s) && ByRelease(ops, s.lru)
    ensures key in s.dict ==> s.dict[key] in s.entries && s.entries[s.dict[key]].refs > 0 && s.dict[key] < s.issued
    ensures ByRelease(ops, Replacing(s, key, value, charge).lru) && Replacing(s, key, value, charge).capacity == s.capacity
  {
    hide ByRelease, Members, Charge, Drop, Replacing, Keyed;
    ReplacingLru(s, key, value, charge);
    ReplacingParts(s, key, value, charge);
    WhichList(s, s.issued);
    if s.capacity > 0 && key in s.dict { ByReleaseWithout(ops, s.lru, s.dict[key]); }
  }

  lemma InOrder(ops: seq<Op>, lru: seq<Ref>, a: nat, b: nat)
    requires ByRelease(ops, lru) && a < b < |lru|
    ensures 0 <= LastRelease(ops, lru[a]) < LastRelease(ops, lru[b])
  {
  }

  /** MAIN: of two entries that no client holds, the one released longer ago stands nearer the front, where
      evictions begin. */
  lemma ListedByRelease(capacity: nat, ops: seq<Op>, a: nat, b: nat)
    requires (EmptyKeeps(capacity); LegalRun(Empty(capacity), ops))
    requires (EmptyKeeps(capacity); a < b < |Run(Empty(capacity), ops).lru|)
    ensures Inv(Empty(capacity)) && Latest(Empty(capacity))
    ensures var lru := Run(Empty(capacity), ops).lru; 0 <= LastRelease(ops, lru[a]) < LastRelease(ops, lru[b])
  {
    EmptyRun(capacity, ops);
    hide Run, LegalRun;
  }
}
