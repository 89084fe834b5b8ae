/** What every run of cache operations keeps: the counts clients rely on, no stale value, and each
    deleter at most once. */
module CacheRuns {
  import opened Cache
  import opened HandleTables
  import opened Rings
  import opened Wrappers

  /** The references clients have to an entry. */
  function Held(s: Shard, r: Ref): int {
    if r in s.entries then s.entries[r].refs - (if s.entries[r].inCache then 1 else 0) else 0
  }

  datatype Op =
    | Insert(key: HashedKey, value: Value, charge: nat)
    | Lookup(key: HashedKey)
    | Release(handle: Ref)
    | Erase(key: HashedKey)
    | Prune

  /** A client releases only a handle that it holds. */
  predicate Legal(s: Shard, op: Op) {
    op.Release? ==> Held(s, op.handle) > 0
  }

  function LookupEntry(s: Shard, key: HashedKey): Shard
    requires key in s.dict ==> s.dict[key] in s.entries
  {
    if key in s.dict then RefEntry(s, s.dict[key]) else s
  }

  // No usage is below this limit.
  const NOTHING_FITS := -1

  ghost function Apply(s: Shard, op: Op): Shard
    requires Inv(s) && Legal(s, op)
  {
    match op
    case Insert(key, value, charge) => InsertEntry(s, key, value, charge)
    case Lookup(key) => LookupEntry(s, key)
    case Release(h) => UnrefEntry(s, h)
    case Erase(key) =>
      EraseKeeps(s, key);
      EraseKey(s, key)
    case Prune => Evict(s, NOTHING_FITS)
  }

  /** The handle that the operation gives to its client. */
  function Handed(s: Shard, op: Op): Option<Ref> {
    match op
    case Insert(_, _, _) => Some(s.issued)
    case Lookup(key) => if key in s.dict then Some(s.dict[key]) else None
    case _ => None
  }

  function Change(s: Shard, op: Op, r: Ref): int {
    (if Handed(s, op) == Some(r) then 1 else 0) - (if op == Release(r) then 1 else 0)
  }

  /** What one operation may do to the entries and the deleters. */
  ghost predicate Steady(s: Shard, t: Shard) {
    && s.deleted <= t.deleted && s.issued <= t.issued && s.capacity == t.capacity
    && (forall r :: r in s.entries ==> r in t.entries)
    && (forall r :: r in s.entries ==> Same(s.entries[r], t.entries[r]))
  }

  predicate Same(x: Entry, y: Entry) {
    x.key == y.key && x.value == y.value && x.charge == y.charge
  }

  lemma SteadySelf(s: Shard)
    ensures Steady(s, s)
  {
  }

  lemma HeldIs(s: Shard, r: Ref)
    ensures Held(s, r) == if r in s.entries then s.entries[r].refs - (if s.entries[r].inCache then 1 else 0) else 0
  {
  }

  lemma SteadyTrans(s: Shard, t: Shard, u: Shard)
    requires Steady(s, t) && Steady(t, u)
    ensures Steady(s, u)
  {
  }

  /** No two entries of one key: the one in the hash table is the last one inserted. */
  ghost predicate Latest(s: Shard) {
    && (s.capacity == 0 ==> s.dict == map[])
    && forall k, r :: k in s.dict && r in s.entries && s.entries[r].key == k ==> r <= s.dict[k]
  }

  lemma FreedSteady(s: Shard, t: Shard, gone: seq<Ref>)
    requires Freed(s, t, gone) && s.capacity == t.capacity
    requires forall r :: r in gone ==> r in s.entries && s.entries[r].inCache && s.entries[r].refs == 1
    ensures forall r :: r in s.entries ==> r in t.entries && Same(s.entries[r], t.entries[r])
    ensures forall r :: Held(t, r) == Held(s, r)
    ensures Latest(s) ==> Latest(t)
  {
  }

  lemma EvictSteady(s: Shard, limit: int)
    requires Inv(s)
    ensures var t := Evict(s, limit); Inv(t) && Steady(s, t) && (Latest(s) ==> Latest(t)) && forall r :: Held(t, r) == Held(s, r)
    ensures var t := Evict(s, limit); t.usage <= limit || t.lru == []
  {
    hide Charge, Evict, Freed, Latest, Members, Keyed, Held, Same;
    var n := EvictMeans(s, limit);
    var t := Evict(s, limit);
    forall r | r in s.lru[..n] ensures r in s.entries && s.entries[r].inCache && s.entries[r].refs == 1 {
      assert r in s.lru;
      WhichList(s, r);
    }
    FreedSteady(s, t, s.lru[..n]);
  }

  lemma InsertSteady(s: Shard, key: HashedKey, value: Value, charge: nat)
    requires Inv(s)
    ensures var t := InsertEntry(s, key, value, charge); Inv(t) && Steady(s, t) && (Latest(s) ==> Latest(t))
    ensures var t := InsertEntry(s, key, value, charge); forall r :: Held(t, r) == Held(s, r) + if r == s.issued then 1 else 0
  {
    ReplacingKeeps(s, key, value, charge);
    var t := Replacing(s, key, value, charge);
    EvictSteady(t, s.capacity);
    ReplacingSteady(s, key, value, charge);
    SteadyTrans(s, t, Evict(t, s.capacity));
  }

  /** What an insertion does before it evicts: the new entry, and the old one of its key given up. */
  lemma ReplacingParts(s: Shard, key: HashedKey, value: Value, charge: nat)
    requires Inv(s)
    ensures key in s.dict ==> s.dict[key] in s.entries && s.entries[s.dict[key]].refs > 0 && s.dict[key] < s.issued && s.entries[s.dict[key]].inCache
    ensures s.issued !in s.entries && forall r :: r in s.entries ==> r < s.issued
    ensures var t, p := Replacing(s, key, value, charge), Placed(s, key, value, charge);
      && t.dict == p.dict && t.issued == p.issued && t.capacity == p.capacity && s.deleted <= t.deleted
      && t.entries == if s.capacity > 0 && key in s.dict then
                        var x := s.entries[s.dict[key]]; p.entries[s.dict[key] := x.(inCache := false, refs := x.refs - 1)]
                      else p.entries
  {
    hide Members, Charge, Drop, FinishErase, UnrefEntry;
    WhichList(s, s.issued);
    PlacedKeeps(s, key, value, charge);
    forall r | r in s.entries ensures r < s.issued { WhichList(s, r); }
    if key in s.dict {
      WhichList(s, s.dict[key]);
      if s.capacity > 0 {
        FinishEraseMeans(Placed(s, key, value, charge), s.dict[key]);
      }
    }
  }

  lemma ReplacingLatest(s: Shard, key: HashedKey, value: Value, charge: nat)
    requires Inv(s) && Latest(s)
    ensures key in s.dict ==> s.dict[key] in s.entries && s.entries[s.dict[key]].refs > 0 && s.dict[key] < s.issued
    ensures Latest(Replacing(s, key, value, charge))
  {
    ReplacingParts(s, key, value, charge);
    hide Inv, Replacing;
    var t := Replacing(s, key, value, charge);
    forall k, r | k in t.dict && r in t.entries && t.entries[r].key == k ensures r <= t.dict[k] {
      if r != s.issued {
        assert r in s.entries && s.entries[r].key == k;
      }
    }
  }

  lemma ReplacingEntry(s: Shard, key: HashedKey, value: Value, charge: nat, r: Ref)
    requires Inv(s)
    ensures key in s.dict ==> s.dict[key] in s.entries && s.entries[s.dict[key]].refs > 0 && s.dict[key] < s.issued
    ensures var t := Replacing(s, key, value, charge);
      && (r in s.entries ==> r in t.entries && Same(s.entries[r], t.entries[r]))
      && Held(t, r) == Held(s, r) + if r == s.issued then 1 else 0
  {
    ReplacingParts(s, key, value, charge);
    hide Inv, Replacing;
  }

  lemma ReplacingSteady(s: Shard, key: HashedKey, value: Value, charge: nat)
    requires Inv(s)
    ensures key in s.dict ==> s.dict[key] in s.entries && s.entries[s.dict[key]].refs > 0 && s.dict[key] < s.issued
    ensures var t := Replacing(s, key, value, charge); Steady(s, t) && (Latest(s) ==> Latest(t))
    ensures var t := Replacing(s, key, value, charge); forall r :: Held(t, r) == Held(s, r) + if r == s.issued then 1 else 0
  {
    if Latest(s) { ReplacingLatest(s, key, value, charge); }
    ReplacingParts(s, key, value, charge);
    hide Inv, Replacing, Latest, Held, Same;
    var t := Replacing(s, key, value, charge);
    forall r
      ensures r in s.entries ==> r in t.entries && Same(s.entries[r], t.entries[r])
      ensures Held(t, r) == Held(s, r) + if r == s.issued then 1 else 0
    {
      ReplacingEntry(s, key, value, charge, r);
    }
  }

  /** From one shard to the next, with the change in the references clients have. */
  ghost predicate Kept(s: Shard, t: Shard, op: Op) {
    Inv(t) && Latest(t) && Steady(s, t) && forall r :: Held(t, r) == Held(s, r) + Change(s, op, r)
  }

  lemma OneEntry(s: Shard, t: Shard, e: Ref, x: Entry)
    requires e in s.entries && t.entries == s.entries[e := x] && Same(s.entries[e], x) && s.capacity == t.capacity && s.issued == t.issued
    requires t.dict == s.dict || t.dict == s.dict - {x.key}
    requires s.deleted <= t.deleted && Latest(s)
    ensures Latest(t) && Steady(s, t) && (forall r :: r != e ==> Held(t, r) == Held(s, r)) && Held(t, e) == x.refs - (if x.inCache then 1 else 0)
  {
  }

  lemma LookupKept(s: Shard, key: HashedKey)
    requires Inv(s) && Latest(s)
    ensures key in s.dict ==> s.dict[key] in s.entries
    ensures Kept(s, LookupEntry(s, key), Lookup(key))
  {
    hide Members, Charge, Drop, Held, Latest;
    if key in s.dict {
      var e := s.dict[key];
      WhichList(s, e);
      RefKeeps(s, e);
      var t := RefEntry(s, e);
      OneEntry(s, t, e, t.entries[e]);
      HeldIs(s, e);
      HeldIs(t, e);
    }
  }

  lemma ReleaseKept(s: Shard, h: Ref)
    requires Inv(s) && Latest(s) && Legal(s, Release(h))
    ensures h in s.entries && s.entries[h].refs > 0 && Kept(s, UnrefEntry(s, h), Release(h))
  {
    hide Members, Charge, Drop, Held, Latest;
    HeldIs(s, h);
    UnrefKeeps(s, h);
    var t := UnrefEntry(s, h);
    OneEntry(s, t, h, t.entries[h]);
    HeldIs(t, h);
  }

  lemma EraseKept(s: Shard, key: HashedKey)
    requires Inv(s) && Latest(s)
    ensures DictLive(s) && Kept(s, EraseKey(s, key), Erase(key))
  {
    hide Members, Charge, Drop, Held, Latest, FinishErase;
    EraseKeeps(s, key);
    if key in s.dict {
      var e := s.dict[key];
      FinishEraseMeans(s.(dict := s.dict - {key}), e);
      var t := EraseKey(s, key);
      OneEntry(s, t, e, t.entries[e]);
      HeldIs(s, e);
      HeldIs(t, e);
    }
  }

  /** One operation keeps the invariant and moves the client references by what it hands out and takes
      back. */
  lemma StepKeeps(s: Shard, op: Op)
    requires Inv(s) && Latest(s) && Legal(s, op)
    ensures Kept(s, Apply(s, op), op)
  {
    hide Inv, EraseKey, Held, Latest, Steady, LookupEntry, UnrefEntry;
    match op
    case Insert(key, value, charge) =>
      InsertSteady(s, key, value, charge);
    case Lookup(key) =>
      LookupKept(s, key);
    case Release(h) =>
      ReleaseKept(s, h);
    case Erase(key) =>
      EraseKept(s, key);
    case Prune =>
      EvictSteady(s, NOTHING_FITS);
  }

  // -------------------------------------------------------------------- runs

  ghost predicate LegalRun(s: Shard, ops: seq<Op>)
    requires Inv(s) && Latest(s)
    decreases |ops|
  {
    ops == [] || (Legal(s, ops[0]) && (StepKeeps(s, ops[0]); LegalRun(Apply(s, ops[0]), ops[1..])))
  }

  ghost function Run(s: Shard, ops: seq<Op>): Shard
    requires Inv(s) && Latest(s) && LegalRun(s, ops)
    decreases |ops|
  {
    if ops == [] then s else
      StepKeeps(s, ops[0]);
      Run(Apply(s, ops[0]), ops[1..])
  }

  /** The handles of r given out in a run, less those taken back. */
  ghost function Balance(s: Shard, ops: seq<Op>, r: Ref): int
    requires Inv(s) && Latest(s) && LegalRun(s, ops)
    decreases |ops|
  {
    if ops == [] then 0 else
      StepKeeps(s, ops[0]);
      Change(s, ops[0], r) + Balance(Apply(s, ops[0]), ops[1..], r)
  }

  lemma {:induction false} RunKeeps(s: Shard, ops: seq<Op>, r: Ref)
    requires Inv(s) && Latest(s) && LegalRun(s, ops)
    ensures Inv(Run(s, ops)) && Latest(Run(s, ops)) && Steady(s, Run(s, ops))
    ensures Held(Run(s, ops), r) == Held(s, r) + Balance(s, ops, r)
    decreases |ops|
  {
    hide Inv, Latest, Apply, Held, Change, Steady;
    if ops != [] {
      StepKeeps(s, ops[0]);
      var t := Apply(s, ops[0]);
      RunKeeps(t, ops[1..], r);
      SteadyTrans(s, t, Run(t, ops[1..]));
    } else {
      SteadySelf(s);
    }
  }

  function Empty(capacity: nat): Shard {
    Shard(capacity, 0, [], [], map[], map[], FIRST_HANDLE, [])
  }

  lemma EmptyKeeps(capacity: nat)
    ensures Inv(Empty(capacity)) && Latest(Empty(capacity))
  {
  }

  /** After any run: an entry's deleter has run, once, exactly when the cache has let the entry go and
      every handle to it that was given out has been released. */
  lemma DeletersRunOnce(capacity: nat, ops: seq<Op>, r: Ref)
    requires (EmptyKeeps(capacity); LegalRun(Empty(capacity), ops))
    ensures Inv(Empty(capacity)) && Latest(Empty(capacity))
    ensures var s := Run(Empty(capacity), ops);
      && Distinct(s.deleted) && Balance(Empty(capacity), ops, r) >= 0
      && (r in s.deleted <==> r in s.entries && !s.entries[r].inCache && Balance(Empty(capacity), ops, r) == 0)
  {
    EmptyKeeps(capacity);
    hide Run, LegalRun, Balance;
    RunKeeps(Empty(capacity), ops, r);
    WhichList(Run(Empty(capacity), ops), r);
  }

  /** A hit returns the value last inserted under the key. */
  lemma NoStaleHit(capacity: nat, ops: seq<Op>, key: HashedKey, r: Ref)
    requires (EmptyKeeps(capacity); LegalRun(Empty(capacity), ops))
    ensures Inv(Empty(capacity)) && Latest(Empty(capacity))
    ensures var s := Run(Empty(capacity), ops);
      key in s.dict ==>
        && s.dict[key] in s.entries && s.entries[s.dict[key]].key == key
        && (r in s.entries && s.entries[r].key == key ==> r <= s.dict[key])
  {
    EmptyKeeps(capacity);
    RunKeeps(Empty(capacity), ops, r);
  }

  lemma ReplacingMeans(s: Shard, key: HashedKey, value: Value, charge: nat)
    requires Inv(s)
    ensures key in s.dict ==> s.dict[key] in s.entries && s.entries[s.dict[key]].refs > 0 && s.dict[key] < s.issued
    ensures var t := Replacing(s, key, value, charge);
      && s.issued in t.entries && t.entries[s.issued] == (if s.capacity > 0 then Entry(key, value, charge, true, 2) else Entry(key, value, charge, false, 1))
      && t.dict == (if s.capacity > 0 then s.dict[key := s.issued] else s.dict)
      && forall k :: k in s.dict && k != key ==> s.dict[k] in t.entries && t.entries[s.dict[k]] == s.entries[s.dict[k]]
  {
    hide Members, Charge, Drop, FinishErase, UnrefEntry;
    var t := Placed(s, key, value, charge);
    WhichList(s, s.issued);
    PlacedKeeps(s, key, value, charge);
    forall k | k in s.dict ensures s.dict[k] < s.issued { WhichList(s, s.dict[k]); }
    if key in s.dict {
      WhichList(s, s.dict[key]);
      if s.capacity > 0 {
        FinishEraseMeans(t, s.dict[key]);
      }
    }
  }

  /** After an insertion the cache is within its capacity, or everything in it is held by a client; the
      new entry is found under its key, and an entry with another key that a client holds stays. */
  lemma InsertMeans(s: Shard, key: HashedKey, value: Value, charge: nat)
    requires Inv(s)
    ensures var t := InsertEntry(s, key, value, charge);
      && Inv(t) && (t.usage <= s.capacity || t.lru == [])
      && s.issued in t.entries && Same(t.entries[s.issued], Entry(key, value, charge, true, 2))
      && (s.capacity > 0 ==> key in t.dict && t.dict[key] == s.issued)
    ensures var t := InsertEntry(s, key, value, charge);
      && (forall k :: k in t.dict && k != key ==> k in s.dict && t.dict[k] == s.dict[k])
      && (forall k :: k in s.dict && k != key && Held(s, s.dict[k]) > 0 ==> k in t.dict)
  {
    hide Members, Charge, Drop, Evict, Replacing;
    ReplacingKeeps(s, key, value, charge);
    ReplacingMeans(s, key, value, charge);
    var t := Replacing(s, key, value, charge);
    var n := EvictMeans(t, s.capacity);
    forall r | r in t.lru[..n] ensures r in t.entries && t.entries[r].refs == 1 && t.entries[r].inCache {
      assert r in t.lru;
      WhichList(t, r);
    }
    EvictSteady(t, s.capacity);
  }

  /** What each operation does to the dictionary: a lookup and a release nothing, an erasure takes one key
      out, and pruning takes out just the keys whose entries no client holds. */
  lemma DictMeans(s: Shard, op: Op)
    requires Inv(s) && Legal(s, op)
    ensures op.Lookup? || op.Release? ==> Apply(s, op).dict == s.dict && Apply(s, op).usage == s.usage
    ensures op.Erase? ==> Apply(s, op).dict == s.dict - {op.key}
    ensures op.Prune? ==> forall k :: k in Apply(s, op).dict <==> k in s.dict && Held(s, s.dict[k]) > 0
    ensures op.Prune? ==> forall k :: k in Apply(s, op).dict ==> Apply(s, op).dict[k] == s.dict[k]
  {
    hide Members, Charge, Drop, Evict, FinishErase, Replacing;
    match op
    case Insert(_, _, _) =>
    case Lookup(_) =>
    case Release(_) =>
    case Erase(key) =>
      EraseKeeps(s, key);
      if key in s.dict {
        WhichList(s, s.dict[key]);
        FinishEraseMeans(s.(dict := s.dict - {key}), s.dict[key]);
      } else {
        assert s.dict - {key} == s.dict;
      }
    case Prune =>
      PruneMeans(s);
  }

  lemma PruneMeans(s: Shard)
    requires Inv(s)
    ensures var t := Evict(s, NOTHING_FITS);
      && (forall k :: k in t.dict <==> k in s.dict && Held(s, s.dict[k]) > 0)
      && (forall k :: k in t.dict ==> t.dict[k] == s.dict[k])
  {
    hide Charge, Evict, Members;
    var n := EvictMeans(s, NOTHING_FITS);
    var t := Evict(s, NOTHING_FITS);
    UsageNotNegative(t);
    assert n == |s.lru| && s.lru[..n] == s.lru;
    forall k | k in s.dict ensures s.dict[k] in s.lru <==> Held(s, s.dict[k]) == 0 {
      WhichList(s, s.dict[k]);
    }
    forall k | k in s.dict ensures Held(s, s.dict[k]) >= 0 {
      WhichList(s, s.dict[k]);
    }
  }

  lemma UsageNotNegative(s: Shard)
    requires Inv(s)
    ensures s.usage > NOTHING_FITS
  {
    ChargeNotNegative(s.entries, s.lru);
    ChargeNotNegative(s.entries, s.inUse);
  }

  lemma {:induction false} ChargeNotNegative(entries: map<Ref, Entry>, refs: seq<Ref>)
    ensures Charge(entries, refs) >= 0
  {
    if refs != [] { ChargeNotNegative(entries, refs[1..]); }
  }
}
