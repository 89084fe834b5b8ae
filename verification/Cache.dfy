/** What one shard of the LRU cache does (LRUCache in util/cache.cc), as functions on its state, and
    what every run of operations keeps. */
module Cache {
  import opened HandleTables
  import opened Rings
  import opened Wrappers

  // A pointer to the cached object.
  type Value = nat

  // An entry whose reference count is 0 has been freed; nothing reads it again.
  datatype Entry = Entry(key: HashedKey, value: Value, charge: nat, inCache: bool, refs: nat)

  /** The lists run from the oldest entry to the newest. `deleted` records the runs of deleters, and
      `issued` is the next handle to be allocated. */
  datatype Shard = Shard(capacity: nat, usage: int, lru: seq<Ref>, inUse: seq<Ref>, entries: map<Ref, Entry>, dict: map<HashedKey, Ref>,
                         issued: Ref, deleted: seq<Ref>)

  // The handles 0 and 1 are the dummy heads of the lists.
  const FIRST_HANDLE: Ref := 2

  // ------------------------------------------------------------------ lists

  function Drop(s: seq<Ref>, r: Ref): seq<Ref> {
    if s == [] then [] else if s[0] == r then s[1..] else [s[0]] + Drop(s[1..], r)
  }

  lemma {:induction false} DropMeans(s: seq<Ref>, r: Ref)
    requires Distinct(s)
    ensures Distinct(Drop(s, r))
    ensures forall x :: x in Drop(s, r) <==> x in s && x != r
    ensures r !in s ==> Drop(s, r) == s
  {
    if s != [] {
      assert s == [s[0]] + s[1..];
      if s[0] == r {
        assert r !in s[1..];
      } else {
        DropMeans(s[1..], r);
        assert s[0] !in s[1..];
      }
    }
  }

  lemma {:induction false} DropAt(s: seq<Ref>, k: nat)
    requires Distinct(s) && k < |s|
    ensures Drop(s, s[k]) == s[..k] + s[k + 1..]
  {
    if k == 0 {
      assert s[..0] + s[1..] == s[1..];
    } else {
      var u := s[1..];
      DropAt(u, k - 1);
      assert u[..k - 1] + u[k..] == s[1..k] + s[k + 1..];
      assert [s[0]] + (s[1..k] + s[k + 1..]) == s[..k] + s[k + 1..];
    }
  }

  function Charge(entries: map<Ref, Entry>, s: seq<Ref>): int {
    if s == [] then 0 else (if s[0] in entries then entries[s[0]].charge else 0) + Charge(entries, s[1..])
  }

  /** Changing anything but the charge of one entry changes no sum. */
  lemma {:induction false} ChargeSame(entries: map<Ref, Entry>, e: Ref, x: Entry, s: seq<Ref>)
    requires e in s ==> e in entries && x.charge == entries[e].charge
    ensures Charge(entries[e := x], s) == Charge(entries, s)
  {
    if s != [] {
      assert s[0] in s;
      assert forall r :: r in s[1..] ==> r in s;
      ChargeSame(entries, e, x, s[1..]);
    }
  }

  lemma {:induction false} ChargeDrop(entries: map<Ref, Entry>, s: seq<Ref>, e: Ref, x: Entry)
    requires e in entries && x.charge == entries[e].charge
    ensures Charge(entries[e := x], Drop(s, e)) == Charge(entries, s) - if e in s then x.charge else 0
  {
    if s != [] {
      if s[0] == e {
        ChargeSame(entries, e, x, s[1..]);
      } else {
        ChargeDrop(entries, s[1..], e, x);
        assert Drop(s, e)[1..] == Drop(s[1..], e);
      }
    }
  }

  lemma {:induction false} ChargeAppend(entries: map<Ref, Entry>, s: seq<Ref>, e: Ref, x: Entry)
    requires e in s ==> e in entries && x.charge == entries[e].charge
    ensures Charge(entries[e := x], s + [e]) == Charge(entries, s) + x.charge
  {
    if s != [] {
      assert s[0] in s;
      assert forall r :: r in s[1..] ==> r in s;
      ChargeAppend(entries, s[1..], e, x);
      assert (s + [e])[1..] == s[1..] + [e];
    } else {
      assert (s + [e])[1..] == [];
    }
  }

  // -------------------------------------------------------------- operations

  function RefEntry(s: Shard, e: Ref): Shard
    requires e in s.entries
  {
    var x := s.entries[e];
    var moved := if x.refs == 1 && x.inCache then s.(lru := Drop(s.lru, e), inUse := s.inUse + [e]) else s;
    moved.(entries := s.entries[e := x.(refs := x.refs + 1)])
  }

  function UnrefEntry(s: Shard, e: Ref): Shard
    requires e in s.entries && s.entries[e].refs > 0
  {
    var x := s.entries[e].(refs := s.entries[e].refs - 1);
    var counted := s.(entries := s.entries[e := x]);
    if x.refs == 0 then
      counted.(deleted := s.deleted + [e])
    else if x.inCache && x.refs == 1 then
      counted.(inUse := Drop(s.inUse, e), lru := s.lru + [e])
    else
      counted
  }

  /** The cache gives up its reference to an entry that has left the hash table. */
  function FinishErase(s: Shard, e: Ref): Shard
    requires e in s.entries && s.entries[e].refs > 0
  {
    var x := s.entries[e];
    UnrefEntry(s.(lru := Drop(s.lru, e), inUse := Drop(s.inUse, e), usage := s.usage - x.charge, entries := s.entries[e := x.(inCache := false)]), e)
  }

  ghost predicate DictLive(s: Shard) {
    forall k :: k in s.dict ==> s.dict[k] in s.entries && s.entries[s.dict[k]].refs > 0
  }

  function EraseKey(s: Shard, key: HashedKey): Shard
    requires key in s.dict ==> s.dict[key] in s.entries && s.entries[s.dict[key]].refs > 0
  {
    if key in s.dict then FinishErase(s.(dict := s.dict - {key}), s.dict[key]) else s
  }

  /** A new entry, held by the caller and, unless caching is off, by the cache. */
  function Placed(s: Shard, key: HashedKey, value: Value, charge: nat): Shard {
    var e := s.issued;
    if s.capacity > 0 then
      s.(inUse := s.inUse + [e], usage := s.usage + charge, entries := s.entries[e := Entry(key, value, charge, true, 2)],
         dict := s.dict[key := e], issued := e + 1)
    else
      s.(entries := s.entries[e := Entry(key, value, charge, false, 1)], issued := e + 1)
  }

  /** The entry that had the key before is erased. */
  function Replacing(s: Shard, key: HashedKey, value: Value, charge: nat): Shard
    requires key in s.dict ==> s.dict[key] in s.entries && s.entries[s.dict[key]].refs > 0 && s.dict[key] < s.issued
  {
    var placed := Placed(s, key, value, charge);
    if s.capacity > 0 && key in s.dict then FinishErase(placed, s.dict[key]) else placed
  }

  // --------------------------------------------------------------- invariant

  /** Each entry is in the list its reference count and the cache's own reference decide, and deleters
      ran for the freed entries, once each. */
  ghost predicate Members(entries: map<Ref, Entry>, lru: seq<Ref>, inUse: seq<Ref>, deleted: seq<Ref>, issued: Ref) {
    && Distinct(lru) && Distinct(inUse) && Distinct(deleted)
    && (forall r :: r in lru <==> r in entries && entries[r].inCache && entries[r].refs == 1)
    && (forall r :: r in inUse <==> r in entries && entries[r].inCache && entries[r].refs >= 2)
    && (forall r :: r in deleted <==> r in entries && entries[r].refs == 0)
    && (forall r :: r in entries ==> FIRST_HANDLE <= r < issued && (entries[r].inCache ==> entries[r].refs > 0))
    && FIRST_HANDLE <= issued
  }

  /** The usage is what the entries of the cache charge. */
  ghost predicate Lists(s: Shard) {
    && Members(s.entries, s.lru, s.inUse, s.deleted, s.issued)
    && s.usage == Charge(s.entries, s.lru) + Charge(s.entries, s.inUse)
  }

  /** A list after a change to one entry, which is in it just when `b`. */
  ghost predicate After(s: seq<Ref>, s': seq<Ref>, e: Ref, b: bool) {
    Distinct(s') && (forall r :: r != e ==> (r in s' <==> r in s)) && (e in s' <==> b)
  }

  lemma AfterAppend(s: seq<Ref>, e: Ref)
    requires Distinct(s) && e !in s
    ensures After(s, s + [e], e, true)
  {
  }

  lemma MembersAfter(entries: map<Ref, Entry>, lru: seq<Ref>, inUse: seq<Ref>, deleted: seq<Ref>, issued: Ref,
                     e: Ref, x: Entry, lru': seq<Ref>, inUse': seq<Ref>, deleted': seq<Ref>, issued': Ref)
    requires Members(entries, lru, inUse, deleted, issued) && FIRST_HANDLE <= e < issued' && issued <= issued'
    requires x.inCache ==> x.refs > 0
    requires After(lru, lru', e, x.inCache && x.refs == 1)
    requires After(inUse, inUse', e, x.inCache && x.refs >= 2)
    requires After(deleted, deleted', e, x.refs == 0)
    ensures Members(entries[e := x], lru', inUse', deleted', issued')
  {
  }

  lemma AfterDrop(s: seq<Ref>, e: Ref)
    requires Distinct(s)
    ensures After(s, Drop(s, e), e, false)
  {
    DropMeans(s, e);
  }

  lemma WhichList(s: Shard, e: Ref)
    requires Lists(s)
    ensures Distinct(s.lru) && Distinct(s.inUse) && Distinct(s.deleted)
    ensures e in s.lru <==> e in s.entries && s.entries[e].inCache && s.entries[e].refs == 1
    ensures e in s.inUse <==> e in s.entries && s.entries[e].inCache && s.entries[e].refs >= 2
    ensures e in s.deleted <==> e in s.entries && s.entries[e].refs == 0
    ensures e in s.entries ==> FIRST_HANDLE <= e < s.issued && (s.entries[e].inCache ==> s.entries[e].refs > 0)
    ensures FIRST_HANDLE <= s.issued
  {
  }

  /** The hash table holds exactly the entries of the cache. */
  ghost predicate Keyed(s: Shard) {
    && (forall k :: k in s.dict ==> s.dict[k] in s.entries && s.entries[s.dict[k]].inCache && s.entries[s.dict[k]].key == k)
    && (forall r :: r in s.entries && s.entries[r].inCache ==> s.entries[r].key in s.dict && s.dict[s.entries[r].key] == r)
  }

  ghost predicate Inv(s: Shard) {
    Lists(s) && Keyed(s)
  }

  lemma KeyedAfter(s: Shard, t: Shard, e: Ref)
    requires Keyed(s) && e in s.entries && t.dict == s.dict
    requires exists refs :: t.entries == s.entries[e := s.entries[e].(refs := refs)]
    ensures Keyed(t)
  {
  }

  lemma RefKeeps(s: Shard, e: Ref)
    requires Lists(s) && e in s.entries && s.entries[e].refs > 0
    ensures Lists(RefEntry(s, e))
    ensures Keyed(s) ==> Keyed(RefEntry(s, e))
  {
    hide Members, Charge, Drop, Keyed;
    WhichList(s, e);
    var t, x := RefEntry(s, e), s.entries[e].(refs := s.entries[e].refs + 1);
    if x.refs == 2 && x.inCache {
      AfterDrop(s.lru, e);
      AfterAppend(s.inUse, e);
      ChargeDrop(s.entries, s.lru, e, x);
      ChargeAppend(s.entries, s.inUse, e, x);
    } else {
      ChargeSame(s.entries, e, x, s.lru);
      ChargeSame(s.entries, e, x, s.inUse);
    }
    MembersAfter(s.entries, s.lru, s.inUse, s.deleted, s.issued, e, x, t.lru, t.inUse, t.deleted, t.issued);
    if Keyed(s) { KeyedAfter(s, t, e); }
  }

  lemma UnrefKeeps(s: Shard, e: Ref)
    requires Lists(s) && e in s.entries && s.entries[e].refs > (if s.entries[e].inCache then 1 else 0)
    ensures Lists(UnrefEntry(s, e))
    ensures Keyed(s) ==> Keyed(UnrefEntry(s, e))
  {
    hide Members, Charge, Drop, Keyed;
    WhichList(s, e);
    var t, x := UnrefEntry(s, e), s.entries[e].(refs := s.entries[e].refs - 1);
    if x.refs == 1 && x.inCache {
      AfterAppend(s.lru, e);
      AfterDrop(s.inUse, e);
      ChargeAppend(s.entries, s.lru, e, x);
      ChargeDrop(s.entries, s.inUse, e, x);
    } else {
      ChargeSame(s.entries, e, x, s.lru);
      ChargeSame(s.entries, e, x, s.inUse);
      if x.refs == 0 { AfterAppend(s.deleted, e); }
    }
    MembersAfter(s.entries, s.lru, s.inUse, s.deleted, s.issued, e, x, t.lru, t.inUse, t.deleted, t.issued);
    if Keyed(s) { KeyedAfter(s, t, e); }
  }

  lemma FinishEraseKeeps(s: Shard, e: Ref)
    requires Lists(s) && e in s.entries && s.entries[e].inCache
    ensures s.entries[e].refs > 0 && Lists(FinishErase(s, e))
  {
    hide Members, Charge, Drop;
    WhichList(s, e);
    var x := s.entries[e].(inCache := false);
    var t := s.(lru := Drop(s.lru, e), inUse := Drop(s.inUse, e), usage := s.usage - x.charge, entries := s.entries[e := x]);
    AfterDrop(s.lru, e);
    AfterDrop(s.inUse, e);
    ChargeDrop(s.entries, s.lru, e, x);
    ChargeDrop(s.entries, s.inUse, e, x);
    MembersAfter(s.entries, s.lru, s.inUse, s.deleted, s.issued, e, x, t.lru, t.inUse, t.deleted, t.issued);
    assert FinishErase(s, e) == UnrefEntry(t, e);
    hide FinishErase, UnrefEntry;
    UnrefKeeps(t, e);
  }

  /** What a finished erase leaves of the other entries. */
  lemma FinishEraseMeans(s: Shard, e: Ref)
    requires Lists(s) && e in s.entries && s.entries[e].inCache
    ensures s.entries[e].refs > 0
    ensures var t, x := FinishErase(s, e), s.entries[e];
      && t.entries == s.entries[e := x.(inCache := false, refs := x.refs - 1)] && t.dict == s.dict && t.issued == s.issued && t.capacity == s.capacity
      && t.lru == Drop(s.lru, e) && t.inUse == Drop(s.inUse, e) && t.usage == s.usage - x.charge
      && t.deleted == if x.refs == 1 then s.deleted + [e] else s.deleted
  {
    hide Members, Charge, Drop;
    WhichList(s, e);
  }

  lemma EraseKeeps(s: Shard, key: HashedKey)
    requires Inv(s)
    ensures DictLive(s) && Inv(EraseKey(s, key))
  {
    hide Members, Charge, Drop;
    forall k | k in s.dict ensures s.entries[s.dict[k]].refs > 0 { WhichList(s, s.dict[k]); }
    if key in s.dict {
      var s1 := s.(dict := s.dict - {key});
      hide FinishErase, UnrefEntry;
      FinishEraseKeeps(s1, s.dict[key]);
      FinishEraseMeans(s1, s.dict[key]);
    }
  }

  lemma EvictOne(s: Shard)
    requires Inv(s) && s.lru != []
    ensures s.lru[0] in s.entries && s.entries[s.lru[0]].key in s.dict && s.dict[s.entries[s.lru[0]].key] == s.lru[0] && s.entries[s.lru[0]].refs == 1
    ensures var t := EraseKey(s, s.entries[s.lru[0]].key);
      && Inv(t) && t.lru == s.lru[1..] && t.inUse == s.inUse && t.deleted == s.deleted + [s.lru[0]] && t.issued == s.issued && t.capacity == s.capacity
      && t.usage == s.usage - s.entries[s.lru[0]].charge && t.dict == s.dict - {s.entries[s.lru[0]].key}
      && t.entries == s.entries[s.lru[0] := s.entries[s.lru[0]].(inCache := false, refs := 0)]
  {
    hide Members, Charge, FinishErase, UnrefEntry;
    var e := s.lru[0];
    WhichList(s, e);
    var key := s.entries[e].key;
    EraseKeeps(s, key);
    FinishEraseMeans(s.(dict := s.dict - {key}), e);
    DropMeans(s.inUse, e);
  }

  // ---------------------------------------------------------------- eviction

  /** Oldest first, until the usage is within the limit or every entry left is in use. */
  ghost function Evict(s: Shard, limit: int): Shard
    requires Inv(s)
    decreases |s.lru|
  {
    if s.usage > limit && s.lru != [] then
      EvictOne(s);
      Evict(EraseKey(s, s.entries[s.lru[0]].key), limit)
    else
      s
  }

  /** The entries in `gone` have left the cache and are freed; nothing else changed. */
  ghost predicate Freed(s: Shard, t: Shard, gone: seq<Ref>) {
    && t.entries.Keys == s.entries.Keys
    && (forall r :: r in s.entries ==> t.entries[r] == if r in gone then s.entries[r].(inCache := false, refs := 0) else s.entries[r])
    && (forall k :: k in t.dict <==> k in s.dict && s.dict[k] !in gone)
    && (forall k :: k in t.dict ==> t.dict[k] == s.dict[k])
  }

  /** The first n entries of the LRU list have been evicted. */
  ghost predicate Evicted(s: Shard, t: Shard, n: nat) {
    && n <= |s.lru| && t.lru == s.lru[n..] && t.inUse == s.inUse && t.deleted == s.deleted + s.lru[..n]
    && t.usage == s.usage - Charge(s.entries, s.lru[..n]) && t.issued == s.issued && t.capacity == s.capacity
    && Freed(s, t, s.lru[..n])
  }

  lemma FreedOneMore(s: Shard, u: Shard, t: Shard, e: Ref, tail: seq<Ref>)
    requires e in s.entries && e !in tail && Freed(u, t, tail)
    requires u.entries == s.entries[e := s.entries[e].(inCache := false, refs := 0)] && u.dict == s.dict - {s.entries[e].key}
    requires forall k :: k in s.dict ==> s.dict[k] in s.entries && s.entries[s.dict[k]].key == k
    requires s.entries[e].key in s.dict && s.dict[s.entries[e].key] == e
    ensures Freed(s, t, [e] + tail)
  {
  }

  lemma EvictedOneMore(s: Shard, u: Shard, t: Shard, n: nat)
    requires Inv(s) && s.lru != []
    requires u == EraseKey(s, s.entries[s.lru[0]].key) && Evicted(u, t, n)
    ensures Evicted(s, t, n + 1)
  {
    hide Inv, EraseKey, Freed;
    EvictOne(s);
    var e := s.lru[0];
    assert Inv(s) && e in s.lru;
    var head, tail := s.lru[..n + 1], u.lru[..n];
    assert head == [e] + tail && head[1..] == tail;
    FirstOnce(s);
    ChargeSame(s.entries, e, u.entries[e], tail);
    forall k | k in s.dict ensures s.dict[k] in s.entries && s.entries[s.dict[k]].key == k { KeyIs(s, k); }
    FreedOneMore(s, u, t, e, tail);
    assert Charge(s.entries, head) == s.entries[e].charge + Charge(s.entries, tail);
    assert s.lru[n + 1..] == u.lru[n..];
    assert s.deleted + head == s.deleted + [e] + tail;
  }

  lemma EvictedBound(s: Shard, t: Shard, n: nat)
    requires Evicted(s, t, n)
    ensures n <= |s.lru|
  {
  }

  lemma NoneEvicted(s: Shard)
    ensures Evicted(s, s, 0)
  {
  }

  lemma FirstOnce(s: Shard)
    requires Inv(s) && s.lru != []
    ensures s.lru[0] !in s.lru[1..]
  {
  }

  lemma KeyIs(s: Shard, k: HashedKey)
    requires Inv(s) && k in s.dict
    ensures s.dict[k] in s.entries && s.entries[s.dict[k]].key == k
  {
  }

  /** Eviction takes the shortest run of oldest entries that brings the usage within the limit, or all
      entries that no client holds. */
  lemma {:induction false} EvictMeans(s: Shard, limit: int) returns (n: nat)
    requires Inv(s)
    ensures Inv(Evict(s, limit)) && Evicted(s, Evict(s, limit), n)
    ensures Evict(s, limit).usage <= limit || Evict(s, limit).lru == []
    ensures forall m :: 0 <= m < n ==> s.usage - Charge(s.entries, s.lru[..m]) > limit
    decreases |s.lru|
  {
    hide Inv, EraseKey, Evicted;
    n := 0;
    if s.usage > limit && s.lru != [] {
      var e := s.lru[0];
      EvictOne(s);
      var u := EraseKey(s, s.entries[e].key);
      var n' := EvictMeans(u, limit);
      n := n' + 1;
      EvictedOneMore(s, u, Evict(u, limit), n');
      EvictedBound(u, Evict(u, limit), n');
      FirstOnce(s);
      forall m | 0 <= m < n ensures s.usage - Charge(s.entries, s.lru[..m]) > limit {
        if m > 0 {
          assert s.lru[..m] == [e] + u.lru[..m - 1];
          assert s.lru[..m][1..] == u.lru[..m - 1];
          ChargeSame(s.entries, e, u.entries[e], u.lru[..m - 1]);
        }
      }
    } else {
      NoneEvicted(s);
    }
  }

  // --------------------------------------------------------------- insertion

  ghost function InsertEntry(s: Shard, key: HashedKey, value: Value, charge: nat): Shard
    requires Inv(s)
  {
    ReplacingKeeps(s, key, value, charge);
    Evict(Replacing(s, key, value, charge), s.capacity)
  }

  lemma PlacedKeeps(s: Shard, key: HashedKey, value: Value, charge: nat)
    requires Lists(s)
    ensures Lists(Placed(s, key, value, charge))
  {
    hide Members, Charge;
    var e := s.issued;
    var t := Placed(s, key, value, charge);
    WhichList(s, e);
    WhichList(s, s.issued);
    var x := t.entries[e];
    assert e !in s.entries;
    ChargeSame(s.entries, e, x, s.lru);
    if s.capacity > 0 {
      AfterAppend(s.inUse, e);
      ChargeAppend(s.entries, s.inUse, e, x);
    } else {
      ChargeSame(s.entries, e, x, s.inUse);
    }
    MembersAfter(s.entries, s.lru, s.inUse, s.deleted, s.issued, e, x, t.lru, t.inUse, t.deleted, t.issued);
  }

  lemma ReplacingKeeps(s: Shard, key: HashedKey, value: Value, charge: nat)
    requires Inv(s)
    ensures key in s.dict ==> s.dict[key] in s.entries && s.entries[s.dict[key]].refs > 0 && s.dict[key] < s.issued
    ensures Inv(Replacing(s, key, value, charge))
  {
    hide Members, Charge, Drop, FinishErase, UnrefEntry, Lists;
    var t := Placed(s, key, value, charge);
    PlacedKeeps(s, key, value, charge);
    WhichList(s, s.issued);
    if key in s.dict {
      WhichList(s, s.dict[key]);
      if s.capacity > 0 {
        FinishEraseKeeps(t, s.dict[key]);
        FinishEraseMeans(t, s.dict[key]);
      }
    }
  }
}
