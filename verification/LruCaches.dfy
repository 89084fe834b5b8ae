/** One shard of the LRU cache (LRUCache in util/cache.cc): two intrusive lists, a hash table and
    reference counts, updated in place by methods that do what the operations of Cache say. */
module LruCaches {
  import opened Cache
  import opened CacheRuns
  import opened HandleTables
  import opened Rings
  import opened Wrappers

  // The dummy heads of the LRU list and of the list of entries in use.
  const LRU: Ref := 0
  const IN_USE: Ref := 1

  /** Two rings without a common element share the links. */
  ghost predicate TwoRings(l: Links, lru: seq<Ref>, inUse: seq<Ref>) {
    && Ring(l, LRU, lru) && Ring(l, IN_USE, inUse)
    && LRU !in inUse && IN_USE !in lru && forall r :: r in lru ==> r !in inUse
  }

  lemma IndexOf(s: seq<Ref>, e: Ref) returns (k: nat)
    requires e in s
    ensures k < |s| && s[k] == e
  {
    k :| k < |s| && s[k] == e;
  }

  lemma TwoRingsLists(l: Links, lru: seq<Ref>, inUse: seq<Ref>)
    requires TwoRings(l, lru, inUse)
    ensures Distinct(lru) && Distinct(inUse) && LRU !in lru && IN_USE !in inUse
  {
  }

  lemma RemoveKeepsRings(l: Links, lru: seq<Ref>, inUse: seq<Ref>, e: Ref)
    requires TwoRings(l, lru, inUse) && (e in lru || e in inUse)
    ensures e in l.next && e in l.prev && TwoRings(Remove(l, e), Drop(lru, e), Drop(inUse, e))
  {
    hide Ring, Remove, Drop;
    TwoRingsLists(l, lru, inUse);
    DropMeans(lru, e);
    DropMeans(inUse, e);
    if e in lru {
      var k := IndexOf(lru, e);
      DropAt(lru, k);
      RemoveFromRing(l, LRU, lru, k);
      RemoveFromOther(l, LRU, lru, k, IN_USE, inUse);
    } else {
      var k := IndexOf(inUse, e);
      DropAt(inUse, k);
      RemoveFromRing(l, IN_USE, inUse, k);
      RemoveFromOther(l, IN_USE, inUse, k, LRU, lru);
    }
  }

  lemma AppendKeepsRings(l: Links, lru: seq<Ref>, inUse: seq<Ref>, e: Ref)
    requires TwoRings(l, lru, inUse) && e !in lru && e !in inUse && e != LRU && e != IN_USE
    ensures LRU in l.prev && TwoRings(Append(l, LRU, e), lru + [e], inUse)
    ensures IN_USE in l.prev && TwoRings(Append(l, IN_USE, e), lru, inUse + [e])
  {
    hide Ring, Append;
    AppendToRing(l, LRU, lru, e);
    AppendToOther(l, LRU, lru, e, IN_USE, inUse);
    AppendToRing(l, IN_USE, inUse, e);
    AppendToOther(l, IN_USE, inUse, e, LRU, lru);
  }

  lemma EmptyRings()
    ensures TwoRings(Links(map[LRU := LRU, IN_USE := IN_USE], map[LRU := LRU, IN_USE := IN_USE]), [], [])
  {
    var l := Links(map[LRU := LRU, IN_USE := IN_USE], map[LRU := LRU, IN_USE := IN_USE]);
    assert Around(LRU, []) == [LRU, LRU] && Around(IN_USE, []) == [IN_USE, IN_USE];
    assert Ring(l, LRU, []) && Ring(l, IN_USE, []);
  }

  lemma Oldest(l: Links, lru: seq<Ref>, inUse: seq<Ref>)
    requires TwoRings(l, lru, inUse)
    ensures LRU in l.next && (l.next[LRU] == LRU <==> lru == []) && (lru != [] ==> l.next[LRU] == lru[0])
  {
    OldestFollowsHead(l, LRU, lru);
    if lru != [] { assert lru[0] in lru; }
  }

  lemma EvictUnfolds(s: Shard, limit: int)
    requires Inv(s) && s.usage > limit && s.lru != []
    ensures s.lru[0] in s.entries && s.entries[s.lru[0]].key in s.dict
    ensures Inv(EraseKey(s, s.entries[s.lru[0]].key)) && |EraseKey(s, s.entries[s.lru[0]].key).lru| < |s.lru|
    ensures Evict(s, limit) == Evict(EraseKey(s, s.entries[s.lru[0]].key), limit)
  {
    EvictOne(s);
  }

  lemma {:induction false} ChargeIsPositive(entries: map<Ref, Entry>, s: seq<Ref>)
    ensures Charge(entries, s) >= 0
  {
    if s != [] { ChargeIsPositive(entries, s[1..]); }
  }

  lemma UsageIsPositive(s: Shard)
    requires Inv(s)
    ensures s.usage > NOTHING_FITS
  {
    ChargeIsPositive(s.entries, s.lru);
    ChargeIsPositive(s.entries, s.inUse);
  }

  lemma EvictStops(s: Shard, limit: int)
    requires Inv(s) && !(s.usage > limit && s.lru != [])
    ensures Evict(s, limit) == s
  {
  }

  /** An entry that the hash table holds is in one of the lists. */
  lemma InCache(s: Shard, key: HashedKey)
    requires Inv(s) && key in s.dict
    ensures var e := s.dict[key];
      && e in s.entries && s.entries[e].inCache && s.entries[e].refs > 0 && e >= FIRST_HANDLE && (e in s.lru || e in s.inUse)
      && (s.entries[e].refs == 1 ==> e in s.lru && e !in s.inUse)
  {
  }

  lemma EraseKeepsEntries(s: Shard, key: HashedKey)
    requires Inv(s)
    ensures DictLive(s) && EraseKey(s, key).entries.Keys == s.entries.Keys
  {
    hide Members, Charge, Drop, FinishErase;
    EraseKeeps(s, key);
    if key in s.dict { FinishEraseMeans(s.(dict := s.dict - {key}), s.dict[key]); }
  }

  lemma LookupKeeps(s: Shard, key: HashedKey)
    requires Inv(s)
    ensures key in s.dict ==> s.dict[key] in s.entries
    ensures Inv(LookupEntry(s, key)) && LookupEntry(s, key).entries.Keys == s.entries.Keys
    ensures Apply(s, Op.Lookup(key)) == LookupEntry(s, key) == if key in s.dict then RefEntry(s, s.dict[key]) else s
    ensures Handed(s, Op.Lookup(key)) == if key in s.dict then Some(s.dict[key]) else None
  {
    hide Members, Charge, Drop;
    if key in s.dict {
      WhichList(s, s.dict[key]);
      RefKeeps(s, s.dict[key]);
    }
  }

  lemma ReleaseReady(s: Shard, h: Ref)
    requires Inv(s) && Held(s, h) > 0
    ensures h in s.entries && h >= FIRST_HANDLE && s.entries[h].refs > 0
    ensures s.entries[h].inCache ==> s.entries[h].refs > 1
    ensures s.entries[h].refs == 2 && s.entries[h].inCache ==> h in s.inUse && h !in s.lru
    ensures Inv(UnrefEntry(s, h)) && UnrefEntry(s, h).entries.Keys == s.entries.Keys
    ensures Legal(s, Op.Release(h)) && Apply(s, Op.Release(h)) == UnrefEntry(s, h)
  {
    hide Members, Charge, Drop;
    WhichList(s, h);
    UnrefKeeps(s, h);
  }

  lemma TwoHeads()
    ensures LRU != IN_USE
  {
  }

  ghost predicate ReplaceReady(s: Shard, key: HashedKey)
    requires key in s.dict
  {
    s.dict[key] in s.entries && s.entries[s.dict[key]].refs > 0 && s.dict[key] < s.issued
  }

  lemma PlaceReady(s: Shard, key: HashedKey)
    requires Inv(s)
    ensures s.issued !in s.entries && s.issued !in s.lru && s.issued !in s.inUse && s.issued >= FIRST_HANDLE
    ensures key in s.dict ==> ReplaceReady(s, key)
  {
  }

  lemma EmptyIs(capacity: nat)
    ensures Empty(capacity) == Shard(capacity, 0, [], [], map[], map[], FIRST_HANDLE, [])
  {
  }

  lemma ErasedIs(s: Shard, key: HashedKey)
    requires Inv(s)
    ensures DictLive(s)
    ensures key in s.dict ==> s.dict[key] in s.entries && s.entries[s.dict[key]].refs > 0 && EraseKey(s, key) == FinishErase(s.(dict := s.dict - {key}), s.dict[key])
    ensures key !in s.dict ==> EraseKey(s, key) == s.(dict := s.dict - {key})
  {
    EraseKeeps(s, key);
    if key !in s.dict { assert s.dict - {key} == s.dict; }
  }

  lemma PlacedIs(s: Shard, key: HashedKey, value: Value, charge: nat)
    requires Inv(s)
    ensures Placed(s, key, value, charge) ==
      if s.capacity > 0 then
        s.(inUse := s.inUse + [s.issued], usage := s.usage + charge, entries := s.entries[s.issued := Entry(key, value, charge, true, 2)],
           dict := s.dict[key := s.issued], issued := s.issued + 1)
      else s.(entries := s.entries[s.issued := Entry(key, value, charge, false, 1)], issued := s.issued + 1)
    ensures key in s.dict ==> ReplaceReady(s, key)
    ensures Replacing(s, key, value, charge) ==
      if s.capacity > 0 && key in s.dict then FinishErase(Placed(s, key, value, charge), s.dict[key]) else Placed(s, key, value, charge)
    ensures Replacing(s, key, value, charge).entries.Keys == s.entries.Keys + {s.issued}
  {
    hide Members, Charge, Drop, FinishErase;
    PlaceReady(s, key);
    ReplacingKeeps(s, key, value, charge);
    PlacedKeeps(s, key, value, charge);
    if key in s.dict {
      InCache(s, key);
      if s.capacity > 0 { FinishEraseMeans(Placed(s, key, value, charge), s.dict[key]); }
    }
  }

  lemma InsertIs(s: Shard, key: HashedKey, value: Value, charge: nat)
    requires Inv(s)
    ensures key in s.dict ==> ReplaceReady(s, key)
    ensures Legal(s, Op.Insert(key, value, charge)) && Inv(Replacing(s, key, value, charge))
    ensures Apply(s, Op.Insert(key, value, charge)) == Evict(Replacing(s, key, value, charge), s.capacity)
    ensures Handed(s, Op.Insert(key, value, charge)) == Some(s.issued)
  {
    hide Inv, Replacing, Evict;
    PlaceReady(s, key);
    ReplacingKeeps(s, key, value, charge);
  }

  lemma PruneIs(s: Shard)
    requires Inv(s)
    ensures Legal(s, Op.Prune) && Apply(s, Op.Prune) == Evict(s, NOTHING_FITS)
  {
    hide Inv, Evict;
  }

  class LRUCache {
    const capacity: nat
    const table: HandleTable
    var usage: int
    var links: Links
    var entries: map<Ref, Entry>
    var issued: Ref
    var deleted: seq<Ref>
    ghost var lru: seq<Ref>
    ghost var inUse: seq<Ref>

    /** The abstract shard that the fields stand for. */
    ghost function Abstract(): Shard
      reads this, table
    {
      Shard(capacity, usage, lru, inUse, entries, table.dict, issued, deleted)
    }

    ghost predicate TableFits()
      reads this, table
    {
      table.Valid() && forall r :: r in table.keyed ==> r in entries
    }

    ghost predicate Valid()
      reads this, table
    {
      TableFits() && TwoRings(links, lru, inUse) && Inv(Abstract())
    }

    /** What may be used of a valid cache: its parts, and where its oldest entry is. */
    lemma Parts()
      requires Valid()
      ensures table.Valid() && TwoRings(links, lru, inUse) && Inv(Abstract()) && forall r :: r in table.keyed ==> r in entries
      ensures LRU in links.next && (links.next[LRU] == LRU <==> lru == []) && (lru != [] ==> links.next[LRU] == lru[0])
    {
      hide TwoRings, Inv, HandleTable.Valid;
      Oldest(links, lru, inUse);
    }

    lemma IsShard()
      ensures Abstract() == Shard(capacity, usage, lru, inUse, entries, table.dict, issued, deleted)
    {
    }

    lemma Whole()
      requires table.Valid() && TwoRings(links, lru, inUse) && Inv(Abstract()) && forall r :: r in table.keyed ==> r in entries
      ensures Valid()
    {
      hide TwoRings, Inv, HandleTable.Valid;
    }

    constructor (capacity: nat)
      ensures Valid() && fresh(table) && Abstract() == Empty(capacity)
    {
      this.capacity := capacity;
      usage, issued, deleted, entries, lru, inUse := 0, FIRST_HANDLE, [], map[], [], [];
      links := Links(map[LRU := LRU, IN_USE := IN_USE], map[LRU := LRU, IN_USE := IN_USE]);
      table := new HandleTable();
      new;
      hide *;
      EmptyRings();
      EmptyKeeps(capacity);
      IsShard();
      EmptyIs(capacity);
      Whole();
    }

    method LruRemove(e: Ref)
      requires TwoRings(links, lru, inUse) && (e in lru || e in inUse)
      modifies `links, `lru, `inUse
      ensures TwoRings(links, lru, inUse) && lru == Drop(old(lru), e) && inUse == Drop(old(inUse), e)
    {
      hide TwoRings, Drop;
      RemoveKeepsRings(links, lru, inUse, e);
      ghost var l := links;
      links := links.(prev := links.prev[links.next[e] := links.prev[e]]);
      links := links.(next := links.next[links.prev[e] := links.next[e]]);
      assert links == Remove(l, e);
      lru, inUse := Drop(lru, e), Drop(inUse, e);
    }

    method LruAppend(head: Ref, e: Ref)
      requires TwoRings(links, lru, inUse) && e !in lru && e !in inUse && e >= FIRST_HANDLE
      requires head == LRU || head == IN_USE
      modifies `links, `lru, `inUse
      ensures TwoRings(links, lru, inUse)
      ensures lru == (if head == LRU then old(lru) + [e] else old(lru)) && inUse == (if head == IN_USE then old(inUse) + [e] else old(inUse))
    {
      hide TwoRings;
      AppendKeepsRings(links, lru, inUse, e);
      ghost var l := links;
      links := Links(links.next[e := head], links.prev[e := links.prev[head]]);
      links := links.(next := links.next[links.prev[e] := e]);
      links := links.(prev := links.prev[links.next[e] := e]);
      assert links == Append(l, head, e);
      if head == LRU { lru := lru + [e]; } else { inUse := inUse + [e]; }
    }

    method AddRef(e: Ref)
      requires TwoRings(links, lru, inUse) && e in entries && e >= FIRST_HANDLE
      requires entries[e].refs == 1 && entries[e].inCache ==> e in lru && e !in inUse
      modifies `links, `lru, `inUse, `entries
      ensures TwoRings(links, lru, inUse) && Abstract() == RefEntry(old(Abstract()), e)
    {
      hide TwoRings, Drop;
      TwoRingsLists(links, lru, inUse);
      DropMeans(lru, e);
      DropMeans(inUse, e);
      if entries[e].refs == 1 && entries[e].inCache {
        LruRemove(e);
        LruAppend(IN_USE, e);
      }
      entries := entries[e := entries[e].(refs := entries[e].refs + 1)];
    }

    method Unref(e: Ref)
      requires TwoRings(links, lru, inUse) && e in entries && e >= FIRST_HANDLE && entries[e].refs > 0
      requires entries[e].inCache ==> entries[e].refs > 1
      requires entries[e].refs == 2 && entries[e].inCache ==> e in inUse && e !in lru
      modifies `links, `lru, `inUse, `entries, `deleted
      ensures TwoRings(links, lru, inUse) && Abstract() == UnrefEntry(old(Abstract()), e) && entries.Keys == old(entries.Keys)
    {
      hide TwoRings, Drop;
      TwoRingsLists(links, lru, inUse);
      DropMeans(lru, e);
      DropMeans(inUse, e);
      entries := entries[e := entries[e].(refs := entries[e].refs - 1)];
      if entries[e].refs == 0 {
        // The deleter runs.
        deleted := deleted + [e];
      } else if entries[e].inCache && entries[e].refs == 1 {
        LruRemove(e);
        LruAppend(LRU, e);
      }
    }

    /** Takes back the cache's reference to an entry that the table gave up. */
    method Finish(e: Link) returns (erased: bool)
      requires TwoRings(links, lru, inUse)
      requires e.Some? ==> e.value in entries && entries[e.value].inCache && entries[e.value].refs > 0
      requires e.Some? ==> e.value >= FIRST_HANDLE && (e.value in lru || e.value in inUse)
      modifies `links, `lru, `inUse, `entries, `deleted, `usage
      ensures erased == e.Some? && TwoRings(links, lru, inUse)
      ensures Abstract() == if e.Some? then FinishErase(old(Abstract()), e.value) else old(Abstract())
      ensures entries.Keys == old(entries.Keys)
    {
      hide TwoRings, Drop, UnrefEntry;
      if e.Some? {
        var r := e.value;
        LruRemove(r);
        entries := entries[r := entries[r].(inCache := false)];
        usage := usage - entries[r].charge;
        Unref(r);
      }
      erased := e.Some?;
    }

    method EraseHandle(key: HashedKey) returns (erased: bool)
      requires Valid()
      modifies this, table
      ensures Valid() && DictLive(old(Abstract())) && Abstract() == EraseKey(old(Abstract()), key) && erased == (key in old(table.dict))
    {
      hide *;
      ghost var s := Abstract();
      Parts();
      IsShard();
      EraseKeeps(s, key);
      EraseKeepsEntries(s, key);
      if key in s.dict { InCache(s, key); }
      var e := table.Remove(key);
      IsShard();
      ErasedIs(s, key);
      erased := Finish(e);
      IsShard();
      Whole();
    }

    method Erase(key: HashedKey)
      requires Valid()
      modifies this, table
      ensures Valid() && Inv(old(Abstract())) && Abstract() == Apply(old(Abstract()), Op.Erase(key))
    {
      Parts();
      hide Valid, EraseKey, Inv;
      var erased := EraseHandle(key);
    }

    method Lookup(key: HashedKey) returns (e: Link)
      requires Valid()
      modifies this
      ensures Valid() && Inv(old(Abstract())) && Abstract() == Apply(old(Abstract()), Op.Lookup(key)) && e == Handed(old(Abstract()), Op.Lookup(key))
    {
      hide *;
      ghost var s := Abstract();
      Parts();
      IsShard();
      LookupKeeps(s, key);
      if key in s.dict { InCache(s, key); }
      e := table.Lookup(key);
      if e.Some? {
        AddRef(e.value);
      }
      IsShard();
      Whole();
    }

    method Release(handle: Ref)
      requires Valid() && Held(Abstract(), handle) > 0
      modifies this
      ensures Valid() && Inv(old(Abstract())) && Abstract() == Apply(old(Abstract()), Op.Release(handle))
    {
      hide *;
      ghost var s := Abstract();
      Parts();
      IsShard();
      ReleaseReady(s, handle);
      Unref(handle);
      IsShard();
      Whole();
    }

    /** Allocates the entry, counts it and links it. */
    method Place(key: HashedKey, value: Value, charge: nat) returns (e: Ref)
      requires Valid()
      modifies this, table
      ensures Valid() && Inv(old(Abstract())) && e == old(issued)
      ensures key in old(Abstract()).dict ==> ReplaceReady(old(Abstract()), key)
      ensures Abstract() == Replacing(old(Abstract()), key, value, charge)
    {
      hide *;
      ghost var s := Abstract();
      Parts();
      IsShard();
      ReplacingKeeps(s, key, value, charge);
      PlaceReady(s, key);
      PlacedIs(s, key, value, charge);
      e := issued;
      issued := issued + 1;
      if capacity > 0 {
        entries := entries[e := Entry(key, value, charge, true, 2)];
        TwoHeads();
        LruAppend(IN_USE, e);
        usage := usage + charge;
        var prior := table.Insert(e, key);
        IsShard();
        if key in s.dict { InCache(s, key); }
        var erased := Finish(prior);
      } else {
        entries := entries[e := Entry(key, value, charge, false, 1)];
      }
      IsShard();
      Whole();
    }

    /** A new entry: in use, in the table, in the place of the entry its key had; then the oldest unused
        entries go until the usage is within the capacity. */
    method Insert(key: HashedKey, value: Value, charge: nat) returns (e: Ref)
      requires Valid()
      modifies this, table
      ensures Valid() && Inv(old(Abstract())) && Abstract() == Apply(old(Abstract()), Op.Insert(key, value, charge))
      ensures Some(e) == Handed(old(Abstract()), Op.Insert(key, value, charge))
    {
      hide *;
      ghost var s := Abstract();
      Parts();
      IsShard();
      InsertIs(s, key, value, charge);
      e := Place(key, value, charge);
      ghost var t := Abstract();
      Parts();
      while usage > capacity && links.next[LRU] != LRU
        invariant Valid() && LRU in links.next
        invariant Inv(Abstract()) && Evict(Abstract(), capacity) == Evict(t, capacity)
        decreases |lru|
      {
        IsShard();
        ghost var u := Abstract();
        Parts();
        EvictUnfolds(u, capacity);
        var oldest := links.next[LRU];
        var erased := EraseHandle(entries[oldest].key);
        IsShard();
        Parts();
      }
      Parts();
      IsShard();
      EvictStops(Abstract(), capacity);
    }

    /** Every entry that no client holds goes. */
    method Prune()
      requires Valid()
      modifies this, table
      ensures Valid() && Inv(old(Abstract())) && Abstract() == Apply(old(Abstract()), Op.Prune) && lru == []
    {
      hide *;
      ghost var s := Abstract();
      Parts();
      PruneIs(s);
      while links.next[LRU] != LRU
        invariant Valid() && LRU in links.next
        invariant Inv(Abstract()) && Evict(Abstract(), NOTHING_FITS) == Evict(s, NOTHING_FITS)
        decreases |lru|
      {
        IsShard();
        ghost var u := Abstract();
        Parts();
        UsageIsPositive(u);
        EvictUnfolds(u, NOTHING_FITS);
        var e := links.next[LRU];
        var erased := EraseHandle(entries[e].key);
        IsShard();
        Parts();
      }
      Parts();
      IsShard();
      EvictStops(Abstract(), NOTHING_FITS);
    }
  }
}
