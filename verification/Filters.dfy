/** The filter block (table/filter_block.cc): one filter for every 2 KB of file offsets, found again
    by the offset of a block. */
module Filters {
  import opened Wrappers
  import opened Coding
  import Bloom

  const BASE_LG: nat := 11
  const BASE: nat := 2048

  // A filter policy: what it stores for some keys, and whether a key may be among them.
  datatype Policy = Policy(create: seq<Bytes> -> Bytes, mayMatch: (Bytes, Bytes) -> bool)

  /** A policy that never denies a key it was given. */
  ghost predicate Sound(policy: Policy) {
    forall keys: seq<Bytes>, key: Bytes :: key in keys ==> policy.mayMatch(key, policy.create(keys))
  }

  function BloomPolicy(p: Bloom.Bloom): Policy
    requires Bloom.Sensible(p)
  {
    Policy(keys => Bloom.Filter(p, keys), (key, filter) => Bloom.MayMatch(p, key, filter))
  }

  lemma BloomIsSound(p: Bloom.Bloom)
    requires Bloom.Sensible(p)
    ensures Sound(BloomPolicy(p))
  {
    forall keys: seq<Bytes>, key: Bytes | key in keys
      ensures BloomPolicy(p).mayMatch(key, BloomPolicy(p).create(keys))
    {
      Bloom.NoFalseNegatives(p, keys, key);
    }
  }

  /** The filter of a group of keys; a group without keys has none. */
  function FilterOf(policy: Policy, keys: seq<Bytes>): Bytes {
    if keys == [] then [] else policy.create(keys)
  }

  function FiltersOf(policy: Policy, groups: seq<seq<Bytes>>): (r: seq<Bytes>)
    ensures |r| == |groups| && forall i :: 0 <= i < |r| ==> r[i] == FilterOf(policy, groups[i])
  {
    seq(|groups|, i requires 0 <= i < |groups| => FilterOf(policy, groups[i]))
  }

  function Concat(parts: seq<Bytes>): Bytes {
    if parts == [] then [] else Concat(parts[..|parts| - 1]) + parts[|parts| - 1]
  }

  function Start(parts: seq<Bytes>, i: nat): nat
    requires i <= |parts|
  {
    |Concat(parts[..i])|
  }

  function Starts(parts: seq<Bytes>): (r: seq<nat>)
    ensures |r| == |parts| && forall i :: 0 <= i < |r| ==> r[i] == Start(parts, i)
  {
    seq(|parts|, i requires 0 <= i < |parts| => Start(parts, i))
  }

  /** Part `i` lies between its start and the next. */
  lemma {:induction false} PartAt(parts: seq<Bytes>, i: nat)
    requires i < |parts|
    ensures Start(parts, i) <= Start(parts, i + 1) <= |Concat(parts)|
    ensures Concat(parts)[Start(parts, i)..Start(parts, i + 1)] == parts[i]
  {
    var n := |parts| - 1;
    var front := parts[..n];
    assert parts[..i + 1][..i] == parts[..i];
    if i < n {
      PartAt(front, i);
      assert front[..i] == parts[..i] && front[..i + 1] == parts[..i + 1];
      var all, start, end := Concat(front), Start(parts, i), Start(parts, i + 1);
      hide Concat;
      assert (all + parts[n])[start..end] == all[start..end];
    } else {
      assert parts[..n + 1] == parts;
    }
  }

  lemma StartsAppend(parts: seq<Bytes>, part: Bytes)
    ensures Concat(parts + [part]) == Concat(parts) + part
    ensures Starts(parts + [part]) == Starts(parts) + [|Concat(parts)|]
  {
    var all := parts + [part];
    assert all[..|parts|] == parts;
    forall i | 0 <= i < |parts| ensures all[..i] == parts[..i] {
    }
    assert parts[..|parts|] == parts;
  }

  lemma {:induction false} StartsFit(parts: seq<Bytes>)
    requires |Concat(parts)| < TWO_TO_THE_32
    ensures Fits(Starts(parts))
  {
    forall i | 0 <= i < |parts| ensures Start(parts, i) <= |Concat(parts)| {
      PartAt(parts, i);
    }
  }

  /** The finished filter block of the groups: filters, where they start, and the parameter. */
  ghost predicate IsFilterBlock(policy: Policy, groups: seq<seq<Bytes>>, contents: Bytes) {
    var filters := FiltersOf(policy, groups);
    && |Concat(filters)| < TWO_TO_THE_32 && Fits(Starts(filters))
    && contents == Concat(filters) + FixedArray(Starts(filters)) + (EncodeFixed32(|Concat(filters)|) + [BASE_LG])
  }

  class FilterBlockBuilder {
    const policy: Policy
    var keys: Bytes             // the keys of the pending group, joined
    var start: seq<nat>         // where each of them starts
    var result: Bytes
    var filterOffsets: seq<nat>
    ghost var groups: seq<seq<Bytes>>   // keys of the filters made so far
    ghost var pending: seq<Bytes>
    ghost var block: nat                // offset given to the last StartBlock
    ghost var added: set<(nat, Bytes)>  // every key with the block it was added to

    ghost predicate Valid()
      reads this
    {
      && keys == Concat(pending) && start == Starts(pending)
      && result == Concat(FiltersOf(policy, groups)) && filterOffsets == Starts(FiltersOf(policy, groups))
      && |groups| == block / BASE
      && Remembered(groups, pending, added)
    }

    constructor (policy: Policy)
      ensures Valid() && groups == [] && pending == [] && added == {} && block == 0 && this.policy == policy
    {
      this.policy := policy;
      keys, start, result, filterOffsets := [], [], [], [];
      groups, pending, block, added := [], [], 0, {};
    }

    method StartBlock(blockOffset: nat)
      requires Valid() && block / BASE <= blockOffset / BASE
      modifies this
      ensures Valid() && block == blockOffset && added == old(added)
    {
      hide Remembered, Concat, Starts, FiltersOf;
      var filterIndex := blockOffset / BASE;
      while filterIndex > |filterOffsets|
        invariant Generated() && |groups| <= filterIndex && added == old(added)
        decreases filterIndex - |groups|
      {
        GenerateFilter();
      }
      block := blockOffset;
    }

    ghost predicate Generated()
      reads this
    {
      && keys == Concat(pending) && start == Starts(pending)
      && result == Concat(FiltersOf(policy, groups)) && filterOffsets == Starts(FiltersOf(policy, groups))
      && |filterOffsets| == |groups| && Remembered(groups, pending, added)
    }

    method AddKey(key: Bytes)
      requires Valid()
      modifies this
      ensures Valid() && block == old(block) && added == old(added) + {(block, key)}
    {
      StartsAppend(pending, key);
      RememberKey(groups, pending, added, block, key);
      hide Remembered, Concat, Starts, FiltersOf;
      start := start + [|keys|];
      keys := keys + key;
      pending := pending + [key];
      added := added + {(block, key)};
    }

    method GenerateFilter()
      requires Generated()
      modifies this
      ensures Generated() && groups == old(groups) + [old(pending)] && pending == [] && added == old(added)
    {
      NextFilter(policy, groups, pending);
      RememberGroup(groups, pending, added);
      hide Remembered, FiltersOf, FilterOf;
      var numKeys := |start|;
      if numKeys == 0 {
        filterOffsets := filterOffsets + [|result|];
        groups := groups + [pending];
        return;
      }
      var tmpKeys := SplitKeys();
      filterOffsets := filterOffsets + [|result|];
      result := result + policy.create(tmpKeys);
      assert policy.create(tmpKeys) == FilterOf(policy, pending);
      keys, start := [], [];
      groups, pending := groups + [pending], [];
    }

    method SplitKeys() returns (tmpKeys: seq<Bytes>)
      requires keys == Concat(pending) && start == Starts(pending)
      ensures tmpKeys == pending
    {
      var ends := start + [|keys|];
      tmpKeys := [];
      for i := 0 to |start|
        invariant tmpKeys == pending[..i]
      {
        PartAt(pending, i);
        assert ends[i + 1] == Start(pending, i + 1) by { assert pending[..|pending|] == pending; }
        tmpKeys := tmpKeys + [keys[ends[i]..ends[i + 1]]];
      }
    }

    /** The finished block has, for every key added, a filter that was made for it at the place of
        its block. */
    method Finish() returns (contents: Bytes)
      requires Valid()
      modifies this
      ensures |contents| < TWO_TO_THE_32 ==> IsFilterBlock(policy, groups, contents)
      ensures Covered(groups, old(added))
    {
      hide FiltersOf, Concat, Starts, Remembered, EncodeFixed32, IsFilterBlock, Fits, FixedArray;
      if start != [] {
        GenerateFilter();
      }
      assert pending == [];
      NothingPending(groups, added);
      var arrayOffset := |result|;
      var offsets := PutFixed32s(filterOffsets);
      if |result| < TWO_TO_THE_32 { Finished(policy, groups, result, offsets); }
      result := result + offsets;
      result := result + EncodeFixed32(arrayOffset % TWO_TO_THE_32);
      result := result + [BASE_LG];
      contents := result;
    }
  }

  lemma Finished(policy: Policy, groups: seq<seq<Bytes>>, data: Bytes, offsets: Bytes)
    requires data == Concat(FiltersOf(policy, groups)) && |data| < TWO_TO_THE_32
    requires Fits(Starts(FiltersOf(policy, groups))) ==> offsets == FixedArray(Starts(FiltersOf(policy, groups)))
    ensures IsFilterBlock(policy, groups, data + offsets + EncodeFixed32(|data|) + [BASE_LG])
  {
    hide Concat, EncodeFixed32, FixedArray, FiltersOf;
    StartsFit(FiltersOf(policy, groups));
    assert data + offsets + EncodeFixed32(|data|) + [BASE_LG] == data + offsets + (EncodeFixed32(|data|) + [BASE_LG]);
  }

  /** The key was added for a block whose offset lies in the i-th 2 KB of the file. */
  ghost predicate AddedAt(added: set<(nat, Bytes)>, i: nat, key: Bytes) {
    exists block :: (block, key) in added && 2048 * i <= block < 2048 * (i + 1)
  }

  /** Each group has just the keys of its blocks. */
  ghost predicate Covered(groups: seq<seq<Bytes>>, added: set<(nat, Bytes)>) {
    forall i: nat, key :: AddedAt(added, i, key) <==> i < |groups| && key in groups[i]
  }

  lemma NothingPending(groups: seq<seq<Bytes>>, added: set<(nat, Bytes)>)
    requires Remembered(groups, [], added)
    ensures Covered(groups, added)
  {
  }

  /** Every key added is in the group of its block, or still pending for it. */
  ghost predicate Remembered(groups: seq<seq<Bytes>>, pending: seq<Bytes>, added: set<(nat, Bytes)>) {
    forall i: nat, key :: AddedAt(added, i, key) <==> (i < |groups| && key in groups[i]) || (i == |groups| && key in pending)
  }

  lemma RememberKey(groups: seq<seq<Bytes>>, pending: seq<Bytes>, added: set<(nat, Bytes)>, block: nat, key: Bytes)
    requires Remembered(groups, pending, added) && |groups| == block / BASE
    ensures Remembered(groups, pending + [key], added + {(block, key)})
  {
    var added' := added + {(block, key)};
    forall i: nat, k ensures AddedAt(added', i, k) <==> AddedAt(added, i, k) || (i == |groups| && k == key) {
      if AddedAt(added', i, k) {
        var b :| (b, k) in added' && 2048 * i <= b < 2048 * (i + 1);
        assert (b, k) in added || (b == block && k == key);
      }
      if i == |groups| && k == key {
        assert (block, key) in added' && 2048 * i <= block < 2048 * (i + 1);
      }
      if AddedAt(added, i, k) {
        var b :| (b, k) in added && 2048 * i <= b < 2048 * (i + 1);
        assert (b, k) in added';
      }
    }
  }

  lemma RememberGroup(groups: seq<seq<Bytes>>, pending: seq<Bytes>, added: set<(nat, Bytes)>)
    requires Remembered(groups, pending, added)
    ensures Remembered(groups + [pending], [], added)
  {
    hide AddedAt;
  }

  lemma NextFilter(policy: Policy, groups: seq<seq<Bytes>>, keys: seq<Bytes>)
    ensures FiltersOf(policy, groups + [keys]) == FiltersOf(policy, groups) + [FilterOf(policy, keys)]
    ensures Concat(FiltersOf(policy, groups + [keys])) == Concat(FiltersOf(policy, groups)) + FilterOf(policy, keys)
    ensures Starts(FiltersOf(policy, groups + [keys])) == Starts(FiltersOf(policy, groups)) + [|Concat(FiltersOf(policy, groups))|]
    ensures keys == [] ==> FilterOf(policy, keys) == []
    ensures keys != [] ==> FilterOf(policy, keys) == policy.create(keys)
  {
    assert FiltersOf(policy, groups + [keys]) == FiltersOf(policy, groups) + [FilterOf(policy, keys)];
    StartsAppend(FiltersOf(policy, groups), FilterOf(policy, keys));
  }

  function ShiftRight(n: nat, k: nat): nat {
    if k == 0 then n else ShiftRight(n / 2, k - 1)
  }

  lemma ShiftByTwo(n: nat, k: nat)
    requires k >= 2
    ensures ShiftRight(n, k) == ShiftRight(n / 4, k - 2)
  {
    assert ShiftRight(n / 2, k - 1) == ShiftRight(n / 2 / 2, k - 2);
  }

  lemma ShiftByBase(n: nat)
    ensures ShiftRight(n, BASE_LG) == n / BASE
  {
    ShiftByTwo(n, 11);
    ShiftByTwo(n / 4, 9);
    ShiftByTwo(n / 4 / 4, 7);
    ShiftByTwo(n / 64, 5);
    ShiftByTwo(n / 256, 3);
    assert ShiftRight(n / 1024, 1) == ShiftRight(n / 1024 / 2, 0);
  }

  /** The last words of a filter block lead back to its filters. */
  lemma LastWord(policy: Policy, groups: seq<seq<Bytes>>, contents: Bytes)
    requires IsFilterBlock(policy, groups, contents)
    ensures var n, size := |contents|, |Concat(FiltersOf(policy, groups))|;
      n >= 5 && contents[n - 1] == BASE_LG && DecodeFixed32(contents[n - 5..]) == size && n - 5 - size == 4 * |groups|
  {
    hide EncodeFixed32, DecodeFixed32, Concat, FixedArray, FiltersOf;
    var filters := FiltersOf(policy, groups);
    var tail := EncodeFixed32(|Concat(filters)|) + [BASE_LG];
    assert contents[|contents| - 5..] == tail;
    Fixed32RoundTrip(|Concat(filters)|, [BASE_LG]);
  }

  lemma FilterAt(policy: Policy, groups: seq<seq<Bytes>>, contents: Bytes, i: nat)
    requires IsFilterBlock(policy, groups, contents) && i < |groups|
    ensures var filters := FiltersOf(policy, groups); var offset := |Concat(filters)|;
      && offset + 4 * i + 8 <= |contents|
      && DecodeFixed32(contents[offset + i * 4..]) == Start(filters, i)
      && DecodeFixed32(contents[offset + i * 4 + 4..]) == Start(filters, i + 1)
      && Start(filters, i) <= Start(filters, i + 1) <= offset
      && contents[Start(filters, i)..Start(filters, i + 1)] == FilterOf(policy, groups[i])
  {
    hide EncodeFixed32, DecodeFixed32, Concat, FiltersOf;
    var filters := FiltersOf(policy, groups);
    var all, tail := Concat(filters), EncodeFixed32(|Concat(filters)|);
    PartAt(filters, i);
    var starts := Starts(filters) + [|all|];
    assert filters[..|filters|] == filters;
    assert FixedArray(starts) == FixedArray(Starts(filters)) + tail by {
      assert starts[..|filters|] == Starts(filters);
    }
    assert contents == all + FixedArray(starts) + [BASE_LG];
    FixedArrayAt(starts, i, all, [BASE_LG]);
    FixedArrayAt(starts, i + 1, all, [BASE_LG]);
    assert contents[Start(filters, i)..Start(filters, i + 1)] == all[Start(filters, i)..Start(filters, i + 1)];
  }

  class FilterBlockReader {
    const policy: Policy
    const data: Bytes
    const baseLg: nat
    const offset: nat   // where the array of offsets begins
    const num: nat      // how many there are; none when the contents make no sense

    ghost predicate Valid() {
      && (num > 0 ==> offset + 4 * num + 5 <= |data|)
      && forall groups :: IsFilterBlock(policy, groups, data) ==>
        offset == |Concat(FiltersOf(policy, groups))| && num == |groups| && baseLg == BASE_LG
    }

    constructor (policy: Policy, contents: Bytes)
      ensures Valid() && this.policy == policy && this.data == contents
    {
      hide IsFilterBlock, Concat, FiltersOf, DecodeFixed32;
      this.policy, data := policy, contents;
      var n := |contents|;
      var lg, at, count := 0, 0, 0;
      if n >= 5 {
        lg := contents[n - 1];
        var lastWord := DecodeFixed32(contents[n - 5..]);
        if lastWord <= n - 5 {
          at := lastWord;
          count := (n - 5 - lastWord) / 4;
        }
      }
      baseLg, offset, num := lg, at, count;
      forall groups | IsFilterBlock(policy, groups, contents)
        ensures at == |Concat(FiltersOf(policy, groups))| && count == |groups| && lg == BASE_LG
      {
        LastWord(policy, groups, contents);
      }
    }

    /** Over a finished filter block the answer is the policy's on the filter at the block's place;
        past the filters nothing is denied. */
    method KeyMayMatch(blockOffset: nat, key: Bytes, ghost groups: seq<seq<Bytes>>) returns (may: bool)
      requires Valid()
      ensures IsFilterBlock(policy, groups, data) ==>
        (may <==> (blockOffset / BASE < |groups| ==> policy.mayMatch(key, FilterOf(policy, groups[blockOffset / BASE]))))
    {
      hide IsFilterBlock, Concat, FiltersOf, FilterOf, DecodeFixed32, ShiftRight;
      ShiftByBase(blockOffset);
      var index := ShiftRight(blockOffset, baseLg);
      if index < num {
        if IsFilterBlock(policy, groups, data) { FilterAt(policy, groups, data, index); }
        var start := DecodeFixed32(data[offset + index * 4..]);
        var limit := DecodeFixed32(data[offset + index * 4 + 4..]);
        if start <= limit && limit <= offset {
          var filter := data[start..limit];
          return policy.mayMatch(key, filter);
        } else if start == limit {
          return false;
        }
      }
      return true;
    }
  }

  /** MAIN: no key is denied at a block it was added to. */
  lemma NeverDenied(policy: Policy, groups: seq<seq<Bytes>>, added: set<(nat, Bytes)>, blockOffset: nat, key: Bytes)
    requires Sound(policy) && Covered(groups, added) && (blockOffset, key) in added
    ensures blockOffset / BASE < |groups| && policy.mayMatch(key, FilterOf(policy, groups[blockOffset / BASE]))
  {
    assert AddedAt(added, blockOffset / BASE, key);
  }
}
