/** MergingIterator (table/merger.cc): a cursor over the sorted merge of several children. Moving
    in one direction keeps every child just ahead of the current key in that direction; turning
    round repositions all of them. */
module Merger {
  import opened Wrappers
  import opened DbFormat
  import opened Versions
  import opened Lookup
  import opened Cursors

  datatype Direction = Forward | Reverse

  // A child iterator is a position in its entries; the length stands for "not valid".
  function StepBack(p: nat, n: nat): nat
    requires p <= n
  {
    if p == 0 then n else p - 1
  }

  function LastPosition(n: nat): nat {
    if n == 0 then 0 else n - 1
  }

  /** Children an iterator can merge: each sorted, and no key in two of them. */
  ghost predicate Mergeable(children: seq<seq<Entry>>) {
    && (forall c :: 0 <= c < |children| ==> Sorted(children[c]))
    && (forall c, d, x, y :: 0 <= c < |children| && 0 <= d < |children| && c != d && x in children[c] && y in children[d]
          ==> x.key != y.key)
  }

  ghost predicate SameEntries(children: seq<seq<Entry>>, merged: seq<Entry>) {
    forall e :: e in merged <==> exists c :: 0 <= c < |children| && e in children[c]
  }

  /** How many of the first `n` entries of the merge come from child `c`. */
  ghost function Count(owner: seq<nat>, c: nat, n: nat): nat
    requires n <= |owner|
  {
    if n == 0 then 0 else Count(owner, c, n - 1) + if owner[n - 1] == c then 1 else 0
  }

  /** Entry `i` of the merge comes from child `owner[i]`, where it follows the earlier ones. */
  ghost predicate Interleaves(children: seq<seq<Entry>>, merged: seq<Entry>, owner: seq<nat>) {
    && |owner| == |merged|
    && Sorted(merged)
    && (forall i :: 0 <= i < |merged| ==> owner[i] < |children|)
    && (forall c :: 0 <= c < |children| ==> |children[c]| == Count(owner, c, |merged|))
    && (forall i :: 0 <= i < |merged| ==> OwnerHolds(children, merged, owner, i))
  }

  ghost predicate OwnerHolds(children: seq<seq<Entry>>, merged: seq<Entry>, owner: seq<nat>, i: nat)
    requires |owner| == |merged| && i < |merged|
  {
    var c := owner[i];
    c < |children| && Count(owner, c, i) < |children[c]| && children[c][Count(owner, c, i)] == merged[i]
  }

  lemma {:induction false} CountMonotone(owner: seq<nat>, c: nat, m: nat, n: nat)
    requires m <= n <= |owner|
    ensures Count(owner, c, m) <= Count(owner, c, n)
    decreases n
  {
    if m < n { CountMonotone(owner, c, m, n - 1); }
  }

  /** Entry `j` of child `c` is entry `i` of the merge. */
  lemma {:induction false} IndexInMerge(children: seq<seq<Entry>>, merged: seq<Entry>, owner: seq<nat>, c: nat, j: nat, n: nat)
    returns (i: nat)
    requires Interleaves(children, merged, owner) && c < |children| && n <= |merged| && j < Count(owner, c, n)
    ensures i < n && owner[i] == c && Count(owner, c, i) == j
    ensures j < |children[c]| && children[c][j] == merged[i]
    decreases n
  {
    CountMonotone(owner, c, n, |merged|);
    if j == Count(owner, c, n - 1) {
      i := n - 1;
      assert OwnerHolds(children, merged, owner, i);
    } else {
      i := IndexInMerge(children, merged, owner, c, j, n - 1);
    }
  }

  /** The position of a child that is ahead of entry `n` splits the child as `n` splits the merge. */
  lemma CountSplits(children: seq<seq<Entry>>, merged: seq<Entry>, owner: seq<nat>, c: nat, n: nat, j: nat)
    returns (i: nat)
    requires Interleaves(children, merged, owner) && c < |children| && n <= |merged| && j < |children[c]|
    ensures i < |merged| && owner[i] == c && children[c][j] == merged[i]
    ensures j < Count(owner, c, n) <==> i < n
  {
    i := IndexInMerge(children, merged, owner, c, j, |merged|);
    if i < n {
      CountMonotone(owner, c, i + 1, n);
    } else {
      CountMonotone(owner, c, n, i);
    }
  }

  /** Seeking every child seeks the merge. */
  lemma SeekThroughMerge(children: seq<seq<Entry>>, merged: seq<Entry>, owner: seq<nat>, c: nat, target: InternalKey)
    requires Interleaves(children, merged, owner) && c < |children| && Sorted(children[c])
    ensures Seek(children[c], target) == Count(owner, c, Seek(merged, target))
  {
    var n := Seek(merged, target);
    var k := Count(owner, c, n);
    CountMonotone(owner, c, n, |merged|);
    if k > 0 {
      var i := CountSplits(children, merged, owner, c, n, k - 1);
    }
    if k < |children[c]| {
      var i := CountSplits(children, merged, owner, c, n, k);
      SortedAt(merged, n, i);
    }
    SeekIs(children[c], target, k);
  }

  class MergingIterator {
    const children: seq<seq<Entry>>
    const positions: array<nat>
    var current: Option<nat>  // index of the current child
    var direction: Direction
    ghost const merged: seq<Entry>
    ghost const owner: seq<nat>
    ghost var at: Option<nat>  // the position in `merged` this iterator stands for

    ghost predicate Fixed() {
      Mergeable(children) && Interleaves(children, merged, owner)
    }

    ghost predicate Shape()
      reads this, positions
    {
      && Fixed()
      && positions.Length == |children|
      && (forall c :: 0 <= c < |children| ==> positions[c] <= |children[c]|)
    }

    /** Every child is at its first entry from position `n` of the merge on. */
    ghost predicate Ahead(n: nat)
      requires |owner| == |merged| && positions.Length == |children| && n <= |merged|
      reads this, positions
    {
      forall c :: 0 <= c < |children| ==> positions[c] == Count(owner, c, n)
    }

    /** Every child is at its last entry before position `n` of the merge. */
    ghost predicate Behind(n: nat)
      requires |owner| == |merged| && positions.Length == |children| && n <= |merged|
      reads this, positions
    {
      forall c :: 0 <= c < |children| ==> IsStepBack(positions[c], Count(owner, c, n), |children[c]|)
    }

    ghost predicate AtEntry(n: int)
      requires |owner| == |merged| && positions.Length == |children|
      reads this, positions
    {
      && at == IfInside(n, |merged|)
      && (at.None? <==> current.None?)
      && (at.Some? ==> current == Some(owner[n]) && owner[n] < |children| && positions[owner[n]] == Count(owner, owner[n], n))
    }

    ghost predicate Valid()
      reads this, positions
    {
      && Shape()
      && AtEntry(if at.Some? then at.value else -1)
      && (at.Some? && direction == Forward ==> Ahead(at.value))
      && (at.Some? && direction == Reverse ==> Behind(at.value + 1))
    }

    constructor (children: seq<seq<Entry>>)
      requires Mergeable(children)
      ensures Valid() && fresh(positions) && at == None
      ensures this.children == children && Sorted(merged) && SameEntries(children, merged)
    {
      this.children := children;
      ghost var es, os := Merge(children);
      merged, owner := es, os;
      positions := new nat[|children|](i => 0);
      current, at, direction := None, None, Forward;
    }

    function IsValid(): (valid: bool)
      requires Valid()
      reads this, positions
      ensures valid <==> at.Some?
    {
      current.Some?
    }

    function CurrentEntry(): (e: Entry)
      requires Valid() && at.Some?
      reads this, positions
      ensures e == merged[at.value]
    {
      assert OwnerHolds(children, merged, owner, at.value);
      children[current.value][positions[current.value]]
    }

    method SeekToFirst()
      requires Valid()
      modifies this, positions
      ensures Valid() && at == Move(merged, old(at), ToFirst)
    {
      for i := 0 to |children|
        invariant Shape()
        invariant forall c :: 0 <= c < i ==> positions[c] == 0
      {
        positions[i] := 0;
      }
      FindSmallest(0);
      direction := Forward;
    }

    method SeekToLast()
      requires Valid()
      modifies this, positions
      ensures Valid() && at == Move(merged, old(at), ToLast)
    {
      for i := 0 to |children|
        invariant Shape()
        invariant forall c :: 0 <= c < i ==> positions[c] == LastPosition(|children[c]|)
      {
        positions[i] := LastPosition(|children[i]|);
      }
      FindLargest(|merged|);
      direction := Reverse;
    }

    method SeekTarget(target: InternalKey)
      requires Valid()
      modifies this, positions
      ensures Valid() && at == Move(merged, old(at), SeekTo(target))
    {
      ghost var n := Seek(merged, target);
      for i := 0 to |children|
        invariant Shape()
        invariant forall c :: 0 <= c < i ==> positions[c] == Count(owner, c, n)
      {
        SeekThroughMerge(children, merged, owner, i, target);
        positions[i] := Seek(children[i], target);
      }
      FindSmallest(n);
      direction := Forward;
    }

    method MoveNext()
      requires Valid() && at.Some?
      modifies this, positions
      ensures Valid() && at == Move(merged, old(at), Next)
    {
      ghost var n := at.value;
      var cur := current.value;
      assert OwnerHolds(children, merged, owner, n);
      if direction != Forward {
        TurnForward();
      }
      positions[cur] := positions[cur] + 1;
      FindSmallest(n + 1);
    }

    method MovePrev()
      requires Valid() && at.Some?
      modifies this, positions
      ensures Valid() && at == Move(merged, old(at), Prev)
    {
      ghost var n := at.value;
      var cur := current.value;
      assert OwnerHolds(children, merged, owner, n);
      if direction != Reverse {
        TurnReverse();
      }
      positions[cur] := StepBack(positions[cur], |children[cur]|);
      FindLargest(n);
    }

    /** Next after moving backwards: every other child goes to its first entry past the key. */
    method TurnForward()
      requires Valid() && at.Some?
      modifies this, positions
      ensures Valid() && at == old(at) && current == old(current) && direction == Forward
    {
      ghost var n := at.value;
      var cur := current.value;
      assert OwnerHolds(children, merged, owner, n);
      var key := children[cur][positions[cur]].key;
      for i := 0 to |children|
        invariant Shape() && positions[cur] == Count(owner, cur, n)
        invariant at == old(at) && current == old(current)
        invariant forall c :: 0 <= c < i ==> positions[c] == Count(owner, c, n)
      {
        if i != cur {
          SeekAtEntry(n, i);
          positions[i] := Seek(children[i], key);
          var same := positions[i] < |children[i]| && Compare(key, children[i][positions[i]].key) == 0;
          NotSame(n, i);
          positions[i] := SkipIf(positions[i], same);
        }
      }
      direction := Forward;
    }

    /** Prev after moving forwards: every other child goes to its last entry before the key. */
    method TurnReverse()
      requires Valid() && at.Some?
      modifies this, positions
      ensures Shape() && at == old(at) && current == old(current) && direction == Reverse
      ensures positions[current.value] == old(positions[current.value])
      ensures forall c :: 0 <= c < |children| && c != current.value ==>
        IsStepBack(positions[c], Count(owner, c, at.value), |children[c]|)
    {
      ghost var n := at.value;
      var cur := current.value;
      assert OwnerHolds(children, merged, owner, n);
      var key := children[cur][positions[cur]].key;
      for i := 0 to |children|
        invariant Shape() && positions[cur] == Count(owner, cur, n)
        invariant at == old(at) && current == old(current)
        invariant forall c :: 0 <= c < i && c != cur ==> IsStepBack(positions[c], Count(owner, c, n), |children[c]|)
      {
        if i != cur {
          SeekAtEntry(n, i);
          positions[i] := Seek(children[i], key);
          positions[i] := LandBefore(positions[i], |children[i]|);
        }
      }
      direction := Reverse;
    }

    lemma SeekAtEntry(n: nat, c: nat)
      requires Fixed() && n < |merged| && c < |children|
      ensures Seek(children[c], merged[n].key) == Count(owner, c, n)
    {
      SortedAt(merged, n - 1, n);
      SeekIs(merged, merged[n].key, n);
      SeekThroughMerge(children, merged, owner, c, merged[n].key);
    }

    /** A key of one child is no key of another. */
    lemma NotSame(n: nat, c: nat)
      requires Fixed() && n < |merged| && c < |children| && c != owner[n]
      ensures var p := Count(owner, c, n); p < |children[c]| ==> Compare(merged[n].key, children[c][p].key) != 0
    {
      var p := Count(owner, c, n);
      if p < |children[c]| {
        assert OwnerHolds(children, merged, owner, n);
        assert merged[n] in children[owner[n]] && children[c][p] in children[c];
        CompareMeaning(merged[n].key, children[c][p].key);
      }
    }

    method FindSmallest(ghost n: nat)
      requires Shape() && n <= |merged| && Ahead(n)
      modifies `current, `at
      ensures Shape() && Ahead(n) && AtEntry(n)
    {
      hide Mergeable, Interleaves, Count;
      var smallest: Option<nat> := None;
      for i := 0 to |children|
        invariant smallest.None? ==> forall c :: 0 <= c < i ==> positions[c] == |children[c]|
        invariant smallest.Some? ==> smallest.value < i && positions[smallest.value] < |children[smallest.value]|
        invariant smallest.Some? ==> forall c :: 0 <= c < i && positions[c] < |children[c]| ==>
          AtOrBefore(children[smallest.value][positions[smallest.value]].key, children[c][positions[c]].key)
      {
        if positions[i] < |children[i]| {
          if smallest.None? {
            smallest := Some(i);
          } else if Compare(children[i][positions[i]].key, children[smallest.value][positions[smallest.value]].key) < 0 {
            smallest := Some(i);
          }
        }
      }
      SmallestIsNext(n, smallest);
      current := smallest;
      at := IfInside(n, |merged|);
    }

    method FindLargest(ghost n: nat)
      requires Shape() && n <= |merged| && Behind(n)
      modifies `current, `at
      ensures Shape() && Behind(n) && AtEntry(n - 1)
    {
      hide Mergeable, Interleaves, Count;
      var largest: Option<nat> := None;
      var i := |children|;
      while i > 0
        invariant 0 <= i <= |children|
        invariant largest.None? ==> forall c :: i <= c < |children| ==> positions[c] == |children[c]|
        invariant largest.Some? ==> i <= largest.value < |children| && positions[largest.value] < |children[largest.value]|
        invariant largest.Some? ==> forall c :: i <= c < |children| && positions[c] < |children[c]| ==>
          AtOrBefore(children[c][positions[c]].key, children[largest.value][positions[largest.value]].key)
      {
        i := i - 1;
        if positions[i] < |children[i]| {
          if largest.None? {
            largest := Some(i);
          } else if Compare(children[i][positions[i]].key, children[largest.value][positions[largest.value]].key) > 0 {
            largest := Some(i);
          }
        }
      }
      LargestIsPrevious(n, largest);
      current := largest;
      at := IfInside(n - 1, |merged|);
    }

    lemma SmallestIsNext(n: nat, smallest: Option<nat>)
      requires Shape() && n <= |merged| && Ahead(n)
      requires smallest.None? ==> forall c :: 0 <= c < |children| ==> positions[c] == |children[c]|
      requires smallest.Some? ==> smallest.value < |children| && positions[smallest.value] < |children[smallest.value]|
      requires smallest.Some? ==> forall c :: 0 <= c < |children| && positions[c] < |children[c]| ==>
        AtOrBefore(children[smallest.value][positions[smallest.value]].key, children[c][positions[c]].key)
      ensures smallest == if n < |merged| then Some(owner[n]) else None
    {
      if n < |merged| {
        assert OwnerHolds(children, merged, owner, n);
        var i := CountSplits(children, merged, owner, smallest.value, n, positions[smallest.value]);
        SortedAt(merged, n, i);
      }
    }

    lemma LargestIsPrevious(n: nat, largest: Option<nat>)
      requires Shape() && n <= |merged| && Behind(n)
      requires largest.None? ==> forall c :: 0 <= c < |children| ==> positions[c] == |children[c]|
      requires largest.Some? ==> largest.value < |children| && positions[largest.value] < |children[largest.value]|
      requires largest.Some? ==> forall c :: 0 <= c < |children| && positions[c] < |children[c]| ==>
        AtOrBefore(children[c][positions[c]].key, children[largest.value][positions[largest.value]].key)
      ensures largest == if n > 0 then Some(owner[n - 1]) else None
      ensures n > 0 ==> positions[owner[n - 1]] == Count(owner, owner[n - 1], n - 1)
    {
      if n > 0 {
        assert OwnerHolds(children, merged, owner, n - 1);
        CountMonotone(owner, owner[n - 1], n, |merged|);
        var i := CountSplits(children, merged, owner, largest.value, n, positions[largest.value]);
        SortedAt(merged, i, n - 1);
      }
    }
  }

  function SkipIf(p: nat, same: bool): nat {
    if same then p + 1 else p
  }

  /** After a seek: one step back, or the last entry when the seek ran off the end. */
  function LandBefore(p: nat, n: nat): nat {
    if p < n then StepBack(p, n) else LastPosition(n)
  }

  ghost predicate IsStepBack(p: nat, count: nat, n: nat) {
    count <= n && p == StepBack(count, n)
  }

  /** Every mergeable list of children has a merge: take the greatest last entry, and merge the rest. */
  lemma {:induction false} Merge(children: seq<seq<Entry>>) returns (merged: seq<Entry>, owner: seq<nat>)
    requires Mergeable(children)
    ensures Interleaves(children, merged, owner) && SameEntries(children, merged)
    decreases Total(children)
  {
    if forall c :: 0 <= c < |children| ==> children[c] == [] {
      merged, owner := [], [];
    } else {
      var a := GreatestLast(children);
      var child := children[a];
      var front, last := child[..|child| - 1], child[|child| - 1];
      var rest := children[a := front];
      TotalDrops(children, a, front);
      RestMergeable(children, a);
      merged, owner := Merge(rest);
      AppendOwned(children, a, merged, owner);
      merged, owner := merged + [last], owner + [a];
    }
  }

  ghost function Total(children: seq<seq<Entry>>): nat {
    if children == [] then 0 else Total(children[..|children| - 1]) + |children[|children| - 1]|
  }

  lemma {:induction false} TotalDrops(children: seq<seq<Entry>>, a: nat, smaller: seq<Entry>)
    requires a < |children| && |smaller| < |children[a]|
    ensures Total(children[a := smaller]) < Total(children)
  {
    var n := |children| - 1;
    if a < n {
      TotalDrops(children[..n], a, smaller);
      assert children[a := smaller][..n] == children[..n][a := smaller];
    } else {
      assert children[a := smaller][..n] == children[..n];
    }
  }

  ghost predicate IsGreatestLast(children: seq<seq<Entry>>, a: nat) {
    && a < |children| && children[a] != []
    && forall c :: 0 <= c < |children| && children[c] != [] ==>
      AtOrBefore(children[c][|children[c]| - 1].key, children[a][|children[a]| - 1].key)
  }

  lemma {:induction false} GreatestLast(children: seq<seq<Entry>>) returns (a: nat)
    requires exists c :: 0 <= c < |children| && children[c] != []
    ensures IsGreatestLast(children, a)
  {
    var n := |children| - 1;
    var front := children[..n];
    if exists c :: 0 <= c < n && front[c] != [] {
      a := GreatestLast(front);
      if children[n] != [] && Compare(children[n][|children[n]| - 1].key, children[a][|children[a]| - 1].key) > 0 {
        a := n;
      }
    } else {
      assert forall c :: 0 <= c < n ==> children[c] == front[c];
      a := n;
    }
  }

  lemma RestMergeable(children: seq<seq<Entry>>, a: nat)
    requires Mergeable(children) && IsGreatestLast(children, a)
    ensures var child := children[a]; Mergeable(children[a := child[..|child| - 1]])
    ensures var child := children[a]; var rest := children[a := child[..|child| - 1]];
      forall c, e :: 0 <= c < |rest| && e in rest[c] ==> Before(e.key, child[|child| - 1].key)
  {
    var child := children[a];
    var rest := children[a := child[..|child| - 1]];
    forall c, e | 0 <= c < |rest| && e in rest[c] ensures e in children[c] && Before(e.key, child[|child| - 1].key) {
      BelowLast(children, a, c, e);
    }
  }

  lemma BelowLast(children: seq<seq<Entry>>, a: nat, c: nat, e: Entry)
    requires Mergeable(children) && IsGreatestLast(children, a) && c < |children|
    requires e in if c == a then children[a][..|children[a]| - 1] else children[c]
    ensures e in children[c] && Before(e.key, children[a][|children[a]| - 1].key)
  {
    var n := |children[c]| - 1;
    var j :| 0 <= j < |children[c]| && children[c][j] == e && (c == a ==> j < n);
    SortedAt(children[c], j, n);
    if c != a {
      assert children[a][|children[a]| - 1] in children[a];
      CompareMeaning(e.key, children[a][|children[a]| - 1].key);
    }
  }

  lemma AppendOwned(children: seq<seq<Entry>>, a: nat, merged: seq<Entry>, owner: seq<nat>)
    requires IsGreatestLast(children, a)
    requires var child := children[a]; var rest := children[a := child[..|child| - 1]];
      Interleaves(rest, merged, owner) && SameEntries(rest, merged) &&
      forall c, e :: 0 <= c < |rest| && e in rest[c] ==> Before(e.key, child[|child| - 1].key)
    ensures var child := children[a];
      Interleaves(children, merged + [child[|child| - 1]], owner + [a]) && SameEntries(children, merged + [child[|child| - 1]])
  {
    var child := children[a];
    var last := child[|child| - 1];
    var rest := children[a := child[..|child| - 1]];
    var merged', owner' := merged + [last], owner + [a];
    forall i | 0 <= i < |merged| ensures Before(merged[i].key, last.key) {
      assert merged[i] in merged;
    }
    forall c: nat, n: nat | n <= |merged| ensures Count(owner', c, n) == Count(owner, c, n) {
      CountPrefix(owner, a, c, n);
    }
    forall c | 0 <= c < |children| ensures |children[c]| == Count(owner', c, |merged'|) {
      assert |rest[c]| == Count(owner, c, |merged|);
    }
    forall i | 0 <= i < |merged'| ensures OwnerHolds(children, merged', owner', i) {
      if i < |merged| { assert OwnerHolds(rest, merged, owner, i); }
    }
    AppendEntries(children, a, merged);
  }

  lemma AppendEntries(children: seq<seq<Entry>>, a: nat, merged: seq<Entry>)
    requires a < |children| && children[a] != []
    requires var child := children[a]; SameEntries(children[a := child[..|child| - 1]], merged)
    ensures var child := children[a]; SameEntries(children, merged + [child[|child| - 1]])
  {
    var child := children[a];
    var last := child[|child| - 1];
    var rest := children[a := child[..|child| - 1]];
    forall e ensures e in merged + [last] <==> exists c :: 0 <= c < |children| && e in children[c] {
      if e in merged {
        var c :| 0 <= c < |rest| && e in rest[c];
        assert e in children[c];
      }
      assert last in child;
      if exists c :: 0 <= c < |children| && e in children[c] {
        var c :| 0 <= c < |children| && e in children[c];
        assert e == last || e in rest[c];
      }
    }
  }

  lemma {:induction false} CountPrefix(owner: seq<nat>, a: nat, c: nat, n: nat)
    requires n <= |owner|
    ensures Count(owner + [a], c, n) == Count(owner, c, n)
  {
    if n > 0 { CountPrefix(owner, a, c, n - 1); }
  }
}
