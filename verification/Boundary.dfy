/** Completing the inputs of a compaction with boundary files (db/version_set.cc): a user key
    whose entries are split over two adjacent files must move down as a whole. */
module Boundary {
  import opened Wrappers
  import opened DbFormat
  import opened Versions

  /** The greatest largest key of a nonempty file list. */
  function LargestKey(files: seq<File>): InternalKey
    requires files != []
  {
    var last := files[|files| - 1];
    if |files| == 1 then last.largest
    else
      var key := LargestKey(files[..|files| - 1]);
      if Compare(last.largest, key) > 0 then last.largest else key
  }

  lemma {:induction false} LargestKeyIsMaximum(files: seq<File>)
    requires files != []
    ensures forall f :: f in files ==> AtOrBefore(f.largest, LargestKey(files))
    ensures exists f :: f in files && f.largest == LargestKey(files)
  {
    if |files| > 1 {
      LargestKeyIsMaximum(files[..|files| - 1]);
    }
    assert files[|files| - 1] in files;
  }

  method FindLargestKey(files: seq<File>) returns (largest: Option<InternalKey>)
    ensures largest == if files == [] then None else Some(LargestKey(files))
  {
    if files == [] { return None; }
    var key := files[0].largest;
    for i := 1 to |files|
      invariant key == LargestKey(files[..i])
    {
      assert files[..i + 1][..i] == files[..i];
      if Compare(files[i].largest, key) > 0 {
        key := files[i].largest;
      }
    }
    assert files[..|files|] == files;
    return Some(key);
  }

  /** `f` starts after `key` with the same user key. */
  predicate StartsAfter(f: File, key: InternalKey) {
    Compare(f.smallest, key) > 0 && f.smallest.user == key.user
  }

  ghost predicate SmallestBoundary(files: seq<File>, key: InternalKey, f: File) {
    f in files && StartsAfter(f, key) && forall g :: g in files && StartsAfter(g, key) ==> AtOrBefore(f.smallest, g.smallest)
  }

  method FindSmallestBoundaryFile(files: seq<File>, key: InternalKey) returns (boundary: Option<File>)
    ensures boundary.Some? ==> SmallestBoundary(files, key, boundary.value)
    ensures boundary.None? ==> forall g :: g in files ==> !StartsAfter(g, key)
  {
    boundary := None;
    for i := 0 to |files|
      invariant boundary.Some? ==> SmallestBoundary(files[..i], key, boundary.value)
      invariant boundary.None? ==> forall g :: g in files[..i] ==> !StartsAfter(g, key)
    {
      var f := files[i];
      if Compare(f.smallest, key) > 0 && f.smallest.user == key.user {
        if boundary.None? || Compare(f.smallest, boundary.value.smallest) < 0 {
          boundary := Some(f);
        }
      }
    }
  }

  /** No file outside `chosen` lies between two chosen files of a level. */
  ghost predicate Contiguous(files: seq<File>, chosen: seq<File>) {
    forall g :: g in files && g !in chosen ==>
      || (forall c :: c in chosen ==> Before(g.largest, c.smallest))
      || (forall c :: c in chosen ==> Before(c.largest, g.smallest))
  }

  /** No file outside `chosen` shares a user key with the range of a chosen file. */
  ghost predicate UserClosed(files: seq<File>, chosen: seq<File>) {
    forall g, c :: g in files && g !in chosen && c in chosen ==>
      g.largest.user < c.smallest.user || c.largest.user < g.smallest.user
  }

  ghost predicate NoDuplicates<T>(files: seq<T>) {
    forall i, j :: 0 <= i < j < |files| ==> files[i] != files[j]
  }

  /** `r` extends its first `n` files by the smallest boundary file, one after the other. */
  ghost predicate BoundaryChain(files: seq<File>, n: nat, r: seq<File>) {
    0 < n <= |r| && forall i :: n <= i < |r| ==> SmallestBoundary(files, LargestKey(r[..i]), r[i])
  }

  /** What AddBoundaryInputs makes of `chosen`: only boundary files are added, and neither a
      duplicate nor a gap appears, and key order is kept. */
  ghost predicate BoundaryExtension(files: seq<File>, chosen: seq<File>, r: seq<File>) {
    && (forall f :: f in r ==> f in files)
    && chosen <= r
    && BoundaryChain(files, |chosen|, r)
    && (NoDuplicates(chosen) ==> NoDuplicates(r))
    && (Disjoint(files) && Contiguous(files, chosen) ==> Contiguous(files, r))
    && (Disjoint(chosen) ==> Disjoint(r))
    && (UserClosed(files, chosen) ==> r == chosen)
  }

  /** AddBoundaryInputs: afterwards no file of the level starts after the largest chosen key with
      the same user key. */
  method AddBoundaryInputs(files: seq<File>, chosen: seq<File>) returns (r: seq<File>)
    requires forall f :: f in files ==> WellFormed(f)
    requires forall f :: f in chosen ==> f in files
    ensures chosen == [] ==> r == []
    ensures chosen != [] ==> BoundaryExtension(files, chosen, r)
    ensures chosen != [] ==> forall g :: g in files ==> !StartsAfter(g, LargestKey(r))
  {
    r := chosen;
    var largest := FindLargestKey(chosen);
    if largest.None? { return; }
    var key := largest.value;
    var searching := true;
    while searching
      invariant r != [] && BoundaryExtension(files, chosen, r)
      invariant key == LargestKey(r)
      invariant !searching ==> forall g :: g in files ==> !StartsAfter(g, key)
      decreases Remaining(files, key), searching
    {
      var boundary := FindSmallestBoundaryFile(files, key);
      if boundary.Some? {
        Extend(files, chosen, r, boundary.value);
        r := r + [boundary.value];
        key := boundary.value.largest;
      } else {
        searching := false;
      }
    }
  }

  ghost function Remaining(files: seq<File>, key: InternalKey): set<File> {
    set f | f in files && Before(key, f.largest)
  }

  lemma Extend(files: seq<File>, chosen: seq<File>, r: seq<File>, f: File)
    requires forall f :: f in files ==> WellFormed(f)
    requires r != [] && BoundaryExtension(files, chosen, r)
    requires SmallestBoundary(files, LargestKey(r), f)
    ensures BoundaryExtension(files, chosen, r + [f])
    ensures LargestKey(r + [f]) == f.largest
    ensures Remaining(files, f.largest) < Remaining(files, LargestKey(r))
  {
    ExtendKey(files, r, f);
    ExtendChain(files, |chosen|, r, f);
    if Disjoint(files) && Contiguous(files, chosen) {
      ExtendContiguous(files, r, f);
    }
    if NoDuplicates(chosen) {
      ExtendNoDuplicates(r, f);
    }
    if Disjoint(chosen) {
      ExtendDisjoint(r, f);
    }
  }

  lemma ExtendDisjoint(r: seq<File>, f: File)
    requires Disjoint(r) && WellFormed(f) && r != [] && StartsAfter(f, LargestKey(r))
    ensures Disjoint(r + [f])
  {
    LargestKeyIsMaximum(r);
    forall i | 0 <= i < |r| ensures Before(r[i].largest, f.smallest) {
      assert r[i] in r;
    }
  }

  lemma ExtendNoDuplicates<T>(r: seq<T>, f: T)
    requires NoDuplicates(r) && f !in r
    ensures NoDuplicates(r + [f])
  {
  }

  lemma ExtendChain(files: seq<File>, n: nat, r: seq<File>, f: File)
    requires BoundaryChain(files, n, r)
    requires SmallestBoundary(files, LargestKey(r), f)
    ensures BoundaryChain(files, n, r + [f])
  {
    var s := r + [f];
    forall i | n <= i < |s| ensures SmallestBoundary(files, LargestKey(s[..i]), s[i]) {
      if i == |r| {
        assert s[..i] == r;
      } else {
        assert s[..i] == r[..i];
      }
    }
  }

  lemma ExtendKey(files: seq<File>, r: seq<File>, f: File)
    requires forall f :: f in files ==> WellFormed(f)
    requires forall f :: f in r ==> f in files
    requires r != [] && SmallestBoundary(files, LargestKey(r), f)
    ensures f !in r
    ensures LargestKey(r + [f]) == f.largest
    ensures Remaining(files, f.largest) < Remaining(files, LargestKey(r))
    ensures !UserClosed(files, r)
  {
    FileRange(f);
    assert (r + [f])[..|r|] == r;
    var key := LargestKey(r);
    LargestKeyIsMaximum(r);
    assert f in Remaining(files, key) && f !in Remaining(files, f.largest);
    var c :| c in r && c.largest == key;
    assert !(f.largest.user < c.smallest.user || c.largest.user < f.smallest.user) by { FileRange(c); }
  }

  lemma ExtendContiguous(files: seq<File>, r: seq<File>, f: File)
    requires Disjoint(files) && Contiguous(files, r)
    requires forall f :: f in r ==> f in files
    requires r != [] && SmallestBoundary(files, LargestKey(r), f)
    ensures Contiguous(files, r + [f])
  {
    var key := LargestKey(r);
    LargestKeyIsMaximum(r);
    var c0 :| c0 in r && c0.largest == key;
    FileRange(c0);
    forall g | g in files && g !in r + [f]
      ensures (forall c :: c in r + [f] ==> Before(g.largest, c.smallest))
           || (forall c :: c in r + [f] ==> Before(c.largest, g.smallest))
    {
      FileRange(g);
      if !(forall c :: c in r ==> Before(g.largest, c.smallest)) {
        assert Before(key, g.smallest);
        OneFirst(files, f, g);
        assert Before(f.largest, g.smallest);
      } else {
        assert Before(g.largest, f.smallest);
      }
    }
  }

  lemma OneFirst(files: seq<File>, f: File, g: File)
    requires Disjoint(files) && f in files && g in files && f != g
    ensures Before(f.largest, g.smallest) || Before(g.largest, f.smallest)
  {
    var i :| 0 <= i < |files| && files[i] == f;
    var j :| 0 <= j < |files| && files[j] == g;
    assert i < j || j < i;
  }
}
