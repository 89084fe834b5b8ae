/** Table files of a version and the searches over one level (db/version_set.cc). */
module Versions {
  import opened Wrappers
  import opened DbFormat

  /** FileMetaData together with the table it names. */
  datatype File = File(number: nat, size: nat, smallest: InternalKey, largest: InternalKey, entries: seq<Entry>)

  ghost predicate WellFormed(f: File) {
    && f.entries != []
    && Sorted(f.entries)
    && f.smallest == f.entries[0].key
    && f.largest == f.entries[|f.entries| - 1].key
  }

  /** Levels >= 1: the files are ordered and disjoint by internal key. */
  ghost predicate Disjoint(files: seq<File>) {
    && (forall f :: f in files ==> WellFormed(f))
    && (forall i, j :: 0 <= i < j < |files| ==> Before(files[i].largest, files[j].smallest))
  }

  lemma EntryRange(f: File, e: Entry)
    requires WellFormed(f) && e in f.entries
    ensures AtOrBefore(f.smallest, e.key) && AtOrBefore(e.key, f.largest)
    ensures f.smallest.user <= e.key.user <= f.largest.user
  {
    var i :| 0 <= i < |f.entries| && f.entries[i] == e;
    assert i > 0 ==> Before(f.entries[0].key, f.entries[i].key);
    assert i < |f.entries| - 1 ==> Before(f.entries[i].key, f.entries[|f.entries| - 1].key);
  }

  lemma FileRange(f: File)
    requires WellFormed(f)
    ensures AtOrBefore(f.smallest, f.largest) && f.smallest.user <= f.largest.user
  {
    EntryRange(f, f.entries[0]);
  }

  /** The binary search over the largest keys of a level. */
  function Search(files: seq<File>, key: InternalKey, left: nat, right: nat): (r: nat)
    requires left <= right <= |files|
    ensures left <= r <= right
    decreases right - left
  {
    if left == right then right
    else
      var mid := (left + right) / 2;
      if Compare(files[mid].largest, key) < 0 then Search(files, key, mid + 1, right) else Search(files, key, left, mid)
  }

  /** FindFile: the earliest file whose largest key is at or after `key`. */
  method FindFile(files: seq<File>, key: InternalKey) returns (right: nat)
    ensures right == Search(files, key, 0, |files|)
    ensures Disjoint(files) ==> forall i :: 0 <= i < right ==> Before(files[i].largest, key)
    ensures Disjoint(files) ==> forall i :: right <= i < |files| ==> AtOrBefore(key, files[i].largest)
  {
    var left := 0;
    right := |files|;
    while left < right
      invariant 0 <= left <= right <= |files|
      invariant Search(files, key, left, right) == Search(files, key, 0, |files|)
      invariant Disjoint(files) ==> forall i :: 0 <= i < left ==> Before(files[i].largest, key)
      invariant Disjoint(files) ==> forall i :: right <= i < |files| ==> AtOrBefore(key, files[i].largest)
    {
      var mid := (left + right) / 2;
      if Disjoint(files) { LargestAscend(files, mid, key); }
      if Compare(files[mid].largest, key) < 0 {
        left := mid + 1;
      } else {
        right := mid;
      }
    }
  }

  lemma LargestAscend(files: seq<File>, mid: nat, key: InternalKey)
    requires Disjoint(files) && mid < |files|
    ensures Compare(files[mid].largest, key) < 0 ==> forall i :: 0 <= i <= mid ==> Before(files[i].largest, key)
    ensures Compare(files[mid].largest, key) >= 0 ==> forall i :: mid <= i < |files| ==> AtOrBefore(key, files[i].largest)
  {
    forall i | 0 <= i < |files| ensures AtOrBefore(files[i].smallest, files[i].largest) {
      FileRange(files[i]);
    }
  }

  // A missing bound stands before all keys (AfterFile) or after all keys (BeforeFile).
  predicate AfterFile(user: Option<UserKey>, f: File) {
    user.Some? && user.value > f.largest.user
  }

  predicate BeforeFile(user: Option<UserKey>, f: File) {
    user.Some? && user.value < f.smallest.user
  }

  /** `f`'s user keys meet the range from `lo` to `hi`. */
  predicate Meets(f: File, lo: Option<UserKey>, hi: Option<UserKey>) {
    !AfterFile(lo, f) && !BeforeFile(hi, f)
  }

  method SomeFileOverlapsRange(disjoint: bool, files: seq<File>, smallest: Option<UserKey>, largest: Option<UserKey>)
    returns (overlap: bool)
    requires disjoint ==> Disjoint(files)
    ensures overlap <==> exists f :: f in files && Meets(f, smallest, largest)
  {
    if !disjoint {
      for i := 0 to |files|
        invariant forall j :: 0 <= j < i ==> !Meets(files[j], smallest, largest)
      {
        if AfterFile(smallest, files[i]) || BeforeFile(largest, files[i]) {
        } else {
          assert Meets(files[i], smallest, largest);
          return true;
        }
      }
      return false;
    }
    var index := 0;
    if smallest.Some? {
      index := FindFile(files, LookupKey(smallest.value, MAX_SEQUENCE_NUMBER));
    }
    if index >= |files| {
      assert forall i :: 0 <= i < |files| ==> AfterFile(smallest, files[i]);
      return false;
    }
    overlap := !BeforeFile(largest, files[index]);
    forall i | 0 <= i < |files| ensures i < index ==> AfterFile(smallest, files[i])
      ensures i > index ==> files[index].smallest.user <= files[i].smallest.user
    {
      FileRange(files[index]);
    }
    assert !overlap ==> forall i :: 0 <= i < |files| ==> !Meets(files[i], smallest, largest);
    assert overlap ==> Meets(files[index], smallest, largest);
  }

  /** The files of a level that meet a range, in level order. */
  function Overlapping(files: seq<File>, lo: Option<UserKey>, hi: Option<UserKey>): (r: seq<File>)
    ensures forall f :: f in r <==> f in files && Meets(f, lo, hi)
  {
    if files == [] then []
    else
      var rest := Overlapping(files[..|files| - 1], lo, hi);
      var last := files[|files| - 1];
      if Meets(last, lo, hi) then rest + [last] else rest
  }

  /** The range from `lo` to `hi` holds all of the range from `begin` to `end`. */
  ghost predicate Holds(lo: Option<UserKey>, hi: Option<UserKey>, begin: Option<UserKey>, end: Option<UserKey>) {
    && (lo.Some? ==> begin.Some? && lo.value <= begin.value)
    && (hi.Some? ==> end.Some? && end.value <= hi.value)
  }

  /** Every file that meets the range lies inside it. */
  ghost predicate Closed(files: seq<File>, lo: Option<UserKey>, hi: Option<UserKey>) {
    forall f :: f in files && Meets(f, lo, hi) ==> Holds(lo, hi, Some(f.smallest.user), Some(f.largest.user))
  }

  /** The least closed range that holds the requested one. */
  ghost predicate LeastClosed(files: seq<File>, lo: Option<UserKey>, hi: Option<UserKey>,
                              begin: Option<UserKey>, end: Option<UserKey>)
  {
    Closed(files, lo, hi) && Needed(files, lo, hi, begin, end)
  }

  /** The range holds the requested one and lies in every closed range that does. */
  ghost predicate Needed(files: seq<File>, lo: Option<UserKey>, hi: Option<UserKey>, begin: Option<UserKey>, end: Option<UserKey>) {
    && Holds(lo, hi, begin, end)
    && forall lo', hi' :: Closed(files, lo', hi') && Holds(lo', hi', begin, end) ==> Holds(lo', hi', lo, hi)
  }

  lemma NeededWider(files: seq<File>, lo: Option<UserKey>, hi: Option<UserKey>, begin: Option<UserKey>, end: Option<UserKey>, f: File)
    requires Needed(files, lo, hi, begin, end) && f in files && Meets(f, lo, hi)
    ensures BelowRange(lo, f) ==> Needed(files, Some(f.smallest.user), hi, begin, end)
    ensures AboveRange(hi, f) ==> Needed(files, lo, Some(f.largest.user), begin, end)
  {
    forall lo', hi' | Closed(files, lo', hi') && Holds(lo', hi', begin, end)
      ensures BelowRange(lo, f) ==> Holds(lo', hi', Some(f.smallest.user), hi)
      ensures AboveRange(hi, f) ==> Holds(lo', hi', lo, Some(f.largest.user))
    {
      assert Holds(lo', hi', lo, hi) && Meets(f, lo', hi');
    }
  }

  lemma ClosedNext(files: seq<File>, i: nat, lo: Option<UserKey>, hi: Option<UserKey>)
    requires i < |files| && Closed(files[..i], lo, hi)
    requires Meets(files[i], lo, hi) ==> !BelowRange(lo, files[i]) && !AboveRange(hi, files[i])
    ensures Closed(files[..i + 1], lo, hi)
  {
    assert files[..i + 1] == files[..i] + [files[i]];
  }

  lemma OverlappingNext(files: seq<File>, i: nat, lo: Option<UserKey>, hi: Option<UserKey>)
    requires i < |files|
    ensures Overlapping(files[..i + 1], lo, hi) == Overlapping(files[..i], lo, hi) + if Meets(files[i], lo, hi) then [files[i]] else []
  {
    assert files[..i + 1][..i] == files[..i];
  }

  /** The least closed range is unique, so it names one list of files. */
  lemma LeastClosedUnique(files: seq<File>, lo: Option<UserKey>, hi: Option<UserKey>,
                          lo': Option<UserKey>, hi': Option<UserKey>, begin: Option<UserKey>, end: Option<UserKey>)
    requires LeastClosed(files, lo, hi, begin, end) && LeastClosed(files, lo', hi', begin, end)
    ensures lo == lo' && hi == hi'
  {
    assert Holds(lo, hi, lo', hi') && Holds(lo', hi', lo, hi);
  }

  /** The range a search of a level covers in the end. */
  ghost predicate SearchRange(level: nat, files: seq<File>, begin: Option<UserKey>, end: Option<UserKey>,
                              lo: Option<UserKey>, hi: Option<UserKey>)
  {
    if level > 0 then lo == begin && hi == end else LeastClosed(files, lo, hi, begin, end)
  }

  /** Version::GetOverlappingInputs over the files of one level. Level-0 files may overlap, so a
      file that widens the range restarts the search there. */
  method GetOverlappingInputs(level: nat, files: seq<File>, begin: Option<UserKey>, end: Option<UserKey>)
    returns (inputs: seq<File>)
    ensures exists lo, hi :: SearchRange(level, files, begin, end, lo, hi) && inputs == Overlapping(files, lo, hi)
  {
    hide Needed, Closed, Overlapping, Meets;
    NeededStart(files, begin, end);
    inputs := [];
    var userBegin, userEnd := begin, end;
    var i := 0;
    while i < |files|
      invariant 0 <= i <= |files|
      invariant inputs == Overlapping(files[..i], userBegin, userEnd)
      invariant level > 0 ==> userBegin == begin && userEnd == end
      invariant Needed(files, userBegin, userEnd, begin, end)
      invariant level == 0 ==> Closed(files[..i], userBegin, userEnd)
      decreases AllBelow(files, userBegin), AllAbove(files, userEnd), |files| - i
    {
      var f := files[i];
      MeetsIs(f, userBegin, userEnd);
      OverlappingNext(files, i, userBegin, userEnd);
      if level == 0 && Meets(f, userBegin, userEnd) { NeededWider(files, userBegin, userEnd, begin, end, f); }
      if level == 0 && (!Meets(f, userBegin, userEnd) || (!BelowRange(userBegin, f) && !AboveRange(userEnd, f))) {
        ClosedNext(files, i, userBegin, userEnd);
      }
      i := i + 1;
      if AfterFile(userBegin, f) {
      } else if BeforeFile(userEnd, f) {
      } else {
        inputs := inputs + [f];
        if level == 0 {
          if BelowRange(userBegin, f) {
            assert i - 1 in AllBelow(files, userBegin) && i - 1 !in AllBelow(files, Some(f.smallest.user));
            userBegin := Some(f.smallest.user);
            NothingFound(files, userBegin, userEnd);
            inputs := [];
            i := 0;
          } else if AboveRange(userEnd, f) {
            assert i - 1 in AllAbove(files, userEnd) && i - 1 !in AllAbove(files, Some(f.largest.user));
            userEnd := Some(f.largest.user);
            NothingFound(files, userBegin, userEnd);
            inputs := [];
            i := 0;
          }
        }
      }
    }
    assert files[..i] == files;
    assert SearchRange(level, files, begin, end, userBegin, userEnd);
  }

  lemma NeededStart(files: seq<File>, begin: Option<UserKey>, end: Option<UserKey>)
    ensures Needed(files, begin, end, begin, end)
    ensures Overlapping(files[..0], begin, end) == [] && Closed(files[..0], begin, end)
  {
  }

  lemma NothingFound(files: seq<File>, lo: Option<UserKey>, hi: Option<UserKey>)
    ensures Overlapping(files[..0], lo, hi) == [] && Closed(files[..0], lo, hi)
  {
  }

  lemma MeetsIs(f: File, lo: Option<UserKey>, hi: Option<UserKey>)
    ensures Meets(f, lo, hi) <==> !AfterFile(lo, f) && !BeforeFile(hi, f)
  {
  }

  predicate BelowRange(begin: Option<UserKey>, f: File) {
    begin.Some? && f.smallest.user < begin.value
  }

  predicate AboveRange(end: Option<UserKey>, f: File) {
    end.Some? && f.largest.user > end.value
  }

  // The files that can still widen the range on each side; they bound the restarts.
  ghost function AllBelow(files: seq<File>, begin: Option<UserKey>): set<nat> {
    set j: nat | j < |files| && BelowRange(begin, files[j])
  }

  ghost function AllAbove(files: seq<File>, end: Option<UserKey>): set<nat> {
    set j: nat | j < |files| && AboveRange(end, files[j])
  }

  function TotalFileSize(files: seq<File>): nat {
    if files == [] then 0 else TotalFileSize(files[..|files| - 1]) + files[|files| - 1].size
  }

  /** The seven levels of a version; levels >= 1 are disjoint. */
  ghost predicate ValidLevels(levels: seq<seq<File>>) {
    && |levels| == NUM_LEVELS
    && (forall f :: f in levels[0] ==> WellFormed(f))
    && (forall l :: 1 <= l < NUM_LEVELS ==> Disjoint(levels[l]))
  }

  ghost predicate Overlaps(files: seq<File>, lo: UserKey, hi: UserKey) {
    exists f :: f in files && Meets(f, Some(lo), Some(hi))
  }

  function GrandparentBytes(levels: seq<seq<File>>, level: nat, lo: UserKey, hi: UserKey): nat
    requires |levels| == NUM_LEVELS && level + 2 < NUM_LEVELS
  {
    TotalFileSize(Overlapping(levels[level + 2], Some(lo), Some(hi)))
  }

  /** The level a flushed range goes to: down to level 2, but never past an overlap and never onto too many
      grandparent bytes; less deep only for one of these reasons. */
  ghost predicate PickedLevel(levels: seq<seq<File>>, lo: UserKey, hi: UserKey, maxFileSize: nat, level: nat)
    requires |levels| == NUM_LEVELS
  {
    && level <= 2
    && (level > 0 ==> forall l :: 0 <= l <= level ==> !Overlaps(levels[l], lo, hi))
    && (forall l :: 0 <= l < level ==> GrandparentBytes(levels, l, lo, hi) <= 10 * maxFileSize)
    && (level < 2 ==>
         || (level == 0 && Overlaps(levels[0], lo, hi))
         || Overlaps(levels[level + 1], lo, hi)
         || GrandparentBytes(levels, level, lo, hi) > 10 * maxFileSize)
  }

  /** Version::PickLevelForMemTableOutput. */
  method PickLevelForMemTableOutput(levels: seq<seq<File>>, lo: UserKey, hi: UserKey, maxFileSize: nat)
    returns (level: nat)
    requires ValidLevels(levels)
    ensures PickedLevel(levels, lo, hi, maxFileSize, level)
  {
    level := 0;
    var overlap := SomeFileOverlapsRange(false, levels[0], Some(lo), Some(hi));
    if overlap { return; }
    while level < MAX_MEM_COMPACT_LEVEL
      invariant level <= MAX_MEM_COMPACT_LEVEL
      invariant forall l :: 0 <= l <= level ==> !Overlaps(levels[l], lo, hi)
      invariant forall l :: 0 <= l < level ==> GrandparentBytes(levels, l, lo, hi) <= 10 * maxFileSize
    {
      overlap := SomeFileOverlapsRange(true, levels[level + 1], Some(lo), Some(hi));
      if overlap { break; }
      if level + 2 < NUM_LEVELS {
        var overlaps := GetOverlappingInputs(level + 2, levels[level + 2], Some(lo), Some(hi));
        if TotalFileSize(overlaps) > 10 * maxFileSize { break; }
      }
      level := level + 1;
    }
  }
}
