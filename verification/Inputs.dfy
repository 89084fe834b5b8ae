/** The choice of the files a compaction reads (VersionSet::PickCompaction, CompactRange and
    SetupOtherInputs in db/version_set.cc). */
module Inputs {
  import opened Wrappers
  import opened DbFormat
  import opened Versions
  import opened Boundary
  import opened Gaps

  function SmallestKey(files: seq<File>): InternalKey
    requires files != []
  {
    var last := files[|files| - 1];
    if |files| == 1 then last.smallest
    else
      var key := SmallestKey(files[..|files| - 1]);
      if Compare(last.smallest, key) < 0 then last.smallest else key
  }

  lemma {:induction false} SmallestKeyIsMinimum(files: seq<File>)
    requires files != []
    ensures forall f :: f in files ==> AtOrBefore(SmallestKey(files), f.smallest)
    ensures exists f :: f in files && f.smallest == SmallestKey(files)
  {
    if |files| > 1 {
      SmallestKeyIsMinimum(files[..|files| - 1]);
    }
    assert files[|files| - 1] in files;
  }

  method GetRange(files: seq<File>) returns (smallest: InternalKey, largest: InternalKey)
    requires files != []
    ensures smallest == SmallestKey(files) && largest == LargestKey(files)
  {
    smallest, largest := files[0].smallest, files[0].largest;
    for i := 1 to |files|
      invariant smallest == SmallestKey(files[..i]) && largest == LargestKey(files[..i])
    {
      assert files[..i + 1][..i] == files[..i];
      if Compare(files[i].smallest, smallest) < 0 { smallest := files[i].smallest; }
      if Compare(files[i].largest, largest) > 0 { largest := files[i].largest; }
    }
    assert files[..|files|] == files;
  }

  /** The files of `level` chosen so far: at level 0 nothing outside shares a user key with them,
      at the other levels nothing outside lies between them, and they are in key order. */
  ghost predicate ClosedChoice(level: nat, files: seq<File>, chosen: seq<File>) {
    && chosen != []
    && NoDuplicates(chosen)
    && (forall f :: f in chosen ==> f in files)
    && (level == 0 ==> UserClosed(files, chosen))
    && (level > 0 ==> Contiguous(files, chosen) && Disjoint(chosen))
  }

  /** What every compaction reads: a closed choice at `level` that no file continues with its last
      user key, and exactly the files one level down that meet its user keys. */
  ghost predicate LegalInputs(levels: seq<seq<File>>, level: nat, in0: seq<File>, in1: seq<File>)
    requires |levels| == NUM_LEVELS && level + 1 < NUM_LEVELS
  {
    && ClosedChoice(level, levels[level], in0)
    && (forall g :: g in levels[level] ==> !StartsAfter(g, LargestKey(in0)))
    && in1 == Overlapping(levels[level + 1], Some(SmallestKey(in0).user), Some(LargestKey(in0).user))
  }

  /** The files one level down that meet the user keys of a choice. */
  function LowerOf(levels: seq<seq<File>>, level: nat, chosen: seq<File>): seq<File>
    requires |levels| == NUM_LEVELS && level + 1 < NUM_LEVELS && chosen != []
  {
    Overlapping(levels[level + 1], Some(SmallestKey(chosen).user), Some(LargestKey(chosen).user))
  }

  /** The choice completed by boundary files, until there is none to add. */
  ghost predicate Completes(files: seq<File>, chosen: seq<File>, r: seq<File>) {
    chosen != [] && BoundaryExtension(files, chosen, r) && forall g :: g in files ==> !StartsAfter(g, LargestKey(r))
  }

  /** The files of the level that a search for the range of `all` finds. */
  ghost predicate InRangeOf(levels: seq<seq<File>>, level: nat, all: seq<File>, found: seq<File>)
    requires |levels| == NUM_LEVELS && level < NUM_LEVELS && all != []
  {
    exists lo, hi :: SearchRange(level, levels[level], Some(SmallestKey(all).user), Some(LargestKey(all).user), lo, hi) &&
                     found == Overlapping(levels[level], lo, hi)
  }

  /** A wider choice, of the files in the range of all inputs, that needs no further lower file and is
      not too big. */
  ghost predicate Widens(levels: seq<seq<File>>, level: nat, base: seq<File>, wide: seq<File>, maxFileSize: nat)
    requires |levels| == NUM_LEVELS && level + 1 < NUM_LEVELS && base != []
  {
    var in1 := LowerOf(levels, level, base);
    && in1 != [] && wide != [] && (exists found :: InRangeOf(levels, level, base + in1, found) && Completes(levels[level], found, wide))
    && |wide| > |base| && LowerOf(levels, level, wide) == in1 && TotalFileSize(in1) + TotalFileSize(wide) < 25 * maxFileSize
  }

  /** What becomes of the files picked: they are completed, the lower files are those the completed choice
      meets, and the choice is widened exactly if that is possible without further lower files. */
  ghost predicate GrownFrom(levels: seq<seq<File>>, level: nat, picked: seq<File>, maxFileSize: nat, in0: seq<File>, in1: seq<File>)
    requires |levels| == NUM_LEVELS && level + 1 < NUM_LEVELS
  {
    exists base :: Completes(levels[level], picked, base) && GrownBase(levels, level, base, maxFileSize, in0, in1)
  }

  ghost predicate GrownBase(levels: seq<seq<File>>, level: nat, base: seq<File>, maxFileSize: nat, in0: seq<File>, in1: seq<File>)
    requires |levels| == NUM_LEVELS && level + 1 < NUM_LEVELS
  {
    && base != [] && in1 == LowerOf(levels, level, base)
    && (Widens(levels, level, base, in0, maxFileSize) || (in0 == base && forall wide :: !Widens(levels, level, base, wide, maxFileSize)))
  }

  ghost predicate ValidVersion(levels: seq<seq<File>>) {
    ValidLevels(levels) && NoDuplicates(levels[0])
  }

  lemma LevelFacts(levels: seq<seq<File>>, level: nat)
    requires ValidVersion(levels) && level < NUM_LEVELS
    ensures forall f :: f in levels[level] ==> WellFormed(f)
    ensures NoDuplicates(levels[level])
  {
    if level > 0 {
      DisjointNoDuplicates(levels[level]);
    }
  }

  lemma DisjointNoDuplicates(files: seq<File>)
    requires Disjoint(files)
    ensures NoDuplicates(files)
  {
    forall i, j | 0 <= i < j < |files| ensures files[i] != files[j] {
      FileRange(files[i]);
    }
  }

  lemma {:induction false} OverlappingNoDuplicates(files: seq<File>, lo: Option<UserKey>, hi: Option<UserKey>)
    requires NoDuplicates(files)
    ensures NoDuplicates(Overlapping(files, lo, hi))
  {
    if files != [] {
      OverlappingNoDuplicates(files[..|files| - 1], lo, hi);
    }
  }

  lemma {:induction false} OverlappingDisjoint(files: seq<File>, lo: Option<UserKey>, hi: Option<UserKey>)
    requires Disjoint(files)
    ensures Disjoint(Overlapping(files, lo, hi))
  {
    if files != [] {
      var front := files[..|files| - 1];
      OverlappingDisjoint(front, lo, hi);
      var r := Overlapping(front, lo, hi);
      forall i | 0 <= i < |r| ensures Before(r[i].largest, files[|files| - 1].smallest) {
        assert r[i] in front;
      }
    }
  }

  /** A file that misses the range lies wholly on one side of all the files that meet it. */
  lemma OverlappingContiguous(files: seq<File>, lo: Option<UserKey>, hi: Option<UserKey>)
    requires Disjoint(files)
    ensures Contiguous(files, Overlapping(files, lo, hi))
  {
    var chosen := Overlapping(files, lo, hi);
    forall g | g in files && g !in chosen
      ensures (forall c :: c in chosen ==> Before(g.largest, c.smallest))
           || (forall c :: c in chosen ==> Before(c.largest, g.smallest))
    {
      forall c | c in chosen
        ensures if AfterFile(lo, g) then Before(g.largest, c.smallest) else Before(c.largest, g.smallest)
      {
        OneFirst(files, g, c);
        FileRange(g);
        FileRange(c);
      }
    }
  }

  /** A prefix of a contiguous run of a level is contiguous. */
  lemma PrefixContiguous(files: seq<File>, lo: Option<UserKey>, hi: Option<UserKey>, n: nat)
    requires Disjoint(files) && n <= |Overlapping(files, lo, hi)|
    ensures Contiguous(files, Overlapping(files, lo, hi)[..n])
  {
    var all := Overlapping(files, lo, hi);
    OverlappingContiguous(files, lo, hi);
    OverlappingDisjoint(files, lo, hi);
    forall g | g in files && g !in all[..n]
      ensures (forall c :: c in all[..n] ==> Before(g.largest, c.smallest))
           || (forall c :: c in all[..n] ==> Before(c.largest, g.smallest))
    {
      if g in all {
        var j :| 0 <= j < |all| && all[j] == g;
        assert j >= n;
        forall c | c in all[..n] ensures Before(c.largest, g.smallest) {
          var i :| 0 <= i < n && all[i] == c;
        }
      } else if forall c :: c in all ==> Before(g.largest, c.smallest) {
      } else {
        assert forall c :: c in all ==> Before(c.largest, g.smallest);
      }
    }
  }

  lemma OverlappingChoice(levels: seq<seq<File>>, level: nat, lo: Option<UserKey>, hi: Option<UserKey>)
    requires ValidVersion(levels) && level < NUM_LEVELS
    requires level == 0 ==> Closed(levels[0], lo, hi)
    requires Overlapping(levels[level], lo, hi) != []
    ensures ClosedChoice(level, levels[level], Overlapping(levels[level], lo, hi))
  {
    LevelFacts(levels, level);
    OverlappingNoDuplicates(levels[level], lo, hi);
    if level > 0 {
      OverlappingContiguous(levels[level], lo, hi);
      OverlappingDisjoint(levels[level], lo, hi);
    }
  }

  /** Widening the range to all inputs keeps every file already chosen. */
  lemma ExpansionKeeps(files: seq<File>, in0: seq<File>, in1: seq<File>, lo: Option<UserKey>, hi: Option<UserKey>)
    requires in0 != []
    requires forall f :: f in in0 ==> f in files && WellFormed(f)
    requires Holds(lo, hi, Some(SmallestKey(in0 + in1).user), Some(LargestKey(in0 + in1).user))
    ensures forall f :: f in in0 ==> f in Overlapping(files, lo, hi)
  {
    SmallestKeyIsMinimum(in0 + in1);
    LargestKeyIsMaximum(in0 + in1);
    forall f | f in in0 ensures Meets(f, lo, hi) {
      assert f in in0 + in1;
      FileRange(f);
    }
  }

  lemma ChoiceRanged(levels: seq<seq<File>>, level: nat, chosen: seq<File>)
    requires ValidVersion(levels) && level < NUM_LEVELS && forall f :: f in chosen ==> f in levels[level]
    ensures Ranged(chosen)
  {
    LevelFacts(levels, level);
    forall f | f in chosen ensures f.smallest.user <= f.largest.user { FileRange(f); }
  }

  lemma KeysSpan(files: seq<File>)
    requires files != []
    ensures Spans(files, SmallestKey(files).user, LargestKey(files).user)
  {
    SmallestKeyIsMinimum(files);
    LargestKeyIsMaximum(files);
  }

  /** Boundary files leave no gap, whatever `others` the choice is seen together with. */
  method WithBoundary(levels: seq<seq<File>>, level: nat, picked: seq<File>, ghost others: seq<File>) returns (in0: seq<File>)
    requires ValidVersion(levels) && level + 1 < NUM_LEVELS && ClosedChoice(level, levels[level], picked)
    ensures ClosedChoice(level, levels[level], in0)
    ensures forall g :: g in levels[level] ==> !StartsAfter(g, LargestKey(in0))
    ensures forall f :: f in picked ==> f in in0
    ensures Completes(levels[level], picked, in0)
    ensures Ranged(others) && Gapless(picked + others) ==> Gapless(in0 + others)
  {
    hide Gapless;
    LevelFacts(levels, level);
    in0 := AddBoundaryInputs(levels[level], picked);
    ChoiceRanged(levels, level, in0);
    if Ranged(others) && Gapless(picked + others) {
      assert in0[..|picked|] == picked && in0[..|in0|] == in0;
      ChainGapless(levels[level], |picked|, in0, others, |in0|);
    }
  }

  lemma LowerGapless(levels: seq<seq<File>>, level: nat, in0: seq<File>, others: seq<File>, in1: seq<File>)
    requires ValidVersion(levels) && level + 1 < NUM_LEVELS && in0 != [] && forall f :: f in in0 ==> f in levels[level]
    requires in1 == Overlapping(levels[level + 1], Some(SmallestKey(in0).user), Some(LargestKey(in0).user))
    requires (forall f :: f in others ==> f in in1) && Gapless(in0 + others)
    ensures Gapless(in0 + in1)
  {
    ChoiceRanged(levels, level, in0);
    ChoiceRanged(levels, level + 1, in1);
    hide Gapless, Touches, ValidVersion, SmallestKey, LargestKey;
    var a, b := KeyFiles(in0);
    MeetingTouches(in0, others, in1, a, b);
  }

  lemma KeyFiles(files: seq<File>) returns (a: File, b: File)
    requires files != []
    ensures a in files && b in files && a.smallest == SmallestKey(files) && b.largest == LargestKey(files)
    ensures forall f :: f in files ==> a.smallest.user <= f.smallest.user && f.largest.user <= b.largest.user
  {
    SmallestKeyIsMinimum(files);
    LargestKeyIsMaximum(files);
    a :| a in files && a.smallest == SmallestKey(files);
    b :| b in files && b.largest == LargestKey(files);
  }

  lemma MeetingTouches(in0: seq<File>, others: seq<File>, in1: seq<File>, a: File, b: File)
    requires Ranged(in0) && Ranged(in1) && a in in0 && b in in0 && Gapless(in0 + others) && forall f :: f in others ==> f in in1
    requires forall f :: f in in0 ==> a.smallest.user <= f.smallest.user && f.largest.user <= b.largest.user
    requires forall f :: f in in1 ==> a.smallest.user <= f.largest.user && f.smallest.user <= b.largest.user
    ensures Gapless(in0 + in1)
  {
    hide Gapless, Touches;
    var all, r := in0 + others, in0 + in1;
    assert a in all && b in all;
    forall f | f in r ensures Touches(all, f) {
      TouchesBy(all, f, a, b);
    }
    GaplessGrows(all, r);
  }

  lemma ExpandGapless(levels: seq<seq<File>>, level: nat, in0: seq<File>, in1: seq<File>, lo: Option<UserKey>, hi: Option<UserKey>)
    requires |levels| == NUM_LEVELS && ValidVersion(levels) && level + 1 < NUM_LEVELS && in0 != [] && forall f :: f in in0 ==> f in levels[level]
    requires SearchRange(level, levels[level], Some(SmallestKey(in0 + in1).user), Some(LargestKey(in0 + in1).user), lo, hi)
    requires forall f :: f in in0 ==> f in Overlapping(levels[level], lo, hi)
    requires Ranged(in1) && Gapless(in0 + in1)
    ensures Gapless(Overlapping(levels[level], lo, hi) + in1)
  {
    hide ValidVersion, Gapless, Touches, LeastClosed, SmallestKey, LargestKey;
    var all, found := in0 + in1, Overlapping(levels[level], lo, hi);
    KeysSpan(all);
    ChoiceRanged(levels, level, in0);
    ChoiceRanged(levels, level, levels[level]);
    if level > 0 {
      FoundGapless(levels[level], all, SmallestKey(all).user, LargestKey(all).user);
    } else {
      LeastGapless(levels[level], all, SmallestKey(all).user, LargestKey(all).user, lo, hi);
    }
    GaplessSame(found + all, found + in1);
  }

  /** A wider choice meets every lower file the narrower one meets. */
  lemma WiderLower(files: seq<File>, in0: seq<File>, wider: seq<File>, f: File)
    requires in0 != [] && wider != [] && forall g :: g in in0 ==> g in wider
    requires f in Overlapping(files, Some(SmallestKey(in0).user), Some(LargestKey(in0).user))
    ensures f in Overlapping(files, Some(SmallestKey(wider).user), Some(LargestKey(wider).user))
  {
    KeysSpan(in0);
    KeysSpan(wider);
  }

  method LowerInputs(levels: seq<seq<File>>, level: nat, in0: seq<File>) returns (in1: seq<File>)
    requires |levels| == NUM_LEVELS && level + 1 < NUM_LEVELS && in0 != []
    ensures in1 == Overlapping(levels[level + 1], Some(SmallestKey(in0).user), Some(LargestKey(in0).user))
  {
    var smallest, largest := GetRange(in0);
    in1 := GetOverlappingInputs(level + 1, levels[level + 1], Some(smallest.user), Some(largest.user));
  }

  /** The files of `level` within the range of all inputs, completed by boundary files. */
  method Expand(levels: seq<seq<File>>, level: nat, in0: seq<File>, in1: seq<File>) returns (expanded0: seq<File>)
    requires ValidVersion(levels) && level + 1 < NUM_LEVELS && ClosedChoice(level, levels[level], in0)
    ensures ClosedChoice(level, levels[level], expanded0)
    ensures forall g :: g in levels[level] ==> !StartsAfter(g, LargestKey(expanded0))
    ensures forall f :: f in in0 ==> f in expanded0
    ensures exists found :: InRangeOf(levels, level, in0 + in1, found) && Completes(levels[level], found, expanded0) && ClosedChoice(level, levels[level], found)
    ensures Ranged(in1) && Gapless(in0 + in1) ==> Gapless(expanded0 + in1)
  {
    hide Gapless;
    var allStart, allLimit := GetRange(in0 + in1);
    expanded0 := GetOverlappingInputs(level, levels[level], Some(allStart.user), Some(allLimit.user));
    ghost var lo, hi :| SearchRange(level, levels[level], Some(allStart.user), Some(allLimit.user), lo, hi) &&
                        expanded0 == Overlapping(levels[level], lo, hi);
    LevelFacts(levels, level);
    ExpansionKeeps(levels[level], in0, in1, lo, hi);
    assert in0[0] in expanded0;
    OverlappingChoice(levels, level, lo, hi);
    if Ranged(in1) && Gapless(in0 + in1) {
      ExpandGapless(levels, level, in0, in1, lo, hi);
    }
    ghost var found := expanded0;
    expanded0 := WithBoundary(levels, level, expanded0, in1);
    assert InRangeOf(levels, level, in0 + in1, found);
  }

  lemma BoundaryUnique(files: seq<File>, key: InternalKey, f: File, g: File)
    requires Disjoint(files) && SmallestBoundary(files, key, f) && SmallestBoundary(files, key, g)
    ensures f == g
  {
    CompareMeaning(f.smallest, g.smallest);
    var i :| 0 <= i < |files| && files[i] == f;
    var j :| 0 <= j < |files| && files[j] == g;
    FileRange(f);
    FileRange(g);
    CompareMeaning(f.largest, g.smallest);
    CompareMeaning(g.largest, f.smallest);
  }

  lemma CompletedLength(files: seq<File>, chosen: seq<File>, r: seq<File>)
    requires Completes(files, chosen, r)
    ensures chosen != [] && chosen <= r && r[..|chosen|] == chosen
  {
  }

  lemma NextBoundary(files: seq<File>, chosen: seq<File>, r: seq<File>, n: nat)
    requires Completes(files, chosen, r) && |chosen| <= n < |r|
    ensures n > 0 && SmallestBoundary(files, LargestKey(r[..n]), r[n])
  {
  }

  lemma GoesOn(files: seq<File>, chosen: seq<File>, r: seq<File>, front: seq<File>, f: File)
    requires Completes(files, chosen, r) && front != [] && front <= r && SmallestBoundary(files, LargestKey(front), f)
    ensures |front| < |r|
  {
    assert r[..|front|] == front && r[..|r|] == r;
  }

  /** There is one way to complete a choice. */
  lemma {:induction false} CompletedSame(files: seq<File>, chosen: seq<File>, r: seq<File>, r': seq<File>, n: nat)
    requires Disjoint(files) && Completes(files, chosen, r) && Completes(files, chosen, r') && |chosen| <= n <= |r|
    ensures n <= |r'| && r[..n] == r'[..n]
    decreases n
  {
    hide Disjoint, Completes, SmallestBoundary, LargestKey;
    CompletedLength(files, chosen, r);
    CompletedLength(files, chosen, r');
    if n > |chosen| {
      CompletedSame(files, chosen, r, r', n - 1);
      var front := r[..n - 1];
      NextBoundary(files, chosen, r, n - 1);
      GoesOn(files, chosen, r', front, r[n - 1]);
      NextBoundary(files, chosen, r', n - 1);
      BoundaryUnique(files, LargestKey(front), r[n - 1], r'[n - 1]);
      assert r[..n] == front + [r[n - 1]] && r'[..n] == r'[..n - 1] + [r'[n - 1]];
    }
  }

  lemma CompletesUnique(levels: seq<seq<File>>, level: nat, chosen: seq<File>, r: seq<File>, r': seq<File>)
    requires ValidVersion(levels) && level < NUM_LEVELS && ClosedChoice(level, levels[level], chosen)
    requires Completes(levels[level], chosen, r) && Completes(levels[level], chosen, r')
    ensures r == r'
  {
    if level > 0 {
      hide Completes, Contiguous;
      CompletedLength(levels[level], chosen, r);
      CompletedLength(levels[level], chosen, r');
      CompletedSame(levels[level], chosen, r, r', |r|);
      CompletedSame(levels[level], chosen, r', r, |r'|);
      assert r[..|r|] == r && r'[..|r'|] == r';
    }
  }

  lemma {:induction false} SameCount(files: seq<File>, lo: Option<UserKey>, hi: Option<UserKey>, lo': Option<UserKey>, hi': Option<UserKey>)
    requires Holds(lo', hi', lo, hi)
    ensures |Overlapping(files, lo, hi)| <= |Overlapping(files, lo', hi')|
    ensures |Overlapping(files, lo, hi)| == |Overlapping(files, lo', hi')| ==> Overlapping(files, lo, hi) == Overlapping(files, lo', hi')
  {
    if files != [] {
      SameCount(files[..|files| - 1], lo, hi, lo', hi');
    }
  }

  /** A wider choice that meets as many lower files meets the same ones. */
  lemma SameLower(levels: seq<seq<File>>, level: nat, in0: seq<File>, wider: seq<File>)
    requires |levels| == NUM_LEVELS && level + 1 < NUM_LEVELS && in0 != [] && wider != [] && forall g :: g in in0 ==> g in wider
    ensures |LowerOf(levels, level, wider)| == |LowerOf(levels, level, in0)| ==> LowerOf(levels, level, wider) == LowerOf(levels, level, in0)
  {
    KeysSpan(in0);
    KeysSpan(wider);
    SameCount(levels[level + 1], Some(SmallestKey(in0).user), Some(LargestKey(in0).user), Some(SmallestKey(wider).user), Some(LargestKey(wider).user));
  }

  lemma FoundOnce(levels: seq<seq<File>>, level: nat, all: seq<File>, found: seq<File>, found': seq<File>)
    requires |levels| == NUM_LEVELS && level < NUM_LEVELS && all != [] && InRangeOf(levels, level, all, found) && InRangeOf(levels, level, all, found')
    ensures found == found'
  {
    hide LeastClosed, Overlapping;
    var begin, end := Some(SmallestKey(all).user), Some(LargestKey(all).user);
    var lo, hi :| SearchRange(level, levels[level], begin, end, lo, hi) && found == Overlapping(levels[level], lo, hi);
    var lo', hi' :| SearchRange(level, levels[level], begin, end, lo', hi') && found' == Overlapping(levels[level], lo', hi');
    if level == 0 { LeastClosedUnique(levels[0], lo, hi, lo', hi', begin, end); }
  }

  /** If the one wider choice there is does not do, there is none. */
  lemma NoneWidens(levels: seq<seq<File>>, level: nat, base: seq<File>, found: seq<File>, wide: seq<File>, maxFileSize: nat)
    requires ValidVersion(levels) && level + 1 < NUM_LEVELS && base != []
    requires InRangeOf(levels, level, base + LowerOf(levels, level, base), found) && Completes(levels[level], found, wide)
    requires ClosedChoice(level, levels[level], found) && !Widens(levels, level, base, wide, maxFileSize)
    ensures forall other :: !Widens(levels, level, base, other, maxFileSize)
  {
    hide InRangeOf, Completes, ClosedChoice, LowerOf;
    forall other | Widens(levels, level, base, other, maxFileSize) ensures false {
      var found' :| InRangeOf(levels, level, base + LowerOf(levels, level, base), found') && Completes(levels[level], found', other);
      FoundOnce(levels, level, base + LowerOf(levels, level, base), found, found');
      CompletesUnique(levels, level, found, wide, other);
    }
  }

  lemma NoLower(levels: seq<seq<File>>, level: nat, base: seq<File>, maxFileSize: nat)
    requires |levels| == NUM_LEVELS && level + 1 < NUM_LEVELS && base != [] && LowerOf(levels, level, base) == []
    ensures forall wide :: !Widens(levels, level, base, wide, maxFileSize)
  {
  }

  method SetupOtherInputs(levels: seq<seq<File>>, level: nat, picked: seq<File>, maxFileSize: nat)
    returns (in0: seq<File>, in1: seq<File>)
    requires ValidVersion(levels) && level + 1 < NUM_LEVELS
    requires ClosedChoice(level, levels[level], picked)
    ensures LegalInputs(levels, level, in0, in1)
    ensures forall f :: f in picked ==> f in in0
    ensures Gapless(picked) ==> Gapless(in0 + in1)
    ensures GrownFrom(levels, level, picked, maxFileSize, in0, in1)
  {
    hide Gapless, Disjoint, WellFormed, LargestKey, SmallestKey, Completes, InRangeOf, BoundaryExtension;
    assert picked + [] == picked;
    in0 := WithBoundary(levels, level, picked, []);
    in1 := LowerInputs(levels, level, in0);
    ghost var base := in0;
    if in1 == [] { NoLower(levels, level, base, maxFileSize); }
    ChoiceRanged(levels, level + 1, in1);
    if Gapless(picked) { LowerGapless(levels, level, in0, [], in1); }
    if in1 != [] {
      var expanded0 := Expand(levels, level, in0, in1);
      ghost var found :| InRangeOf(levels, level, base + in1, found) && Completes(levels[level], found, expanded0) && ClosedChoice(level, levels[level], found);
      if |expanded0| > |in0| && TotalFileSize(in1) + TotalFileSize(expanded0) < 25 * maxFileSize {
        var expanded1 := LowerInputs(levels, level, expanded0);
        SameLower(levels, level, in0, expanded0);
        if |expanded1| == |in1| {
          if Gapless(picked) {
            forall f | f in in1 ensures f in expanded1 { WiderLower(levels[level + 1], in0, expanded0, f); }
            LowerGapless(levels, level, expanded0, in1, expanded1);
          }
          in0, in1 := expanded0, expanded1;
        }
      }
      if in0 == base { NoneWidens(levels, level, base, found, expanded0, maxFileSize); }
    }
    assert GrownBase(levels, level, base, maxFileSize, in0, in1);
  }

  // The two ways PickCompaction starts: the first file past the level's compact pointer, or the
  // file that used up its allowed seeks.
  datatype Trigger = BySize(pointer: Option<InternalKey>) | BySeek(file: File)

  /** The first file past the pointer, or the first of all when the pointer is past every file. */
  ghost predicate IsNextInTurn(files: seq<File>, pointer: Option<InternalKey>, f: File) {
    || (exists i :: 0 <= i < |files| && files[i] == f && EndsAfter(f, pointer) && forall j :: 0 <= j < i ==> !EndsAfter(files[j], pointer))
    || (files != [] && f == files[0] && forall g :: g in files ==> !EndsAfter(g, pointer))
  }

  /** The file has keys past the pointer. */
  ghost predicate EndsAfter(f: File, pointer: Option<InternalKey>) {
    pointer.Some? ==>
      var p, k := pointer.value, f.largest;
      p.user < k.user || (p.user == k.user && (p.sn > k.sn || (p.sn == k.sn && p.typ.TypeValue? && k.typ.TypeDeletion?)))
  }

  predicate IsPast(f: File, pointer: Option<InternalKey>) {
    pointer.None? || Compare(f.largest, pointer.value) > 0
  }

  method NextInTurn(files: seq<File>, pointer: Option<InternalKey>) returns (f: File)
    requires files != []
    ensures f in files && IsNextInTurn(files, pointer, f)
  {
    assert forall g :: EndsAfter(g, pointer) <==> IsPast(g, pointer);
    for i := 0 to |files|
      invariant forall j :: 0 <= j < i ==> !IsPast(files[j], pointer)
    {
      if IsPast(files[i], pointer) { return files[i]; }
    }
    return files[0];
  }

  /** The level-0 files found from one file leave no gap. */
  lemma FirstGapless(levels: seq<seq<File>>, picked: File, lo: Option<UserKey>, hi: Option<UserKey>)
    requires ValidVersion(levels) && picked in Overlapping(levels[0], lo, hi)
    requires LeastClosed(levels[0], lo, hi, Some(picked.smallest.user), Some(picked.largest.user))
    ensures Gapless(Overlapping(levels[0], lo, hi))
  {
    var found := Overlapping(levels[0], lo, hi);
    ChoiceRanged(levels, 0, levels[0]);
    OneIsGapless(picked);
    assert picked in [picked] && Spans([picked], picked.smallest.user, picked.largest.user);
    hide LeastClosed, Gapless;
    LeastGapless(levels[0], [picked], picked.smallest.user, picked.largest.user, lo, hi);
    GaplessSame(found + [picked], found);
  }

  /** What PickCompaction starts from: at level 0 all files that have to go along with the one picked. */
  ghost predicate StartsAt(levels: seq<seq<File>>, level: nat, f: File, start: seq<File>)
    requires |levels| == NUM_LEVELS && level < NUM_LEVELS
  {
    if level > 0 then start == [f] else InRangeOf(levels, 0, [f], start)
  }

  ghost predicate Picks(files: seq<File>, trigger: Trigger, f: File) {
    match trigger
    case BySize(pointer) => IsNextInTurn(files, pointer, f)
    case BySeek(file) => f == file
  }

  /** The inputs of an automatic compaction. */
  ghost predicate Triggered(levels: seq<seq<File>>, level: nat, trigger: Trigger, maxFileSize: nat, in0: seq<File>, in1: seq<File>)
    requires |levels| == NUM_LEVELS && level + 1 < NUM_LEVELS
  {
    exists f, start :: Picks(levels[level], trigger, f) && StartsAt(levels, level, f, start) && GrownFrom(levels, level, start, maxFileSize, in0, in1)
  }

  method PickCompaction(levels: seq<seq<File>>, level: nat, trigger: Trigger, maxFileSize: nat)
    returns (in0: seq<File>, in1: seq<File>)
    requires ValidVersion(levels) && level + 1 < NUM_LEVELS && levels[level] != []
    requires trigger.BySeek? ==> trigger.file in levels[level]
    ensures LegalInputs(levels, level, in0, in1) && Gapless(in0 + in1)
    ensures exists f :: f in in0 && Picks(levels[level], trigger, f)
    ensures Triggered(levels, level, trigger, maxFileSize, in0, in1)
  {
    var files := levels[level];
    LevelFacts(levels, level);
    var picked;
    match trigger {
      case BySize(pointer) => picked := NextInTurn(files, pointer);
      case BySeek(file) => picked := file;
    }
    in0 := [picked];
    hide GrownFrom;
    if level == 0 {
      in0 := FirstInputs(levels, picked);
    } else {
      forall g | g in files && g !in in0
        ensures (forall c :: c in in0 ==> Before(g.largest, c.smallest))
             || (forall c :: c in in0 ==> Before(c.largest, g.smallest))
      {
        OneFirst(files, g, picked);
      }
      OneIsGapless(picked);
    }
    ghost var start := in0;
    in0, in1 := SetupOtherInputs(levels, level, in0, maxFileSize);
    assert Picks(files, trigger, picked) && StartsAt(levels, level, picked, start);
  }

  /** At level 0 the files that overlap the one picked come along. */
  method FirstInputs(levels: seq<seq<File>>, picked: File) returns (in0: seq<File>)
    requires ValidVersion(levels) && picked in levels[0]
    ensures ClosedChoice(0, levels[0], in0) && picked in in0 && Gapless(in0) && InRangeOf(levels, 0, [picked], in0)
  {
    var files := levels[0];
    LevelFacts(levels, 0);
    var smallest, largest := GetRange([picked]);
    SmallestKeyIsMinimum([picked]);
    LargestKeyIsMaximum([picked]);
    in0 := GetOverlappingInputs(0, files, Some(smallest.user), Some(largest.user));
    ghost var lo, hi :| SearchRange(0, files, Some(smallest.user), Some(largest.user), lo, hi) && in0 == Overlapping(files, lo, hi);
    assert picked in in0 by { FileRange(picked); }
    OverlappingChoice(levels, 0, lo, hi);
    FirstGapless(levels, picked, lo, hi);
  }

  lemma PrefixChoice(levels: seq<seq<File>>, level: nat, lo: Option<UserKey>, hi: Option<UserKey>, n: nat)
    requires ValidVersion(levels) && 0 < level < NUM_LEVELS && 0 < n <= |Overlapping(levels[level], lo, hi)|
    ensures ClosedChoice(level, levels[level], Overlapping(levels[level], lo, hi)[..n])
  {
    OverlappingChoice(levels, level, lo, hi);
    PrefixContiguous(levels[level], lo, hi, n);
  }

  /** How many files reach the size limit together; all of them when they do not. */
  method CountBySize(files: seq<File>, maxFileSize: nat) returns (count: nat)
    requires files != []
    ensures 0 < count <= |files|
    ensures count < |files| ==> TotalFileSize(files[..count]) >= maxFileSize
    ensures forall m :: 0 < m < count ==> TotalFileSize(files[..m]) < maxFileSize
  {
    var total := 0;
    for i := 0 to |files|
      invariant total == TotalFileSize(files[..i]) && forall m :: 0 < m <= i ==> TotalFileSize(files[..m]) < maxFileSize
    {
      assert files[..i + 1][..i] == files[..i];
      total := total + files[i].size;
      if total >= maxFileSize { return i + 1; }
    }
    count := |files|;
  }

  lemma RangeIsEmpty(level: nat, files: seq<File>, begin: Option<UserKey>, end: Option<UserKey>,
                     lo: Option<UserKey>, hi: Option<UserKey>)
    requires SearchRange(level, files, begin, end, lo, hi)
    ensures Overlapping(files, lo, hi) == [] <==> !exists f :: f in files && Meets(f, begin, end)
  {
    var found := Overlapping(files, lo, hi);
    assert Closed(files, begin, end) && level == 0 ==> lo == begin && hi == end by {
      assert Holds(begin, end, begin, end);
    }
    assert forall f :: f in files && Meets(f, begin, end) ==> f in found;
    assert found != [] ==> found[0] in found;
  }

  /** Cutting a list once the files before a place reach the limit together. */
  ghost predicate CutAtSize(all: seq<File>, maxFileSize: nat, start: seq<File>) {
    && start <= all && (all != [] ==> start != [])
    && (start != all ==> TotalFileSize(start) >= maxFileSize)
    && forall m :: 0 < m < |start| ==> TotalFileSize(start[..m]) < maxFileSize
  }

  /** What CompactRange starts from: at level 0 the files that meet the range, and those that have to go
      along; deeper the files that meet it, up to the size limit. */
  ghost predicate Requested(levels: seq<seq<File>>, level: nat, begin: Option<UserKey>, end: Option<UserKey>, maxFileSize: nat, start: seq<File>)
    requires |levels| == NUM_LEVELS && level < NUM_LEVELS
  {
    if level == 0 then exists lo, hi :: LeastClosed(levels[0], lo, hi, begin, end) && start == Overlapping(levels[0], lo, hi)
    else CutAtSize(Overlapping(levels[level], begin, end), maxFileSize, start)
  }

  /** How much data the files hold that meet the range. */
  function MeetingSize(files: seq<File>, begin: Option<UserKey>, end: Option<UserKey>): nat {
    if files == [] then 0
    else MeetingSize(files[..|files| - 1], begin, end) + if Meets(files[|files| - 1], begin, end) then files[|files| - 1].size else 0
  }

  /** Of the files that meet the range none is left out, except above level 0, behind enough others: those
      before it that meet the range are not none, and reach the size limit together. */
  ghost predicate TakesRange(files: seq<File>, level: nat, begin: Option<UserKey>, end: Option<UserKey>, maxFileSize: nat, in0: seq<File>) {
    forall k :: 0 <= k < |files| && Meets(files[k], begin, end) && files[k] !in in0 ==>
      level > 0 && MeetingSize(files[..k], begin, end) >= maxFileSize && exists j :: 0 <= j < k && Meets(files[j], begin, end) && files[j] in in0
  }

  lemma {:induction false} MeetingSizeIs(files: seq<File>, begin: Option<UserKey>, end: Option<UserKey>)
    ensures MeetingSize(files, begin, end) == TotalFileSize(Overlapping(files, begin, end))
  {
    if files != [] {
      MeetingSizeIs(files[..|files| - 1], begin, end);
      var rest := Overlapping(files[..|files| - 1], begin, end);
      assert (rest + [files[|files| - 1]])[..|rest|] == rest;
    }
  }

  lemma {:induction false} PlaceOf(files: seq<File>, begin: Option<UserKey>, end: Option<UserKey>, k: nat)
    requires k < |files| && Meets(files[k], begin, end)
    ensures Overlapping(files[..k], begin, end) + [files[k]] <= Overlapping(files, begin, end)
  {
    hide Meets;
    var n := |files| - 1;
    if k < n {
      PlaceOf(files[..n], begin, end, k);
      assert files[..n][..k] == files[..k];
    }
  }

  lemma {:induction false} SizeGrows(files: seq<File>, n: nat)
    requires n <= |files|
    ensures TotalFileSize(files[..n]) <= TotalFileSize(files)
  {
    if n < |files| {
      SizeGrows(files[..|files| - 1], n);
      assert files[..|files| - 1][..n] == files[..n];
    } else {
      assert files[..n] == files;
    }
  }

  lemma CutBefore(all: seq<File>, start: seq<File>, before: seq<File>, f: File, in0: seq<File>)
    requires start <= all && before + [f] <= all && f !in in0 && forall g :: g in start ==> g in in0
    ensures |start| <= |before|
  {
    assert all[|before|] == f;
    assert forall i :: 0 <= i < |start| ==> all[i] == start[i] && start[i] in start;
  }

  lemma CutTakesRange(files: seq<File>, level: nat, begin: Option<UserKey>, end: Option<UserKey>, maxFileSize: nat, start: seq<File>, in0: seq<File>)
    requires level > 0 && CutAtSize(Overlapping(files, begin, end), maxFileSize, start) && forall f :: f in start ==> f in in0
    ensures TakesRange(files, level, begin, end, maxFileSize, in0)
  {
    hide Meets;
    var all := Overlapping(files, begin, end);
    forall k | 0 <= k < |files| && Meets(files[k], begin, end) && files[k] !in in0
      ensures MeetingSize(files[..k], begin, end) >= maxFileSize && exists j :: 0 <= j < k && Meets(files[j], begin, end) && files[j] in in0
    {
      PlaceOf(files, begin, end, k);
      MeetingSizeIs(files[..k], begin, end);
      var before := Overlapping(files[..k], begin, end);
      CutBefore(all, start, before, files[k], in0);
      assert start == before[..|start|];
      SizeGrows(before, |start|);
      assert start[0] in before && start[0] in files[..k];
      var j :| 0 <= j < k && files[..k][j] == start[0];
      assert files[j] in in0;
    }
  }

  /** A manual compaction: nothing to do, or the files that meet the range, cut above level 0
      once they are big enough. */
  method CompactRange(levels: seq<seq<File>>, level: nat, begin: Option<UserKey>, end: Option<UserKey>, maxFileSize: nat)
    returns (in0: seq<File>, in1: seq<File>)
    requires ValidVersion(levels) && level + 1 < NUM_LEVELS
    ensures in0 == [] <==> !exists f :: f in levels[level] && Meets(f, begin, end)
    ensures in0 != [] ==> LegalInputs(levels, level, in0, in1)
    ensures TakesRange(levels[level], level, begin, end, maxFileSize, in0)
    ensures in0 != [] ==> exists start :: Requested(levels, level, begin, end, maxFileSize, start) && GrownFrom(levels, level, start, maxFileSize, in0, in1)
  {
    var files := levels[level];
    in0 := GetOverlappingInputs(level, files, begin, end);
    ghost var lo, hi :| SearchRange(level, files, begin, end, lo, hi) && in0 == Overlapping(files, lo, hi);
    in1 := [];
    RangeIsEmpty(level, files, begin, end, lo, hi);
    hide ValidVersion, ClosedChoice, LegalInputs, Meets, Overlapping, GrownFrom;
    if in0 == [] { return; }
    OverlappingChoice(levels, level, lo, hi);
    if level > 0 {
      var count := CountBySize(in0, maxFileSize);
      PrefixChoice(levels, level, lo, hi, count);
      ghost var all := in0;
      in0 := in0[..count];
      PrefixSizes(all, count, maxFileSize);
    }
    ghost var start := in0;
    assert Requested(levels, level, begin, end, maxFileSize, start);
    in0, in1 := SetupOtherInputs(levels, level, in0, maxFileSize);
    if level > 0 {
      CutTakesRange(files, level, begin, end, maxFileSize, start, in0);
    } else {
      FoundTakesRange(files, begin, end, lo, hi, maxFileSize, in0);
    }
  }

  lemma PrefixSizes(all: seq<File>, count: nat, maxFileSize: nat)
    requires 0 < count <= |all| && (count < |all| ==> TotalFileSize(all[..count]) >= maxFileSize)
    requires forall m :: 0 < m < count ==> TotalFileSize(all[..m]) < maxFileSize
    ensures CutAtSize(all, maxFileSize, all[..count])
  {
    assert forall m :: 0 < m < count ==> all[..count][..m] == all[..m];
  }

  lemma FoundTakesRange(files: seq<File>, begin: Option<UserKey>, end: Option<UserKey>, lo: Option<UserKey>, hi: Option<UserKey>,
                        maxFileSize: nat, in0: seq<File>)
    requires LeastClosed(files, lo, hi, begin, end) && forall f :: f in Overlapping(files, lo, hi) ==> f in in0
    ensures TakesRange(files, 0, begin, end, maxFileSize, in0)
  {
    assert Holds(lo, hi, begin, end);
    forall f | f in files && Meets(f, begin, end) ensures f in Overlapping(files, lo, hi) {
    }
  }
}
