/** File lists whose user keys leave no gap: a file that shares no user key with any of them lies
    wholly before or wholly behind them all. */
module Gaps {
  import opened Wrappers
  import opened DbFormat
  import opened Versions
  import opened Boundary

  ghost predicate Covered(files: seq<File>, user: UserKey) {
    exists f :: f in files && f.smallest.user <= user <= f.largest.user
  }

  ghost predicate Gapless(files: seq<File>) {
    forall a, b, user :: a in files && b in files && a.smallest.user <= user <= b.largest.user ==> Covered(files, user)
  }

  /** `f` reaches into the range of the files. */
  ghost predicate Touches(files: seq<File>, f: File) {
    exists a, b :: a in files && b in files && a.smallest.user <= f.largest.user && f.smallest.user <= b.largest.user
  }

  /** Every file spans its own user keys in order. */
  ghost predicate Ranged(files: seq<File>) {
    forall f :: f in files ==> f.smallest.user <= f.largest.user
  }

  lemma TouchesBy(files: seq<File>, f: File, a: File, b: File)
    requires a in files && b in files && a.smallest.user <= f.largest.user && f.smallest.user <= b.largest.user
    ensures Touches(files, f)
  {
  }

  lemma Reach(files: seq<File>, f: File) returns (a: File, b: File)
    requires Touches(files, f)
    ensures a in files && b in files && a.smallest.user <= f.largest.user && f.smallest.user <= b.largest.user
  {
    a, b :| a in files && b in files && a.smallest.user <= f.largest.user && f.smallest.user <= b.largest.user;
  }

  lemma CoveredMore(files: seq<File>, r: seq<File>, user: UserKey)
    requires Covered(files, user) && forall f :: f in files ==> f in r
    ensures Covered(r, user)
  {
    var f :| f in files && f.smallest.user <= user <= f.largest.user;
    assert f in r;
  }

  /** Adding files that reach into the range leaves no gap. */
  lemma GaplessGrows(files: seq<File>, r: seq<File>)
    requires Gapless(files) && Ranged(r)
    requires (forall f :: f in files ==> f in r) && forall f :: f in r ==> Touches(files, f)
    ensures Gapless(r)
  {
    hide Touches, Covered;
    forall a, b, user: UserKey | a in r && b in r && a.smallest.user <= user <= b.largest.user ensures Covered(r, user) {
      ReachCovers(files, r, a, b, user);
    }
  }

  lemma ReachCovers(files: seq<File>, r: seq<File>, a: File, b: File, user: UserKey)
    requires Gapless(files) && Ranged(r) && Touches(files, a) && Touches(files, b)
    requires forall f :: f in files ==> f in r
    requires a in r && b in r && a.smallest.user <= user <= b.largest.user
    ensures Covered(r, user)
  {
    hide Touches;
    if a.largest.user >= user {
    } else if b.smallest.user <= user {
    } else {
      var c, _ := Reach(files, a);
      var _, d := Reach(files, b);
      assert c in files && d in files && c.smallest.user <= user <= d.largest.user;
      assert Covered(files, user);
      CoveredMore(files, r, user);
    }
  }

  lemma OneIsGapless(f: File)
    ensures Gapless([f])
  {
    forall a, b, user | a in [f] && b in [f] && a.smallest.user <= user <= b.largest.user ensures Covered([f], user) {
      assert a == f && b == f;
    }
  }

  lemma AddTouching(before: seq<File>, f: File, others: seq<File>, c: File)
    requires Gapless(before + others) && Ranged(before + [f] + others)
    requires c in before && c.largest.user == f.smallest.user
    ensures Gapless(before + [f] + others)
  {
    hide Touches, Gapless;
    var all, r := before + others, before + [f] + others;
    assert c in all && c in r && f in r;
    forall g | g in r ensures Touches(all, g) {
      if g == f {
        TouchesBy(all, g, c, c);
      } else {
        TouchesBy(all, g, g, g);
      }
    }
    GaplessGrows(all, r);
  }

  /** A boundary file goes on with a user key of the files before it. */
  lemma BoundaryShares(files: seq<File>, n: nat, r: seq<File>, i: nat) returns (c: File)
    requires BoundaryChain(files, n, r) && n <= i < |r|
    ensures c in r[..i] && c.largest.user == r[i].smallest.user
  {
    assert SmallestBoundary(files, LargestKey(r[..i]), r[i]);
    LargestKeyIsMaximum(r[..i]);
    c :| c in r[..i] && c.largest == LargestKey(r[..i]);
  }

  /** So completing files by boundary files leaves no gap. */
  lemma {:induction false} ChainGapless(files: seq<File>, n: nat, r: seq<File>, others: seq<File>, k: nat)
    requires BoundaryChain(files, n, r) && n <= k <= |r| && Ranged(r) && Ranged(others)
    requires Gapless(r[..n] + others)
    ensures Gapless(r[..k] + others)
    decreases k
  {
    hide BoundaryChain, Gapless;
    if k > n {
      ChainGapless(files, n, r, others, k - 1);
      var c := BoundaryShares(files, n, r, k - 1);
      AddTouching(r[..k - 1], r[k - 1], others, c);
      assert r[..k] == r[..k - 1] + [r[k - 1]];
    }
  }

  /** The range of user keys a list of files spans. */
  ghost predicate Spans(files: seq<File>, begin: UserKey, end: UserKey) {
    && (forall f :: f in files ==> begin <= f.smallest.user && f.largest.user <= end)
    && (exists f :: f in files && f.smallest.user == begin)
    && (exists f :: f in files && f.largest.user == end)
  }

  /** The files a search finds from the range of a gapless list, above level 0 ... */
  lemma FoundGapless(files: seq<File>, seed: seq<File>, begin: UserKey, end: UserKey)
    requires Gapless(seed) && Spans(seed, begin, end) && Ranged(files) && Ranged(seed)
    ensures Gapless(Overlapping(files, Some(begin), Some(end)) + seed)
  {
    hide Touches, Gapless;
    var r := Overlapping(files, Some(begin), Some(end)) + seed;
    var a :| a in seed && a.smallest.user == begin;
    var b :| b in seed && b.largest.user == end;
    forall f | f in r ensures Touches(seed, f) {
      TouchesBy(seed, f, a, b);
    }
    GaplessGrows(seed, r);
  }

  /** ... and at level 0, where the search widens its range. */
  lemma LeastGapless(files: seq<File>, seed: seq<File>, begin: UserKey, end: UserKey, lo: Option<UserKey>, hi: Option<UserKey>)
    requires Gapless(seed) && Spans(seed, begin, end) && Ranged(files) && Ranged(seed)
    requires LeastClosed(files, lo, hi, Some(begin), Some(end))
    ensures Gapless(Overlapping(files, lo, hi) + seed)
  {
    var r := Overlapping(files, lo, hi) + seed;
    forall a, b, user | a in r && b in r && a.smallest.user <= user <= b.largest.user ensures Covered(r, user) {
      if begin <= user <= end {
        assert Covered(seed, user);
        var f :| f in seed && f.smallest.user <= user <= f.largest.user;
        assert f in r;
      } else if user > end {
        NoGapAbove(files, seed, begin, end, lo, hi, b, user);
      } else {
        NoGapBelow(files, seed, begin, end, lo, hi, a, user);
      }
    }
  }

  lemma TightAbove(files: seq<File>, begin: UserKey, end: UserKey, lo: Option<UserKey>, hi: Option<UserKey>, user: UserKey)
    requires LeastClosed(files, lo, hi, Some(begin), Some(end)) && end < user && Closed(files, lo, Some(user))
    ensures hi.Some? && hi.value <= user
  {
    assert Holds(lo, Some(user), lo, hi);
  }

  lemma TightBelow(files: seq<File>, begin: UserKey, end: UserKey, lo: Option<UserKey>, hi: Option<UserKey>, user: UserKey)
    requires LeastClosed(files, lo, hi, Some(begin), Some(end)) && user < begin && Closed(files, Some(user), hi)
    ensures lo.Some? && user <= lo.value
  {
    assert Holds(Some(user), hi, lo, hi);
  }

  lemma NoGapAbove(files: seq<File>, seed: seq<File>, begin: UserKey, end: UserKey, lo: Option<UserKey>, hi: Option<UserKey>,
                   b: File, user: UserKey)
    requires Spans(seed, begin, end) && LeastClosed(files, lo, hi, Some(begin), Some(end))
    requires b in Overlapping(files, lo, hi) + seed && end < user <= b.largest.user
    ensures Covered(Overlapping(files, lo, hi) + seed, user)
  {
    var found := Overlapping(files, lo, hi);
    assert b in found && b in found + seed;
    if f :| f in files && Meets(f, lo, Some(user)) && f.largest.user >= user {
      assert f in found + seed;
    } else if b.smallest.user > user {
      forall f | f in files && Meets(f, lo, Some(user)) ensures Holds(lo, Some(user), Some(f.smallest.user), Some(f.largest.user)) {
        assert Meets(f, lo, hi);
      }
      TightAbove(files, begin, end, lo, hi, user);
    }
  }

  lemma NoGapBelow(files: seq<File>, seed: seq<File>, begin: UserKey, end: UserKey, lo: Option<UserKey>, hi: Option<UserKey>,
                   a: File, user: UserKey)
    requires Spans(seed, begin, end) && LeastClosed(files, lo, hi, Some(begin), Some(end))
    requires a in Overlapping(files, lo, hi) + seed && a.smallest.user <= user < begin
    ensures Covered(Overlapping(files, lo, hi) + seed, user)
  {
    var found := Overlapping(files, lo, hi);
    assert a in found && a in found + seed;
    if f :| f in files && Meets(f, Some(user), hi) && f.smallest.user <= user {
      assert f in found + seed;
    } else if a.largest.user < user {
      forall f | f in files && Meets(f, Some(user), hi) ensures Holds(Some(user), hi, Some(f.smallest.user), Some(f.largest.user)) {
        assert Meets(f, lo, hi);
      }
      TightBelow(files, begin, end, lo, hi, user);
    }
  }

  lemma GaplessSame(files: seq<File>, files': seq<File>)
    requires Gapless(files) && forall f :: f in files <==> f in files'
    ensures Gapless(files')
  {
    forall a, b, user: UserKey | a in files' && b in files' && a.smallest.user <= user <= b.largest.user ensures Covered(files', user) {
      assert a in files && b in files;
      assert Covered(files, user);
      CoveredMore(files, files', user);
    }
  }
}
