/** Replaying version edits (VersionSet::Builder in db/version_set.cc): many edits are folded into
    one set of deletions and one ordered set of additions per level. */
module VersionBuilder {
  import opened DbFormat
  import opened Versions

  // Pairs of a level and a file number, and of a level and a new file.
  datatype VersionEdit = VersionEdit(deleted: seq<(nat, nat)>, added: seq<(nat, File)>)

  predicate BySmallestKey(f: File, g: File) {
    var r := Compare(f.smallest, g.smallest);
    if r != 0 then r < 0 else f.number < g.number
  }

  ghost predicate Ordered(files: seq<File>) {
    forall i, j :: 0 <= i < j < |files| ==> BySmallestKey(files[i], files[j])
  }

  /** Insertion into the ordered set of added files; an equivalent element is kept instead. */
  function InsertOrdered(files: seq<File>, f: File): (r: seq<File>)
    requires Ordered(files)
    requires forall g :: g in files ==> g.number != f.number
    ensures Ordered(r)
    ensures forall g :: g in r <==> g in files || g == f
  {
    if files == [] then [f]
    else if BySmallestKey(files[|files| - 1], f) then files + [f]
    else
      var front, last := files[..|files| - 1], files[|files| - 1];
      assert files == front + [last];
      var r := InsertOrdered(front, f);
      assert forall i :: 0 <= i < |r| ==> BySmallestKey(r[i], last) by { InFront(front, f, last, r); }
      r + [last]
  }

  lemma InFront(front: seq<File>, f: File, last: File, r: seq<File>)
    requires Ordered(front + [last]) && f.number != last.number && !BySmallestKey(last, f)
    requires forall g :: g in r <==> g in front || g == f
    ensures forall i :: 0 <= i < |r| ==> BySmallestKey(r[i], last)
  {
    forall i | 0 <= i < |r| ensures BySmallestKey(r[i], last) {
      assert r[i] in front || r[i] == f;
      if r[i] in front {
        var j :| 0 <= j < |front| && front[j] == r[i];
        assert (front + [last])[j] == r[i] && (front + [last])[|front|] == last;
      }
    }
  }

  ghost function Members(files: seq<File>): set<File> { set f | f in files }

  /** One edit applied on its own: the files minus the deleted ones, plus the added ones. */
  ghost function AfterEdit(files: set<File>, edit: VersionEdit, level: nat): set<File> {
    (set f | f in files && (level, f.number) !in edit.deleted) + (set p | p in edit.added && p.0 == level :: p.1)
  }

  ghost function Replay(files: set<File>, edits: seq<VersionEdit>, level: nat): set<File> {
    if edits == [] then files
    else AfterEdit(Replay(files, edits[..|edits| - 1], level), edits[|edits| - 1], level)
  }

  /** File numbers are never reused within a level. */
  ghost predicate Fresh(known: set<nat>, added: seq<(nat, File)>, level: nat) {
    forall j :: 0 <= j < |added| && added[j].0 == level ==>
      && added[j].1.number !in known
      && forall i :: 0 <= i < j && added[i].0 == level ==> added[i].1.number != added[j].1.number
  }

  class Builder {
    const base: seq<seq<File>>
    var deleted: seq<set<nat>>    // per level
    var added: seq<seq<File>>     // per level, ordered by smallest key
    ghost var edits: seq<VersionEdit>

    ghost predicate Valid()
      reads this
    {
      && |base| == |deleted| == |added| == NUM_LEVELS
      && forall l :: 0 <= l < NUM_LEVELS ==>
        && Ordered(base[l]) && Ordered(added[l])
        && (forall f, g :: f in base[l] && g in added[l] ==> f.number != g.number)
        && Survive(base[l], added[l], deleted[l]) == Replay(Members(base[l]), edits, l)
    }

    /** The numbers a level has used up so far. */
    ghost function Known(level: nat): set<nat>
      requires level < |base| && level < |added|
      reads this
    {
      Numbers(base[level]) + Numbers(added[level])
    }

    constructor (base: seq<seq<File>>)
      requires |base| == NUM_LEVELS && forall l :: 0 <= l < NUM_LEVELS ==> Ordered(base[l])
      ensures Valid() && this.base == base && edits == []
      ensures forall l :: 0 <= l < NUM_LEVELS ==> Known(l) == Numbers(base[l])
    {
      this.base := base;
      deleted := seq(NUM_LEVELS, _ => {});
      added := seq(NUM_LEVELS, _ => []);
      edits := [];
    }

    method Apply(edit: VersionEdit)
      requires Valid()
      requires forall p :: p in edit.deleted ==> p.0 < NUM_LEVELS
      requires forall p :: p in edit.added ==> p.0 < NUM_LEVELS
      requires forall l :: 0 <= l < NUM_LEVELS ==> Fresh(Known(l), edit.added, l)
      modifies this
      ensures Valid() && edits == old(edits) + [edit]
      ensures forall l :: 0 <= l < NUM_LEVELS ==>
        Known(l) == old(Known(l)) + (set p | p in edit.added && p.0 == l :: p.1.number)
    {
      ghost var added0 := added;
      forall l | 0 <= l < NUM_LEVELS
        ensures Fresh(Numbers(base[l]) + Numbers(added0[l]), edit.added, l)
        ensures Fresh(Numbers(added0[l]), edit.added, l)
      {
        assert Fresh(Known(l), edit.added, l);
      }
      deleted := WithDeletions(deleted, edit.deleted);
      deleted, added := WithAdditions(deleted, added, edit.added);
      edits := edits + [edit];
      forall l | 0 <= l < NUM_LEVELS
        ensures Survive(base[l], added[l], deleted[l]) == Replay(Members(base[l]), edits, l)
        ensures forall f, g :: f in base[l] && g in added[l] ==> f.number != g.number
        ensures Known(l) == old(Known(l)) + (set p | p in edit.added && p.0 == l :: p.1.number)
      {
        assert edits[..|edits| - 1] == old(edits);
        ApplyLevel(base[l], old(added)[l], old(deleted)[l], edit, added[l], deleted[l], l);
      }
    }

    /** The saved version holds per level exactly what replaying the edits one by one gives, in
        key order. */
    method SaveTo() returns (levels: seq<seq<File>>)
      requires Valid()
      ensures |levels| == NUM_LEVELS
      ensures forall l :: 0 <= l < NUM_LEVELS ==> Ordered(levels[l])
      ensures forall l :: 0 <= l < NUM_LEVELS ==> Members(levels[l]) == Replay(Members(base[l]), edits, l)
    {
      levels := [];
      for level := 0 to NUM_LEVELS
        invariant |levels| == level
        invariant forall l :: 0 <= l < level ==> Ordered(levels[l])
        invariant forall l :: 0 <= l < level ==> Members(levels[l]) == Replay(Members(base[l]), edits, l)
      {
        var files := MergeLevel(base[level], added[level], deleted[level]);
        assert Members(files) == Replay(Members(base[level]), edits, level);
        levels := levels + [files];
      }
    }
  }

  ghost function Numbers(files: seq<File>): set<nat> { set f | f in files :: f.number }

  ghost function Survive(base: seq<File>, added: seq<File>, deleted: set<nat>): set<File> {
    set f | f in base + added && f.number !in deleted
  }

  function MaybeAddFile(files: seq<File>, f: File, deleted: set<nat>): seq<File> {
    if f.number in deleted then files else files + [f]
  }

  method WithDeletions(deleted: seq<set<nat>>, edit: seq<(nat, nat)>) returns (r: seq<set<nat>>)
    requires |deleted| == NUM_LEVELS && forall p :: p in edit ==> p.0 < NUM_LEVELS
    ensures |r| == NUM_LEVELS
    ensures forall l, n :: 0 <= l < NUM_LEVELS ==> (n in r[l] <==> n in deleted[l] || (l, n) in edit)
  {
    r := deleted;
    for i := 0 to |edit|
      invariant |r| == NUM_LEVELS
      invariant forall l, n :: 0 <= l < NUM_LEVELS ==> (n in r[l] <==> n in deleted[l] || (l, n) in edit[..i])
    {
      var (level, number) := edit[i];
      r := r[level := r[level] + {number}];
    }
  }

  method WithAdditions(deleted: seq<set<nat>>, added: seq<seq<File>>, edit: seq<(nat, File)>)
    returns (deleted': seq<set<nat>>, added': seq<seq<File>>)
    requires |deleted| == |added| == NUM_LEVELS && forall p :: p in edit ==> p.0 < NUM_LEVELS
    requires forall l :: 0 <= l < NUM_LEVELS ==> Ordered(added[l]) && Fresh(Numbers(added[l]), edit, l)
    ensures |deleted'| == |added'| == NUM_LEVELS
    ensures forall l :: 0 <= l < NUM_LEVELS ==> Ordered(added'[l])
    ensures forall l, f :: 0 <= l < NUM_LEVELS ==> (f in added'[l] <==> f in added[l] || (l, f) in edit)
    ensures forall l, n :: 0 <= l < NUM_LEVELS ==> (n in deleted'[l] <==> n in deleted[l] && !AddedNumber(edit, l, n))
  {
    deleted', added' := deleted, added;
    for i := 0 to |edit|
      invariant |deleted'| == |added'| == NUM_LEVELS
      invariant forall l :: 0 <= l < NUM_LEVELS ==> Ordered(added'[l])
      invariant forall l, f :: 0 <= l < NUM_LEVELS ==> (f in added'[l] <==> f in added[l] || (l, f) in edit[..i])
      invariant forall l, n :: 0 <= l < NUM_LEVELS ==>
        (n in deleted'[l] <==> n in deleted[l] && !AddedNumber(edit[..i], l, n))
    {
      var (level, f) := edit[i];
      NewNumber(added[level], added'[level], edit, level, i);
      AddedNext(edit, i);
      deleted' := deleted'[level := deleted'[level] - {f.number}];
      added' := added'[level := InsertOrdered(added'[level], f)];
    }
    assert edit[..|edit|] == edit;
  }

  ghost predicate AddedNumber(edit: seq<(nat, File)>, level: nat, number: nat) {
    exists p :: p in edit && p.0 == level && p.1.number == number
  }

  lemma AddedNext(edit: seq<(nat, File)>, i: nat)
    requires i < |edit|
    ensures forall l, n :: AddedNumber(edit[..i + 1], l, n) <==>
      AddedNumber(edit[..i], l, n) || (edit[i].0 == l && edit[i].1.number == n)
  {
    var front, more := edit[..i], edit[..i + 1];
    assert more == front + [edit[i]];
    forall l, n ensures AddedNumber(more, l, n) <==> AddedNumber(front, l, n) || (edit[i].0 == l && edit[i].1.number == n) {
      if AddedNumber(more, l, n) {
        var p :| p in more && p.0 == l && p.1.number == n;
        assert p in front || p == edit[i];
      }
      if AddedNumber(front, l, n) {
        var p :| p in front && p.0 == l && p.1.number == n;
        assert p in more;
      }
      assert edit[i] in more;
    }
  }

  lemma NewNumber(before: seq<File>, now: seq<File>, added: seq<(nat, File)>, level: nat, i: nat)
    requires i < |added| && added[i].0 == level && Fresh(Numbers(before), added, level)
    requires forall g :: g in now <==> g in before || (level, g) in added[..i]
    ensures forall g :: g in now ==> g.number != added[i].1.number
  {
    forall g | g in now ensures g.number != added[i].1.number {
      if g in before {
        assert g.number in Numbers(before);
      } else {
        var j :| 0 <= j < i && added[j] == (level, g);
      }
    }
  }

  /** Deleting first and then adding under fresh numbers gives the edit's own effect. */
  lemma ApplyLevel(base: seq<File>, added: seq<File>, deleted: set<nat>, edit: VersionEdit,
                   added': seq<File>, deleted': set<nat>, level: nat)
    requires Fresh(Numbers(base) + Numbers(added), edit.added, level)
    requires forall f, g :: f in base && g in added ==> f.number != g.number
    requires forall f :: f in added' <==> f in added || (level, f) in edit.added
    requires forall n :: n in deleted' <==>
      && (n in deleted || (level, n) in edit.deleted)
      && !AddedNumber(edit.added, level, n)
    ensures Survive(base, added', deleted') == AfterEdit(Survive(base, added, deleted), edit, level)
    ensures forall f, g :: f in base && g in added' ==> f.number != g.number
    ensures Numbers(base) + Numbers(added') ==
      Numbers(base) + Numbers(added) + set p | p in edit.added && p.0 == level :: p.1.number
  {
    var known := Numbers(base) + Numbers(added);
    forall f | f in base || f in added
      ensures f.number in deleted' <==> f.number in deleted || (level, f.number) in edit.deleted
    {
      assert f.number in known;
    }
    forall f | (level, f) in edit.added ensures f.number !in deleted' && f.number !in known {
      var j :| 0 <= j < |edit.added| && edit.added[j] == (level, f);
    }
    forall f ensures f in Survive(base, added', deleted') <==> f in AfterEdit(Survive(base, added, deleted), edit, level) {
    }
    forall f, g | f in base && g in added' ensures f.number != g.number {
      assert f.number in known;
    }
    var given := set p | p in edit.added && p.0 == level :: p.1.number;
    forall n ensures n in Numbers(added') <==> n in Numbers(added) || n in given {
      if n in Numbers(added') {
        var f :| f in added' && f.number == n;
        assert (level, f) in edit.added ==> n in given;
      }
      if n in given {
        var p :| p in edit.added && p.0 == level && p.1.number == n;
        assert p.1 in added';
      }
    }
  }

  lemma Append(files: seq<File>, f: File)
    requires Ordered(files) && forall g :: g in files ==> BySmallestKey(g, f)
    ensures Ordered(files + [f])
  {
  }

  lemma Transitive(f: File, g: File, h: File)
    requires BySmallestKey(f, g) && BySmallestKey(g, h)
    ensures BySmallestKey(f, h)
  {
  }

  /** Everything merged so far comes before everything still to come. */
  ghost predicate AllBefore(files: seq<File>, rest: seq<File>) {
    forall f, g :: f in files && g in rest ==> BySmallestKey(f, g)
  }

  lemma FirstBefore(rest: seq<File>, f: File)
    requires rest != [] && Ordered(rest) && BySmallestKey(f, rest[0])
    ensures AllBefore([f], rest)
  {
    forall g | g in rest ensures BySmallestKey(f, g) {
      var i :| 0 <= i < |rest| && rest[i] == g;
      if i > 0 { Transitive(f, rest[0], rest[i]); }
    }
  }

  /** The first b base files and the first a added ones are merged. */
  ghost predicate Merging(files: seq<File>, base: seq<File>, b: nat, added: seq<File>, a: nat, deleted: set<nat>) {
    && b <= |base| && a <= |added|
    && Ordered(files) && AllBefore(files, base[b..]) && AllBefore(files, added[a..])
    && forall f :: f in files <==> f in base[..b] + added[..a] && f.number !in deleted
  }

  lemma MergeBase(files: seq<File>, base: seq<File>, b: nat, added: seq<File>, a: nat, deleted: set<nat>)
    requires Ordered(base) && Ordered(added) && Merging(files, base, b, added, a, deleted) && b < |base|
    requires forall f, g :: f in base && g in added ==> f.number != g.number
    requires a < |added| ==> !BySmallestKey(added[a], base[b])
    ensures Merging(MaybeAddFile(files, base[b], deleted), base, b + 1, added, a, deleted)
  {
    if a < |added| {
      assert base[b].number != added[a].number && BySmallestKey(base[b], added[a]);
      FirstBefore(added[a..], base[b]);
    }
    Append(files, base[b]);
    assert base[..b + 1] == base[..b] + [base[b]];
  }

  lemma MergeAdded(files: seq<File>, base: seq<File>, b: nat, added: seq<File>, a: nat, deleted: set<nat>)
    requires Ordered(base) && Ordered(added) && Merging(files, base, b, added, a, deleted) && a < |added|
    requires b < |base| ==> BySmallestKey(added[a], base[b])
    ensures Merging(MaybeAddFile(files, added[a], deleted), base, b, added, a + 1, deleted)
  {
    if b < |base| { FirstBefore(base[b..], added[a]); }
    Append(files, added[a]);
    assert added[..a + 1] == added[..a] + [added[a]];
  }

  /** Merging the base files with the added ones, both ordered, without the deleted. */
  method MergeLevel(base: seq<File>, added: seq<File>, deleted: set<nat>) returns (files: seq<File>)
    requires Ordered(base) && Ordered(added)
    requires forall f, g :: f in base && g in added ==> f.number != g.number
    ensures Ordered(files)
    ensures forall f :: f in files <==> f in base + added && f.number !in deleted
  {
    files := [];
    var b := 0;
    for a := 0 to |added|
      invariant Merging(files, base, b, added, a, deleted)
    {
      var next := added[a];
      while b < |base| && !BySmallestKey(next, base[b])
        invariant Merging(files, base, b, added, a, deleted)
      {
        MergeBase(files, base, b, added, a, deleted);
        files := MaybeAddFile(files, base[b], deleted);
        b := b + 1;
      }
      MergeAdded(files, base, b, added, a, deleted);
      files := MaybeAddFile(files, next, deleted);
    }
    while b < |base|
      invariant Merging(files, base, b, added, |added|, deleted)
    {
      MergeBase(files, base, b, added, |added|, deleted);
      files := MaybeAddFile(files, base[b], deleted);
      b := b + 1;
    }
  }
}
