/** DBIter (db/db_iter.cc): the user's view of a merging iterator at one sequence number. It stands
    for an index into the list of live entries, in both directions. */
module DbIter {
  import opened Wrappers
  import opened DbFormat
  import opened Versions
  import opened States
  import opened Lookup
  import opened Cursors
  import opened Merger

  predicate Seen(es: seq<Entry>, s: nat, i: nat)
    requires i < |es|
  {
    es[i].key.sn <= s
  }

  /** Entry `i` is the newest entry of its user key at or below `s`, and a value. */
  ghost predicate Live(es: seq<Entry>, s: nat, i: nat)
    requires i < |es|
  {
    && Seen(es, s, i) && es[i].key.typ.TypeValue?
    && forall j :: 0 <= j < i && es[j].key.user == es[i].key.user ==> !Seen(es, s, j)
  }

  /** The live entries among the first `n`, in key order. */
  ghost function LiveIndices(es: seq<Entry>, s: nat, n: nat): (r: seq<nat>)
    requires n <= |es|
  {
    if n == 0 then []
    else LiveIndices(es, s, n - 1) + if Live(es, s, n - 1) then [n - 1] else []
  }

  ghost function LiveList(es: seq<Entry>, s: nat): seq<nat> { LiveIndices(es, s, |es|) }

  lemma {:induction false} LiveIndicesAre(es: seq<Entry>, s: nat, n: nat)
    requires n <= |es|
    ensures forall i {:trigger LiveIndices(es, s, n)[i]} :: 0 <= i < |LiveIndices(es, s, n)| ==>
      LiveIndices(es, s, n)[i] < n && Live(es, s, LiveIndices(es, s, n)[i])
    ensures forall i, j :: 0 <= i < j < |LiveIndices(es, s, n)| ==> LiveIndices(es, s, n)[i] < LiveIndices(es, s, n)[j]
    ensures forall p :: 0 <= p < n && Live(es, s, p) ==> p in LiveIndices(es, s, n)
  {
    if n > 0 { LiveIndicesAre(es, s, n - 1); }
  }

  /** What a scan shows is what point reads at the same sequence number return. */
  lemma LiveIsRead(es: seq<Entry>, s: nat, user: UserKey, value: Value)
    requires Sorted(es) && Unique(Entries(es))
    ensures Read(Entries(es), user, s) == Found(value) <==>
      exists r :: 0 <= r < |LiveList(es, s)| && LiveList(es, s)[r] < |es| &&
        es[LiveList(es, s)[r]].key.user == user && es[LiveList(es, s)[r]].value == value
  {
    var live := LiveList(es, s);
    LiveIndicesAre(es, s, |es|);
    if r :| 0 <= r < |live| && live[r] < |es| && es[live[r]].key.user == user && es[live[r]].value == value {
      LiveVisible(es, s, live[r]);
      ReadVisible(Entries(es), user, s, es[live[r]]);
    }
    if Read(Entries(es), user, s) == Found(value) {
      var e :| Visible(Entries(es), user, s, e) && e.key.typ.TypeValue?;
      ReadVisible(Entries(es), user, s, e);
      var i :| 0 <= i < |es| && es[i] == e;
      VisibleLive(es, s, i);
      var r :| 0 <= r < |live| && live[r] == i;
    }
  }

  lemma LiveVisible(es: seq<Entry>, s: nat, i: nat)
    requires Sorted(es) && i < |es| && Live(es, s, i)
    ensures Visible(Entries(es), es[i].key.user, s, es[i])
  {
    forall x | x in es && x.key.user == es[i].key.user && x.key.sn <= s ensures x.key.sn <= es[i].key.sn {
      var j :| 0 <= j < |es| && es[j] == x;
      SortedAt(es, i, j);
      assert Seen(es, s, j);
    }
  }

  lemma VisibleLive(es: seq<Entry>, s: nat, i: nat)
    requires Sorted(es) && Unique(Entries(es)) && i < |es| && es[i].key.typ.TypeValue?
    requires Visible(Entries(es), es[i].key.user, s, es[i])
    ensures Live(es, s, i)
  {
    forall j | 0 <= j < i && es[j].key.user == es[i].key.user ensures !Seen(es, s, j) {
      SortedAt(es, j, i);
      assert es[j] in Entries(es) && es[i] in Entries(es);
    }
  }

  /** `r` is the least live index from `i` on, if there is one. */
  ghost predicate FirstLive(es: seq<Entry>, s: nat, i: nat, r: Option<nat>) {
    && (r.Some? ==> i <= r.value < |es| && Live(es, s, r.value))
    && (forall j :: i <= j < |es| && (r.Some? ==> j < r.value) ==> !Live(es, s, j))
  }

  /** `r` is the greatest live index below `i`, if there is one. */
  ghost predicate LastLive(es: seq<Entry>, s: nat, i: nat, r: Option<nat>)
    requires i <= |es|
  {
    && (r.Some? ==> r.value < i && Live(es, s, r.value))
    && (forall j :: 0 <= j < i && (r.Some? ==> j > r.value) ==> !Live(es, s, j))
  }

  /** Nothing live lies between position `from` and index `i`. */
  ghost predicate LastLiveFrom(es: seq<Entry>, s: nat, i: nat, from: Option<nat>) {
    && i <= |es| && (from.Some? ==> from.value < i)
    && forall j :: 0 <= j < i && (from.Some? ==> j > from.value) ==> !Live(es, s, j)
  }

  datatype UserOp = UserToFirst | UserToLast | UserSeek(target: UserKey) | UserNext | UserPrev

  /** The number of live entries whose user key comes before `target`. */
  ghost function LiveBefore(es: seq<Entry>, s: nat, target: UserKey): nat {
    |LiveIndices(es, s, Seek(es, LookupKey(target, MAX_SEQUENCE_NUMBER)))|
  }

  /** Moving an index into the list of live entries. */
  ghost function MoveLive(es: seq<Entry>, s: nat, at: Option<nat>, op: UserOp): Option<nat>
    requires op.UserNext? || op.UserPrev? ==> at.Some?
  {
    var n := |LiveList(es, s)|;
    match op
    case UserToFirst => IfInside(0, n)
    case UserToLast => IfInside(n - 1, n)
    case UserSeek(target) => IfInside(LiveBefore(es, s, target), n)
    case UserNext => IfInside(at.value + 1, n)
    case UserPrev => IfInside(at.value - 1, n)
  }

  /** The list index of a live entry. */
  ghost predicate Rank(es: seq<Entry>, s: nat, p: Option<nat>, at: Option<nat>) {
    (p.None? <==> at.None?) && (p.Some? ==> at.value < |LiveList(es, s)| && LiveList(es, s)[at.value] == p.value)
  }

  lemma {:induction false} LiveSplit(es: seq<Entry>, s: nat, i: nat, n: nat)
    requires i <= n <= |es|
    ensures LiveIndices(es, s, i) <= LiveIndices(es, s, n)
    ensures forall r :: |LiveIndices(es, s, i)| <= r < |LiveIndices(es, s, n)| ==> LiveIndices(es, s, n)[r] >= i
    decreases n
  {
    if i < n { LiveSplit(es, s, i, n - 1); }
  }

  lemma PrefixAt<T>(a: seq<T>, b: seq<T>, r: nat)
    requires a <= b
    ensures r < |a| ==> b[r] == a[r]
  {
  }

  lemma BeyondSplit(es: seq<Entry>, s: nat, i: nat)
    requires i <= |es|
    ensures var k, live := |LiveIndices(es, s, i)|, LiveList(es, s);
      k < |live| ==> i <= live[k] < |es| && Live(es, s, live[k])
  {
    LiveIndicesAre(es, s, |es|);
    LiveSplit(es, s, i, |es|);
  }

  lemma FirstLiveRank(es: seq<Entry>, s: nat, i: nat, p: Option<nat>)
    requires i <= |es| && FirstLive(es, s, i, p)
    ensures Rank(es, s, p, IfInside(|LiveIndices(es, s, i)|, |LiveList(es, s)|))
  {
    var live, k := LiveList(es, s), |LiveIndices(es, s, i)|;
    LiveIndicesAre(es, s, |es|);
    LiveIndicesAre(es, s, i);
    LiveSplit(es, s, i, |es|);
    if p.Some? {
      var r :| 0 <= r < |live| && live[r] == p.value;
      PrefixAt(LiveIndices(es, s, i), live, r);
      assert k <= r;
    }
    BeyondSplit(es, s, i);
  }

  lemma LastLiveRank(es: seq<Entry>, s: nat, i: nat, p: Option<nat>)
    requires i <= |es| && LastLive(es, s, i, p)
    ensures Rank(es, s, p, IfInside(|LiveIndices(es, s, i)| - 1, |LiveList(es, s)|))
  {
    var live, before := LiveList(es, s), LiveIndices(es, s, i);
    LiveIndicesAre(es, s, i);
    LiveSplit(es, s, i, |es|);
    if p.Some? {
      var r :| 0 <= r < |before| && before[r] == p.value;
      PrefixAt(before, LiveList(es, s), r);
    }
  }

  /** A live entry at list index `r` has `r` live entries before it. */
  lemma RankCounts(es: seq<Entry>, s: nat, p: nat, r: nat)
    requires Rank(es, s, Some(p), Some(r))
    ensures p < |es| && Live(es, s, p)
    ensures |LiveIndices(es, s, p)| == r && |LiveIndices(es, s, p + 1)| == r + 1
  {
    var live := LiveList(es, s);
    LiveIndicesAre(es, s, |es|);
    assert r < |live| && live[r] == p && p < |es|;
    LiveIndicesAre(es, s, p);
    LiveSplit(es, s, p, |es|);
    var k := |LiveIndices(es, s, p)|;
    PrefixAt(LiveIndices(es, s, p), live, r);
    assert k <= r;
    assert live[k] >= p;
  }

  /** What FindNextUserEntry may rely on: entries from `i` on that are at or below the skipped key
      are to be passed over, and no later key has an entry in view before `i`. */
  ghost predicate Skips(es: seq<Entry>, s: nat, i: nat, skip: Option<UserKey>)
    requires i <= |es|
  {
    && (forall j :: i <= j < |es| && Seen(es, s, j) && skip.Some? ==> es[j].key.user >= skip.value)
    && (forall h, j :: 0 <= h < i <= j < |es| && es[h].key.user == es[j].key.user && Seen(es, s, h) ==>
          skip.Some? && es[j].key.user <= skip.value)
  }

  /** `r` is the least live index from `i` on past the skipped key. */
  ghost predicate FirstPast(es: seq<Entry>, s: nat, i: nat, skip: Option<UserKey>, r: Option<nat>) {
    && (r.Some? ==> i <= r.value < |es| && Live(es, s, r.value) && Past(es, skip, r.value))
    && (forall j :: i <= j < |es| && (r.Some? ==> j < r.value) ==> !(Live(es, s, j) && Past(es, skip, j)))
  }

  predicate Past(es: seq<Entry>, skip: Option<UserKey>, j: nat)
    requires j < |es|
  {
    skip.None? || es[j].key.user > skip.value
  }

  lemma UsersAscend(es: seq<Entry>, i: nat, j: nat)
    requires Sorted(es) && i <= j < |es|
    ensures es[i].key.user <= es[j].key.user
  {
    SortedAt(es, i, j);
  }

  /** State of a forward scan that began at `start` with `skip0` and has reached `i` with `skip`. */
  ghost predicate Scanning(es: seq<Entry>, s: nat, start: nat, skip0: Option<UserKey>, i: nat, skip: Option<UserKey>) {
    && start <= i <= |es|
    && Skips(es, s, i, skip)
    && (forall j :: start <= j < |es| && Seen(es, s, j) && skip0.Some? ==> es[j].key.user >= skip0.value)
    && (forall j :: start <= j < i && Live(es, s, j) ==> !Past(es, skip0, j))
    && (forall j :: i <= j < |es| && Live(es, s, j) ==> (Past(es, skip0, j) <==> Past(es, skip, j)))
  }

  /** A deletion marker in view makes the scan skip the rest of its user key. */
  lemma ScanDeleted(es: seq<Entry>, s: nat, start: nat, skip0: Option<UserKey>, i: nat, skip: Option<UserKey>)
    requires Sorted(es) && i < |es| && Scanning(es, s, start, skip0, i, skip)
    requires Seen(es, s, i) && es[i].key.typ.TypeDeletion?
    ensures Scanning(es, s, start, skip0, i + 1, Some(es[i].key.user))
  {
    forall j | i <= j < |es| ensures es[i].key.user <= es[j].key.user { UsersAscend(es, i, j); }
    forall h | 0 <= h <= i ensures es[h].key.user <= es[i].key.user { UsersAscend(es, h, i); }
  }

  /** An entry that is too new or skipped is passed over. */
  lemma ScanHidden(es: seq<Entry>, s: nat, start: nat, skip0: Option<UserKey>, i: nat, skip: Option<UserKey>)
    requires Sorted(es) && i < |es| && Scanning(es, s, start, skip0, i, skip)
    requires Seen(es, s, i) ==> skip.Some? && es[i].key.user <= skip.value
    ensures Scanning(es, s, start, skip0, i + 1, skip)
  {
    assert Live(es, s, i) ==> !Past(es, skip, i);
  }

  lemma ScanFound(es: seq<Entry>, s: nat, start: nat, skip0: Option<UserKey>, i: nat, skip: Option<UserKey>)
    requires Sorted(es) && i < |es| && Scanning(es, s, start, skip0, i, skip)
    requires Seen(es, s, i) && es[i].key.typ.TypeValue? && Past(es, skip, i)
    ensures FirstPast(es, s, start, skip0, Some(i))
  {
    assert Live(es, s, i);
  }

  lemma ScanEnded(es: seq<Entry>, s: nat, start: nat, skip0: Option<UserKey>, skip: Option<UserKey>)
    requires Scanning(es, s, start, skip0, |es|, skip)
    ensures FirstPast(es, s, start, skip0, None)
  {
  }

  lemma FoundIsLive(es: seq<Entry>, s: nat, start: nat, skip0: Option<UserKey>, i: nat)
    requires FirstPast(es, s, start, skip0, Some(i))
    ensures i < |es| && Live(es, s, i)
  {
  }

  function When(skipping: bool, skip: UserKey): Option<UserKey> {
    if skipping then Some(skip) else None
  }

  class DBIter {
    const iter: MergingIterator
    const sequence: SequenceNumber
    var savedKey: Option<UserKey>
    var savedValue: Value
    var direction: Direction
    var valid: bool
    ghost var place: Option<nat>  // index of the current entry in the internal sequence
    ghost var at: Option<nat>     // index in the list of live entries

    ghost predicate InnerValid()
      reads this, iter, iter.positions
    {
      iter.Valid() && Sorted(iter.merged) && (iter.at.Some? ==> iter.at.value < |iter.merged|)
    }

    /** Moving backwards the internal iterator stands on the last entry in view before the key. */
    ghost predicate JustBefore(p: nat)
      requires p < |iter.merged|
      reads this, iter, iter.positions
    {
      var b := iter.at;
      && (b.Some? ==> b.value < p && iter.merged[b.value].key.user < iter.merged[p].key.user)
      && (forall j :: 0 <= j < p && (b.Some? ==> j > b.value) ==> !Seen(iter.merged, sequence, j))
    }

    ghost predicate Standing()
      reads this, iter, iter.positions
    {
      && InnerValid()
      && (valid <==> place.Some?)
      && (place.Some? ==> place.value < |iter.merged| && Live(iter.merged, sequence, place.value))
      && (place.Some? && direction == Forward ==> iter.at == place)
      && (place.Some? && direction == Reverse ==>
        && JustBefore(place.value)
        && savedKey == Some(iter.merged[place.value].key.user) && savedValue == iter.merged[place.value].value)
    }

    ghost predicate Valid()
      reads this, iter, iter.positions
    {
      Standing() && Rank(iter.merged, sequence, place, at)
    }

    constructor (iter: MergingIterator, sequence: SequenceNumber)
      requires iter.Valid() && Sorted(iter.merged)
      ensures Valid() && at == None && this.iter == iter && this.sequence == sequence
    {
      this.iter, this.sequence := iter, sequence;
      savedKey, savedValue, direction, valid := None, "", Forward, false;
      place, at := None, None;
    }

    /** Key and value shown are those of the live entry the index stands for. */
    method Current() returns (user: UserKey, value: Value)
      requires Valid() && at.Some?
      ensures at.value < |LiveList(iter.merged, sequence)|
      ensures var p := LiveList(iter.merged, sequence)[at.value];
        p < |iter.merged| && user == iter.merged[p].key.user && value == iter.merged[p].value
    {
      if direction == Forward {
        var e := iter.CurrentEntry();
        user, value := e.key.user, e.value;
      } else {
        user, value := savedKey.value, savedValue;
      }
    }

    /** Scan forward to the next entry to show, passing hidden, deleted and too new entries. */
    method FindNextUserEntry(skipping0: bool, skip0: UserKey)
      requires InnerValid() && iter.at.Some? && direction == Forward
      requires Scanning(iter.merged, sequence, iter.at.value, When(skipping0, skip0), iter.at.value, When(skipping0, skip0))
      modifies this, iter, iter.positions
      ensures Standing() && direction == Forward && at == old(at)
      ensures FirstPast(iter.merged, sequence, old(iter.at).value, When(skipping0, skip0), place)
    {
      hide MergingIterator.Valid, Scanning, FirstPast, Sorted, Live, JustBefore;
      ghost var start, skipFirst := iter.at.value, When(skipping0, skip0);
      var skipping, skip := skipping0, skip0;
      while true
        invariant InnerValid() && iter.at.Some? && direction == Forward && at == old(at)
        invariant Scanning(iter.merged, sequence, start, skipFirst, iter.at.value, When(skipping, skip))
        decreases |iter.merged| - iter.at.value
      {
        var e := iter.CurrentEntry();
        ghost var i := iter.at.value;
        if e.key.sn <= sequence && e.key.typ.TypeDeletion? {
          ScanDeleted(iter.merged, sequence, start, skipFirst, i, When(skipping, skip));
          skip := e.key.user;
          skipping := true;
        } else if e.key.sn <= sequence && !(skipping && e.key.user <= skip) {
          ScanFound(iter.merged, sequence, start, skipFirst, i, When(skipping, skip));
          FoundIsLive(iter.merged, sequence, start, skipFirst, i);
          valid := true;
          savedKey := None;
          place := Some(i);
          return;
        } else {
          ScanHidden(iter.merged, sequence, start, skipFirst, i, When(skipping, skip));
        }
        iter.MoveNext();
        if !iter.IsValid() { break; }
      }
      ScanEnded(iter.merged, sequence, start, skipFirst, When(skipping, skip));
      savedKey := None;
      valid := false;
      place := None;
    }

    /** Scan backward: the newest entry in view of the nearest earlier key that is not deleted. */
    method FindPrevUserEntry()
      requires InnerValid() && direction == Reverse
      modifies this, iter, iter.positions
      ensures Standing() && at == old(at)
      ensures LastLive(iter.merged, sequence, if old(iter.at).Some? then old(iter.at).value + 1 else 0, place)
    {
      hide MergingIterator.Valid, Sorted, Live, FirstPast;
      ghost var top := if iter.at.Some? then iter.at.value + 1 else 0;
      var valueType := TypeDeletion;
      ghost var q: nat := 0;
      while iter.IsValid()
        invariant InnerValid() && direction == Reverse && at == old(at)
        invariant Reaching(iter.merged, sequence, top, if iter.at.Some? then iter.at.value + 1 else 0, valueType, q)
        invariant valueType.TypeValue? ==> savedKey == Some(iter.merged[q].key.user) && savedValue == iter.merged[q].value
        decreases if iter.at.Some? then iter.at.value + 1 else 0
      {
        var e := iter.CurrentEntry();
        ghost var i := iter.at.value;
        if e.key.sn <= sequence {
          if valueType.TypeValue? && e.key.user < savedKey.value {
            break;
          }
          ReachSeen(iter.merged, sequence, top, i, valueType, q);
          valueType := e.key.typ;
          if valueType.TypeDeletion? {
            savedKey := None;
            savedValue := "";
          } else {
            savedKey := Some(e.key.user);
            savedValue := e.value;
            q := i;
          }
        } else {
          ReachHidden(iter.merged, sequence, top, i, valueType, q);
        }
        iter.MovePrev();
      }
      if valueType.TypeDeletion? {
        valid := false;
        savedKey := None;
        savedValue := "";
        direction := Forward;
        place := None;
      } else {
        ReachFound(iter.merged, sequence, top, if iter.at.Some? then iter.at.value + 1 else 0, q);
        valid := true;
        place := Some(q);
      }
    }

    ghost function Start(): nat
      reads this, iter
    {
      if iter.at.Some? then iter.at.value else |iter.merged|
    }

    /** The end of a forward seek: show the first entry from here on, if there is any. */
    method ShowFirst()
      requires InnerValid() && direction == Forward && Scanning(iter.merged, sequence, Start(), None, Start(), None)
      modifies this, iter, iter.positions
      ensures Standing() && direction == Forward && at == old(at)
      ensures FirstPast(iter.merged, sequence, old(Start()), None, place)
    {
      hide MergingIterator.Valid, Sorted, Live, Scanning, FirstPast, JustBefore;
      if iter.IsValid() {
        FindNextUserEntry(false, 0.0);
      } else {
        ScanEnded(iter.merged, sequence, |iter.merged|, None, None);
        valid := false;
        place := None;
      }
    }

    method SeekToFirst()
      requires Valid()
      modifies this, iter, iter.positions
      ensures Valid() && at == MoveLive(iter.merged, sequence, old(at), UserToFirst)
    {
      hide MergingIterator.Valid, Sorted, Live;
      direction := Forward;
      savedValue := "";
      iter.SeekToFirst();
      ShowFirst();
      assert FirstLive(iter.merged, sequence, 0, place);
      FirstLiveRank(iter.merged, sequence, 0, place);
      at := IfInside(0, |LiveList(iter.merged, sequence)|);
    }

    method SeekToLast()
      requires Valid()
      modifies this, iter, iter.positions
      ensures Valid() && at == MoveLive(iter.merged, sequence, old(at), UserToLast)
    {
      hide MergingIterator.Valid, Sorted, Live;
      direction := Reverse;
      savedValue := "";
      iter.SeekToLast();
      FindPrevUserEntry();
      LastLiveRank(iter.merged, sequence, |iter.merged|, place);
      at := IfInside(|LiveList(iter.merged, sequence)| - 1, |LiveList(iter.merged, sequence)|);
    }

    method SeekUser(target: UserKey)
      requires Valid()
      modifies this, iter, iter.positions
      ensures Valid() && at == MoveLive(iter.merged, sequence, old(at), UserSeek(target))
    {
      hide MergingIterator.Valid, Sorted, Live, Scanning, FirstPast, FirstLive;
      direction := Forward;
      savedValue := "";
      savedKey := None;
      iter.SeekTarget(LookupKey(target, sequence));
      SeekStart(iter.merged, sequence, target);
      ShowFirst();
      SeekFound(iter.merged, sequence, target, place);
      FirstLiveRank(iter.merged, sequence, Seek(iter.merged, LookupKey(target, MAX_SEQUENCE_NUMBER)), place);
      at := IfInside(LiveBefore(iter.merged, sequence, target), |LiveList(iter.merged, sequence)|);
    }

    /** Next after moving backwards: advance into the entries of the current key. */
    method TurnForward()
      requires Standing() && place.Some? && direction == Reverse
      modifies this, iter, iter.positions
      ensures InnerValid() && direction == Forward && place == old(place) && at == old(at) && savedKey == old(savedKey)
      ensures iter.at.Some? && Scanning(iter.merged, sequence, iter.at.value, savedKey, iter.at.value, savedKey)
      ensures iter.at.value <= place.value
    {
      hide MergingIterator.Valid, Sorted, Live;
      direction := Forward;
      if !iter.IsValid() {
        iter.SeekToFirst();
      } else {
        iter.MoveNext();
      }
      NextStart(iter.merged, sequence, place.value, iter.at.value);
    }

    method MoveNext()
      requires Valid() && at.Some?
      modifies this, iter, iter.positions
      ensures Valid() && at == MoveLive(iter.merged, sequence, old(at), UserNext)
    {
      hide MergingIterator.Valid, Sorted, Live;
      ghost var p := place.value;
      RankCounts(iter.merged, sequence, p, at.value);
      if direction == Reverse {
        TurnForward();
      } else {
        savedKey := Some(iter.CurrentEntry().key.user);
        NextStart(iter.merged, sequence, p, p);
      }
      ghost var start := iter.at.value;
      FindNextUserEntry(true, savedKey.value);
      NextFound(iter.merged, sequence, p, start, place);
      FirstLiveRank(iter.merged, sequence, p + 1, place);
      at := IfInside(at.value + 1, |LiveList(iter.merged, sequence)|);
    }

    /** Prev after moving forwards: back past every entry of the current key. */
    method TurnReverse() returns (ended: bool)
      requires Standing() && place.Some? && direction == Forward
      modifies this, iter, iter.positions
      ensures InnerValid() && at == old(at) && (ended <==> iter.at.None?)
      ensures direction == if ended then Forward else Reverse
      ensures LastLiveFrom(iter.merged, sequence, old(place).value, iter.at)
    {
      hide MergingIterator.Valid, Sorted;
      ghost var p := place.value;
      savedKey := Some(iter.CurrentEntry().key.user);
      while true
        invariant InnerValid() && iter.at.Some? && iter.at.value <= p && at == old(at) && direction == Forward
        invariant savedKey == Some(iter.merged[p].key.user)
        invariant forall j :: iter.at.value <= j < p ==> !Live(iter.merged, sequence, j)
        decreases iter.at.value
      {
        iter.MovePrev();
        if !iter.IsValid() { return true; }
        if iter.CurrentEntry().key.user < savedKey.value { break; }
        UsersAscend(iter.merged, iter.at.value, p);
      }
      direction := Reverse;
      ended := false;
    }

    method MovePrev()
      requires Valid() && at.Some?
      modifies this, iter, iter.positions
      ensures Valid() && at == MoveLive(iter.merged, sequence, old(at), UserPrev)
    {
      hide MergingIterator.Valid, Sorted;
      ghost var p := place.value;
      RankCounts(iter.merged, sequence, p, at.value);
      var ended := false;
      if direction == Forward {
        ended := TurnReverse();
      }
      if ended {
        valid, savedKey, savedValue, place := false, None, "", None;
      } else {
        FindPrevUserEntry();
      }
      assert LastLive(iter.merged, sequence, p, place);
      LastLiveRank(iter.merged, sequence, p, place);
      at := IfInside(at.value - 1, |LiveList(iter.merged, sequence)|);
    }
  }

  /** Seeking to (target, s) starts past every too new entry of the target ... */
  lemma SeekStart(es: seq<Entry>, s: SequenceNumber, target: UserKey)
    requires Sorted(es)
    ensures var i := Seek(es, LookupKey(target, s)); Scanning(es, s, i, None, i, None)
  {
    var i := Seek(es, LookupKey(target, s));
    forall h, j | 0 <= h < i <= j < |es| && es[h].key.user == es[j].key.user ensures !Seen(es, s, h) {
      SeekSplits(es, LookupKey(target, s), h);
      SeekSplits(es, LookupKey(target, s), j);
    }
  }

  /** ... and past no live one. */
  lemma SeekPasses(es: seq<Entry>, s: SequenceNumber, target: UserKey)
    requires Sorted(es)
    ensures var i := Seek(es, LookupKey(target, s)); var first := Seek(es, LookupKey(target, MAX_SEQUENCE_NUMBER));
      first <= i && forall j :: first <= j < i ==> !Live(es, s, j)
  {
    var i, first := Seek(es, LookupKey(target, s)), Seek(es, LookupKey(target, MAX_SEQUENCE_NUMBER));
    if i < |es| { SeekSplits(es, LookupKey(target, MAX_SEQUENCE_NUMBER), i); }
    forall j | first <= j < i ensures !Live(es, s, j) {
      SeekSplits(es, LookupKey(target, s), j);
      SeekSplits(es, LookupKey(target, MAX_SEQUENCE_NUMBER), j);
    }
  }

  /** So the first live entry from there on is the first one of the target or a later key. */
  lemma SeekFound(es: seq<Entry>, s: SequenceNumber, target: UserKey, p: Option<nat>)
    requires Sorted(es) && FirstPast(es, s, Seek(es, LookupKey(target, s)), None, p)
    ensures FirstLive(es, s, Seek(es, LookupKey(target, MAX_SEQUENCE_NUMBER)), p)
  {
    SeekPasses(es, s, target);
  }

  /** Where Next starts scanning: at the current entry, or just past the last entry in view before
      its key when the iterator was moving backwards. */
  lemma NextStart(es: seq<Entry>, s: nat, p: nat, start: nat)
    requires Sorted(es) && p < |es| && Live(es, s, p) && start <= p
    requires start > 0 && start < p ==> es[start - 1].key.user < es[p].key.user
    requires forall j :: start <= j < p ==> !Seen(es, s, j)
    ensures Scanning(es, s, start, Some(es[p].key.user), start, Some(es[p].key.user))
  {
    forall j | start <= j < |es| && Seen(es, s, j) ensures es[j].key.user >= es[p].key.user {
      UsersAscend(es, p, j);
    }
    forall h, j | 0 <= h < start <= j < |es| && es[h].key.user == es[j].key.user && Seen(es, s, h)
      ensures es[j].key.user <= es[p].key.user
    {
      UsersAscend(es, h, p);
    }
  }

  lemma NextFound(es: seq<Entry>, s: nat, p: nat, start: nat, r: Option<nat>)
    requires Sorted(es) && p < |es| && Live(es, s, p) && start <= p
    requires FirstPast(es, s, start, Some(es[p].key.user), r)
    ensures FirstLive(es, s, p + 1, r)
  {
    forall j | p < j < |es| && Live(es, s, j) ensures Past(es, Some(es[p].key.user), j) {
      UsersAscend(es, p, j);
    }
    if r.Some? && r.value <= p { UsersAscend(es, r.value, p); }
  }

  /** State of a backward scan from `top` that has processed everything from `n` on: either nothing
      live was passed, or `q` is the lowest entry in view passed, a value with nothing live above it. */
  ghost predicate Reaching(es: seq<Entry>, s: nat, top: nat, n: nat, valueType: ValueType, q: nat) {
    && n <= top <= |es|
    && (valueType.TypeDeletion? ==> forall j :: n <= j < top ==> !Live(es, s, j))
    && (valueType.TypeValue? ==>
      && n <= q < top && Seen(es, s, q) && es[q].key.typ.TypeValue?
      && (forall j :: n <= j < q ==> !Seen(es, s, j))
      && (forall j :: q < j < top ==> !Live(es, s, j)))
  }

  lemma ReachSeen(es: seq<Entry>, s: nat, top: nat, i: nat, valueType: ValueType, q: nat)
    requires Sorted(es) && Reaching(es, s, top, i + 1, valueType, q) && Seen(es, s, i)
    requires valueType.TypeValue? ==> es[i].key.user >= es[q].key.user
    ensures Reaching(es, s, top, i, es[i].key.typ, i)
  {
    if valueType.TypeValue? {
      UsersAscend(es, i, q);
      assert !Live(es, s, q);
    }
  }

  lemma ReachHidden(es: seq<Entry>, s: nat, top: nat, i: nat, valueType: ValueType, q: nat)
    requires Reaching(es, s, top, i + 1, valueType, q) && !Seen(es, s, i)
    ensures Reaching(es, s, top, i, valueType, q)
  {
  }

  lemma ReachFound(es: seq<Entry>, s: nat, top: nat, n: nat, q: nat)
    requires Sorted(es) && Reaching(es, s, top, n, TypeValue, q)
    requires n > 0 ==> es[n - 1].key.user < es[q].key.user
    ensures Live(es, s, q) && LastLive(es, s, top, Some(q))
  {
    forall j | 0 <= j < q && es[j].key.user == es[q].key.user ensures !Seen(es, s, j) {
      if j < n { UsersAscend(es, j, n - 1); }
    }
  }
}
