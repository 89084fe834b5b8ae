/** Point lookup (DBImpl::Get in db/db_impl.cc, MemTable::Get in db/memtable.cc, Version::Get in
    db/version_set.cc): the first source that knows the user key decides. */
module Lookup {
  import opened Wrappers
  import opened DbFormat
  import opened Versions
  import opened States

  /** A positioned cursor over sorted entries: the first entry at or after `key`. */
  function Seek(es: seq<Entry>, key: InternalKey): (i: nat)
    ensures i <= |es|
    ensures forall j :: 0 <= j < i ==> Before(es[j].key, key)
    ensures i < |es| ==> AtOrBefore(key, es[i].key)
  {
    if es == [] then 0
    else if Compare(es[0].key, key) >= 0 then 0
    else 1 + Seek(es[1..], key)
  }

  /** MemTable::Get and a table read: seek to the lookup key, then check the user key. */
  function GetFrom(es: seq<Entry>, user: UserKey, s: SequenceNumber): Option<Entry> {
    var i := Seek(es, LookupKey(user, s));
    if i < |es| && es[i].key.user == user then Some(es[i]) else None
  }

  /** `hit` is what a source answers: its newest visible entry of the user key, or nothing. */
  ghost predicate Answers(source: set<Entry>, user: UserKey, s: nat, hit: Option<Entry>) {
    if hit.Some? then Visible(source, user, s, hit.value)
    else forall e :: e in source && e.key.user == user ==> e.key.sn > s
  }

  lemma GetFromAnswers(es: seq<Entry>, user: UserKey, s: SequenceNumber)
    requires Sorted(es)
    ensures Answers(Entries(es), user, s, GetFrom(es, user, s))
  {
    var key := LookupKey(user, s);
    var i := Seek(es, key);
    forall e | e in es && e.key.user == user && e.key.sn <= s
      ensures GetFrom(es, user, s).Some? && e.key.sn <= GetFrom(es, user, s).value.key.sn
    {
      var j :| 0 <= j < |es| && es[j] == e;
      assert AtOrBefore(key, e.key) && i <= j;
      assert i < j ==> Before(es[i].key, es[j].key);
    }
  }

  /** What the one file found by binary search holds for the user key. */
  function Probe(files: seq<File>, user: UserKey, s: SequenceNumber): Option<Entry> {
    var index := Search(files, LookupKey(user, s), 0, |files|);
    if index >= |files| || user < files[index].smallest.user then None
    else GetFrom(files[index].entries, user, s)
  }

  /** Levels >= 1: as long as the files are disjoint, that file answers for the whole level. */
  method GetFromLevel(files: seq<File>, user: UserKey, s: SequenceNumber) returns (hit: Option<Entry>)
    ensures hit == Probe(files, user, s)
    ensures Disjoint(files) ==> Answers(LevelEntries(files), user, s, hit)
  {
    var key := LookupKey(user, s);
    var index := FindFile(files, key);
    if Disjoint(files) { ProbeAnswers(files, user, s); }
    if index >= |files| {
      return None;
    }
    if user < files[index].smallest.user {
      return None;
    }
    hit := GetFrom(files[index].entries, user, s);
  }

  /** The search stops where the largest keys first reach the target. */
  lemma {:induction false} SearchStops(files: seq<File>, key: InternalKey, left: nat, right: nat, at: nat)
    requires left <= at <= right <= |files|
    requires forall i :: left <= i < at ==> Compare(files[i].largest, key) < 0
    requires forall i :: at <= i < right ==> Compare(files[i].largest, key) >= 0
    ensures Search(files, key, left, right) == at
    decreases right - left
  {
    if left < right {
      var mid := (left + right) / 2;
      if mid < at {
        SearchStops(files, key, mid + 1, right, at);
      } else {
        SearchStops(files, key, left, mid, at);
      }
    }
  }

  lemma ProbeAnswers(files: seq<File>, user: UserKey, s: SequenceNumber)
    requires Disjoint(files)
    ensures Answers(LevelEntries(files), user, s, Probe(files, user, s))
  {
    var key := LookupKey(user, s);
    var at := 0;
    while at < |files| && Before(files[at].largest, key)
      invariant at <= |files| && forall i :: 0 <= i < at ==> Before(files[i].largest, key)
    {
      at := at + 1;
    }
    if at < |files| { LargestAscend(files, at, key); }
    SearchStops(files, key, 0, |files|, at);
    if at < |files| {
      OneFileAnswers(files, at, user, s);
    } else {
      NoFileAnswers(files, user, s);
    }
  }

  lemma NoFileAnswers(files: seq<File>, user: UserKey, s: SequenceNumber)
    requires Disjoint(files)
    requires forall i :: 0 <= i < |files| ==> Before(files[i].largest, LookupKey(user, s))
    ensures Answers(LevelEntries(files), user, s, None)
  {
    forall f, e | f in files && e in f.entries && e.key.user == user ensures e.key.sn > s {
      EntryRange(f, e);
      var i :| 0 <= i < |files| && files[i] == f;
    }
  }

  lemma OneFileAnswers(files: seq<File>, index: nat, user: UserKey, s: SequenceNumber)
    requires Disjoint(files) && index < |files|
    requires forall i :: 0 <= i < index ==> Before(files[i].largest, LookupKey(user, s))
    requires AtOrBefore(LookupKey(user, s), files[index].largest)
    ensures Answers(LevelEntries(files), user, s, GetFrom(files[index].entries, user, s))
    ensures user < files[index].smallest.user ==> GetFrom(files[index].entries, user, s) == None
  {
    var found := files[index];
    var hit := GetFrom(found.entries, user, s);
    assert WellFormed(found);
    GetFromAnswers(found.entries, user, s);
    if hit.Some? {
      assert hit.value in Entries(found.entries);
      EntryRange(found, hit.value);
    }
    forall f, e | f in files && e in f.entries && e.key.user == user && e.key.sn <= s
      ensures hit.Some? && e.key.sn <= hit.value.key.sn
    {
      EntryRange(f, e);
      var i :| 0 <= i < |files| && files[i] == f;
      assert i >= index;
      if i == index {
        assert e in Entries(found.entries);
      } else {
        LaterFile(files, index, i, user, s, e);
      }
    }
  }

  /** If a later file holds visible entries of the key, the found file's last entry is a newer one. */
  lemma LaterFile(files: seq<File>, index: nat, i: nat, user: UserKey, s: SequenceNumber, e: Entry)
    requires Disjoint(files) && index < i < |files|
    requires AtOrBefore(LookupKey(user, s), files[index].largest)
    requires e in files[i].entries && e.key.user == user
    ensures var hit := GetFrom(files[index].entries, user, s); hit.Some? && e.key.sn <= hit.value.key.sn
  {
    var f := files[index];
    EntryRange(files[i], e);
    assert WellFormed(f) && Before(f.largest, files[i].smallest);
    assert f.entries[|f.entries| - 1].key == f.largest;
    var n := Seek(f.entries, LookupKey(user, s));
    assert n < |f.entries|;
    EntryRange(f, f.entries[n]);
  }

  function NewestFirst(files: seq<File>): (r: seq<File>)
    ensures forall f :: f in r <==> f in files
    ensures forall i, j :: 0 <= i < j < |r| ==> r[i].number >= r[j].number
  {
    if files == [] then [] else Place(NewestFirst(files[1..]), files[0])
  }

  function Place(files: seq<File>, f: File): (r: seq<File>)
    requires forall i, j :: 0 <= i < j < |files| ==> files[i].number >= files[j].number
    ensures forall g :: g in r <==> g in files || g == f
    ensures forall i, j :: 0 <= i < j < |r| ==> r[i].number >= r[j].number
  {
    if files == [] || f.number > files[0].number then [f] + files
    else
      var rest := Place(files[1..], f);
      assert forall g :: g in rest ==> g.number <= files[0].number by {
        assert forall j :: 0 < j < |files| ==> files[0].number >= files[j].number;
      }
      [files[0]] + rest
  }

  ghost predicate YoungerFilesNewer(files: seq<File>) {
    && (forall f :: f in files ==> WellFormed(f))
    && (forall f, g :: f in files && g in files && f.number > g.number ==> Newer(Entries(f.entries), Entries(g.entries)))
    && (forall f, g :: f in files && g in files && f.number == g.number ==> f == g)
  }

  /** The files whose range holds the user key. */
  function Holding(files: seq<File>, user: UserKey): (r: seq<File>)
    ensures forall f :: f in r <==> f in files && f.smallest.user <= user <= f.largest.user
  {
    if files == [] then []
    else
      var rest, f := Holding(files[..|files| - 1], user), files[|files| - 1];
      if f.smallest.user <= user <= f.largest.user then rest + [f] else rest
  }

  method HoldingFiles(files: seq<File>, user: UserKey) returns (tmp: seq<File>)
    ensures tmp == Holding(files, user)
  {
    tmp := [];
    for i := 0 to |files|
      invariant tmp == Holding(files[..i], user)
    {
      assert files[..i + 1][..i] == files[..i];
      if user >= files[i].smallest.user && user <= files[i].largest.user {
        tmp := tmp + [files[i]];
      }
    }
    assert files[..|files|] == files;
  }

  /** The first of some files, in the given order, that knows the user key, decides. */
  function FirstOf(tmp: seq<File>, user: UserKey, s: SequenceNumber): Option<Entry> {
    if tmp == [] then None
    else
      var hit := GetFrom(tmp[0].entries, user, s);
      if hit.Some? then hit else FirstOf(tmp[1..], user, s)
  }

  lemma {:induction false} FirstOfIs(tmp: seq<File>, user: UserKey, s: SequenceNumber) returns (i: nat)
    requires forall f :: f in tmp ==> Sorted(f.entries)
    ensures i <= |tmp| && (FirstOf(tmp, user, s).Some? <==> i < |tmp|)
    ensures forall j :: 0 <= j < i ==> Answers(Entries(tmp[j].entries), user, s, None)
    ensures i < |tmp| ==> Answers(Entries(tmp[i].entries), user, s, FirstOf(tmp, user, s))
  {
    i := 0;
    if tmp != [] {
      GetFromAnswers(tmp[0].entries, user, s);
      if GetFrom(tmp[0].entries, user, s).None? {
        i := FirstOfIs(tmp[1..], user, s);
        i := i + 1;
      }
    }
  }

  method FirstAnswer(tmp: seq<File>, user: UserKey, s: SequenceNumber) returns (hit: Option<Entry>)
    ensures hit == FirstOf(tmp, user, s)
  {
    for i := 0 to |tmp|
      invariant FirstOf(tmp, user, s) == FirstOf(tmp[i..], user, s)
    {
      hit := GetFrom(tmp[i].entries, user, s);
      if hit.Some? { return; }
      assert tmp[i..][1..] == tmp[i + 1..];
    }
    hit := None;
  }

  /** What a level answers: at level 0 the youngest file that knows the key. */
  function FromLevel(files: seq<File>, level: nat, user: UserKey, s: SequenceNumber): Option<Entry> {
    if level == 0 then FirstOf(NewestFirst(Holding(files, user)), user, s) else Probe(files, user, s)
  }

  /** Level 0: every file whose range holds the user key is asked, youngest first. */
  method GetFromLevel0(files: seq<File>, user: UserKey, s: SequenceNumber) returns (hit: Option<Entry>)
    ensures hit == FromLevel(files, 0, user, s)
    ensures YoungerFilesNewer(files) ==> Answers(LevelEntries(files), user, s, hit)
  {
    var tmp := HoldingFiles(files, user);
    tmp := NewestFirst(tmp);
    hit := FirstAnswer(tmp, user, s);
    if YoungerFilesNewer(files) { Level0Answers(files, user, s); }
  }

  lemma Level0Answers(files: seq<File>, user: UserKey, s: SequenceNumber)
    requires YoungerFilesNewer(files)
    ensures Answers(LevelEntries(files), user, s, FromLevel(files, 0, user, s))
  {
    var tmp := NewestFirst(Holding(files, user));
    assert forall f :: f in tmp ==> f in files && WellFormed(f);
    var i := FirstOfIs(tmp, user, s);
    var hit := FirstOf(tmp, user, s);
    if hit.Some? {
      FirstHit(files, tmp, i, user, s, hit.value);
    } else {
      NoHit(files, tmp, user, s);
    }
  }

  lemma NoHit(files: seq<File>, tmp: seq<File>, user: UserKey, s: nat)
    requires forall f :: f in files ==> WellFormed(f)
    requires forall f :: f in tmp <==> f in files && f.smallest.user <= user <= f.largest.user
    requires forall j :: 0 <= j < |tmp| ==> Answers(Entries(tmp[j].entries), user, s, None)
    ensures Answers(LevelEntries(files), user, s, None)
  {
    forall f, e | f in files && e in f.entries && e.key.user == user ensures e.key.sn > s {
      EntryRange(f, e);
      var j :| 0 <= j < |tmp| && tmp[j] == f;
      assert Answers(Entries(tmp[j].entries), user, s, None) && e in Entries(tmp[j].entries);
    }
  }

  lemma FirstHit(files: seq<File>, tmp: seq<File>, i: nat, user: UserKey, s: nat, hit: Entry)
    requires YoungerFilesNewer(files)
    requires forall f :: f in tmp <==> f in files && f.smallest.user <= user <= f.largest.user
    requires forall a, b :: 0 <= a < b < |tmp| ==> tmp[a].number >= tmp[b].number
    requires i < |tmp| && Answers(Entries(tmp[i].entries), user, s, Some(hit))
    requires forall j :: 0 <= j < i ==> Answers(Entries(tmp[j].entries), user, s, None)
    ensures Answers(LevelEntries(files), user, s, Some(hit))
  {
    assert tmp[i] in files;
    assert hit in Entries(tmp[i].entries);
    assert hit in LevelEntries(files);
    forall f, e | f in files && e in f.entries && e.key.user == user && e.key.sn <= s
      ensures e.key.sn <= hit.key.sn
    {
      EntryRange(f, e);
      var j :| 0 <= j < |tmp| && tmp[j] == f;
      assert e in Entries(tmp[j].entries);
      if i < j && tmp[i].number != tmp[j].number {
        assert Newer(Entries(tmp[i].entries), Entries(tmp[j].entries));
      }
    }
  }

  /** What the place number `i` of a read answers: memtable, immutable memtable, levels from 0 down. */
  function AnswerAt(st: State, i: nat, user: UserKey, s: SequenceNumber): Option<Entry>
    requires i < NUM_SOURCES && |st.levels| == NUM_LEVELS
  {
    if i == 0 then GetFrom(st.mem, user, s)
    else if i == 1 then (if st.imm.Some? then GetFrom(st.imm.value, user, s) else None)
    else FromLevel(st.levels[i - 2], i - 2, user, s)
  }

  /** The first place from number `i` on that knows the user key decides. */
  function HitFrom(st: State, i: nat, user: UserKey, s: SequenceNumber): Option<Entry>
    requires i <= NUM_SOURCES && |st.levels| == NUM_LEVELS
    decreases NUM_SOURCES - i
  {
    if i == NUM_SOURCES then None
    else
      var hit := AnswerAt(st, i, user, s);
      if hit.Some? then hit else HitFrom(st, i + 1, user, s)
  }

  /** The entry a search of the whole store ends at. */
  function Hit(st: State, user: UserKey, s: SequenceNumber): Option<Entry>
    requires |st.levels| == NUM_LEVELS
  {
    HitFrom(st, 0, user, s)
  }

  /** NotFound covers both a deletion marker and an unknown key. */
  function Outcome(hit: Option<Entry>): GetResult {
    if hit.Some? then ResultOf(hit.value) else NotFound
  }

  ghost predicate Absent(st: State, n: nat, user: UserKey, s: nat)
    requires |st.levels| == NUM_LEVELS && n <= NUM_SOURCES
  {
    forall i :: 0 <= i < n ==> Answers(Source(st, i), user, s, None)
  }

  /** The first source with an answer decides the read. */
  lemma FirstSourceDecides(st: State, i: nat, user: UserKey, s: nat, hit: Entry)
    requires |st.levels| == NUM_LEVELS && SourceOrder(st) && i < NUM_SOURCES && Absent(st, i, user, s)
    requires Answers(Source(st, i), user, s, Some(hit))
    ensures Answers(All(st), user, s, Some(hit))
  {
    forall j, x | 0 <= j < NUM_SOURCES && x in Source(st, j) && x.key.user == user && x.key.sn <= s
      ensures x.key.sn <= hit.key.sn
    {
      OlderThanHit(st, i, j, user, s, hit, x);
    }
    assert hit in All(st);
  }

  lemma OlderThanHit(st: State, i: nat, j: nat, user: UserKey, s: nat, hit: Entry, x: Entry)
    requires |st.levels| == NUM_LEVELS && i < NUM_SOURCES && j < NUM_SOURCES && Absent(st, i, user, s)
    requires i < j ==> Newer(Source(st, i), Source(st, j))
    requires Visible(Source(st, i), user, s, hit)
    requires x in Source(st, j) && x.key.user == user && x.key.sn <= s
    ensures x.key.sn <= hit.key.sn
  {
    assert j >= i by {
      assert j < i ==> Answers(Source(st, j), user, s, None);
    }
  }

  lemma AbsentEverywhere(st: State, user: UserKey, s: nat)
    requires |st.levels| == NUM_LEVELS && Absent(st, NUM_SOURCES, user, s)
    ensures Answers(All(st), user, s, None)
  {
    forall e | e in All(st) && e.key.user == user ensures e.key.sn > s {
      var i :| 0 <= i < NUM_SOURCES && e in Source(st, i);
      assert Answers(Source(st, i), user, s, None);
    }
  }

  /** Right answers of the single places make a right answer of the store. */
  lemma {:induction false} HitAnswers(st: State, i: nat, user: UserKey, s: SequenceNumber)
    requires |st.levels| == NUM_LEVELS && SourceOrder(st) && i <= NUM_SOURCES && Absent(st, i, user, s)
    requires forall j :: i <= j < NUM_SOURCES ==> Answers(Source(st, j), user, s, AnswerAt(st, j, user, s))
    ensures Answers(All(st), user, s, HitFrom(st, i, user, s))
    decreases NUM_SOURCES - i
  {
    hide Answers, SourceOrder, AnswerAt;
    if i == NUM_SOURCES {
      AbsentEverywhere(st, user, s);
    } else {
      var hit := AnswerAt(st, i, user, s);
      assert Answers(Source(st, i), user, s, hit);
      if hit.Some? {
        FirstSourceDecides(st, i, user, s, hit.value);
      } else {
        HitAnswers(st, i + 1, user, s);
      }
    }
  }

  lemma AnswerIsRead(all: set<Entry>, user: UserKey, s: nat, hit: Option<Entry>)
    requires Unique(all) && Answers(all, user, s, hit)
    ensures Read(all, user, s) == Outcome(hit)
  {
    if hit.Some? {
      ReadVisible(all, user, s, hit.value);
    }
  }

  lemma Level0Facts(st: State)
    requires Inv(st)
    ensures YoungerFilesNewer(st.levels[0])
  {
    forall f, g | f in st.levels[0] && g in st.levels[0] && f.number == g.number ensures f == g {
      NumberNames(st, 0, f, 0, g);
    }
  }

  /** Below level 0 it is enough that the level is disjoint. */
  lemma PlaceAnswers(st: State, i: nat, user: UserKey, s: SequenceNumber)
    requires |st.levels| == NUM_LEVELS && i < NUM_SOURCES && Sorted(st.mem) && (st.imm.Some? ==> Sorted(st.imm.value))
    requires YoungerFilesNewer(st.levels[0]) && (i > 2 ==> Disjoint(st.levels[i - 2]))
    ensures Answers(Source(st, i), user, s, AnswerAt(st, i, user, s))
  {
    if i == 0 {
      GetFromAnswers(st.mem, user, s);
    } else if i == 1 {
      if st.imm.Some? { GetFromAnswers(st.imm.value, user, s); }
    } else if i == 2 {
      Level0Answers(st.levels[0], user, s);
    } else {
      ProbeAnswers(st.levels[i - 2], user, s);
    }
  }

  /** Under the invariant a search of the whole store ends at the newest entry at or below the
      sequence number, over everything stored. */
  lemma HitIsNewest(st: State, user: UserKey, s: SequenceNumber)
    requires Inv(st)
    ensures Answers(All(st), user, s, Hit(st, user, s)) && Read(All(st), user, s) == Outcome(Hit(st, user, s))
  {
    hide Answers, SourceOrder, Level0Order, NumbersDistinct, Bounded;
    Level0Facts(st);
    forall i | 0 <= i < NUM_SOURCES ensures Answers(Source(st, i), user, s, AnswerAt(st, i, user, s)) {
      PlaceAnswers(st, i, user, s);
    }
    HitAnswers(st, 0, user, s);
    AllUnique(st);
    AnswerIsRead(All(st), user, s, Hit(st, user, s));
  }

  /** Version::Get. */
  method VersionGet(st: State, user: UserKey, s: SequenceNumber) returns (r: GetResult)
    requires |st.levels| == NUM_LEVELS
    ensures r == Outcome(HitFrom(st, 2, user, s))
  {
    for level := 0 to NUM_LEVELS
      invariant HitFrom(st, 2, user, s) == HitFrom(st, level + 2, user, s)
    {
      var hit;
      if level == 0 {
        hit := GetFromLevel0(st.levels[0], user, s);
      } else {
        hit := GetFromLevel(st.levels[level], user, s);
      }
      if hit.Some? {
        return ResultOf(hit.value);
      }
    }
    return NotFound;
  }

  /** DBImpl::Get: under the invariant the newest entry at or below the sequence number, over all
      sources; in any state what the search ends at. */
  method Get(st: State, user: UserKey, s: SequenceNumber) returns (r: GetResult)
    requires |st.levels| == NUM_LEVELS
    ensures Inv(st) ==> r == Read(All(st), user, s)
    ensures r == Outcome(Hit(st, user, s))
  {
    if Inv(st) { HitIsNewest(st, user, s); }
    var hit := GetFrom(st.mem, user, s);
    if hit.Some? {
      return ResultOf(hit.value);
    }
    if st.imm.Some? {
      hit := GetFrom(st.imm.value, user, s);
      if hit.Some? {
        return ResultOf(hit.value);
      }
    }
    r := VersionGet(st, user, s);
  }
}
