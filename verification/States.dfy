/** The state of the store and what a read at a sequence number means: the newest entry of the
    user key at or below it, over everything stored. */
module States {
  import opened Wrappers
  import opened DbFormat
  import opened Versions
  import opened VersionBuilder

  datatype State = State(
    mem: seq<Entry>,          // memtable, in key order
    imm: Option<seq<Entry>>,  // memtable being flushed
    levels: seq<seq<File>>,   // current version
    lastSequence: nat,
    snapshots: seq<nat>,      // live snapshots, oldest first
    nextFile: nat)

  datatype GetResult = Found(value: Value) | NotFound

  ghost function Entries(es: seq<Entry>): set<Entry> { set e | e in es }

  ghost function LevelEntries(files: seq<File>): set<Entry> {
    set f, e | f in files && e in f.entries :: e
  }

  const NUM_SOURCES: nat := NUM_LEVELS + 2

  /** Where a read looks, in order: memtable, immutable memtable, levels from 0 down. */
  ghost function Source(st: State, i: nat): set<Entry>
    requires i < NUM_SOURCES && |st.levels| == NUM_LEVELS
  {
    if i == 0 then Entries(st.mem)
    else if i == 1 then (if st.imm.Some? then Entries(st.imm.value) else {})
    else LevelEntries(st.levels[i - 2])
  }

  ghost function All(st: State): set<Entry>
    requires |st.levels| == NUM_LEVELS
  {
    set i, e | 0 <= i < NUM_SOURCES && e in Source(st, i) :: e
  }

  /** For every user key all entries of `a` are newer than all entries of `b`. */
  ghost predicate Newer(a: set<Entry>, b: set<Entry>) {
    forall x, y :: x in a && y in b && x.key.user == y.key.user ==> x.key.sn > y.key.sn
  }

  ghost predicate Unique(es: set<Entry>) {
    forall x, y :: x in es && y in es && x.key.user == y.key.user && x.key.sn == y.key.sn ==> x == y
  }

  /** Shallower sources hold strictly newer entries of every user key. */
  ghost predicate SourceOrder(st: State)
    requires |st.levels| == NUM_LEVELS
  {
    && (forall i, j :: 0 <= i < j < NUM_SOURCES ==> Newer(Source(st, i), Source(st, j)))
    && (forall i :: 0 <= i < NUM_SOURCES ==> Unique(Source(st, i)))
  }

  /** So do younger level-0 files. */
  ghost predicate Level0Order(st: State)
    requires |st.levels| == NUM_LEVELS
  {
    forall f, g :: f in st.levels[0] && g in st.levels[0] && f.number > g.number ==>
      Newer(Entries(f.entries), Entries(g.entries))
  }

  predicate SameNumber(f: File, g: File) { f.number == g.number }

  /** A file number names one file at one level. */
  ghost predicate NumbersDistinct(st: State)
    requires |st.levels| == NUM_LEVELS
  {
    && (forall l, f :: 0 <= l < NUM_LEVELS && f in st.levels[l] ==> f.number < st.nextFile)
    && (forall l, f, m, g {:trigger SameNumber(f, g), f in st.levels[l], g in st.levels[m]} ::
          (0 <= l < NUM_LEVELS && 0 <= m < NUM_LEVELS && f in st.levels[l] && g in st.levels[m] && SameNumber(f, g))
          ==> l == m && f == g)
  }

  lemma NumberNames(st: State, l: nat, f: File, m: nat, g: File)
    requires |st.levels| == NUM_LEVELS && NumbersDistinct(st) && l < NUM_LEVELS && m < NUM_LEVELS
    requires f in st.levels[l] && g in st.levels[m]
    ensures f.number == g.number ==> l == m && f == g
  {
    assert SameNumber(f, g) <==> f.number == g.number;
  }

  ghost predicate Bounded(st: State)
    requires |st.levels| == NUM_LEVELS
  {
    && st.lastSequence < MAX_SEQUENCE_NUMBER
    && (forall i, e :: 0 <= i < NUM_SOURCES && e in Source(st, i) ==> e.key.sn <= st.lastSequence)
    && (forall i :: 0 <= i < |st.snapshots| ==> st.snapshots[i] <= st.lastSequence)
    && (forall i, j :: 0 <= i < j < |st.snapshots| ==> st.snapshots[i] <= st.snapshots[j])
  }

  ghost predicate Shape(st: State) {
    && ValidLevels(st.levels)
    && (forall l :: 0 <= l < NUM_LEVELS ==> Ordered(st.levels[l]))
    && Sorted(st.mem)
    && (st.imm.Some? ==> Sorted(st.imm.value))
  }

  ghost predicate Inv(st: State) {
    Shape(st) && SourceOrder(st) && Level0Order(st) && NumbersDistinct(st) && Bounded(st)
  }

  const INITIAL: State := State([], None, [[], [], [], [], [], [], []], 0, [], 2)

  lemma InitialInv()
    ensures Inv(INITIAL)
  {
    EmptyInv(2);
  }

  /** Nothing stored, whatever file number comes next. */
  lemma EmptyInv(nextFile: nat)
    ensures Inv(INITIAL.(nextFile := nextFile))
  {
    var st := INITIAL.(nextFile := nextFile);
    assert forall l :: 0 <= l < NUM_LEVELS ==> st.levels[l] == [];
    assert forall i :: 0 <= i < NUM_SOURCES ==> Source(st, i) == {};
  }

  /** `e` is the newest entry of the user key at or below sequence number `s`. */
  ghost predicate Visible(all: set<Entry>, user: UserKey, s: nat, e: Entry) {
    && e in all && e.key.user == user && e.key.sn <= s
    && forall x :: x in all && x.key.user == user && x.key.sn <= s ==> x.key.sn <= e.key.sn
  }

  ghost function Read(all: set<Entry>, user: UserKey, s: nat): GetResult {
    if exists e :: Visible(all, user, s, e) && e.key.typ.TypeValue?
    then var e :| Visible(all, user, s, e) && e.key.typ.TypeValue?; Found(e.value)
    else NotFound
  }

  function ResultOf(e: Entry): GetResult {
    if e.key.typ.TypeValue? then Found(e.value) else NotFound
  }

  lemma ReadVisible(all: set<Entry>, user: UserKey, s: nat, e: Entry)
    requires Unique(all) && Visible(all, user, s, e)
    ensures Read(all, user, s) == ResultOf(e)
  {
    forall x | Visible(all, user, s, x) ensures x == e {
      assert x.key.sn <= e.key.sn <= x.key.sn;
    }
  }

  /** A nonempty set of candidates has a newest one. */
  lemma {:induction false} NewestExists(all: set<Entry>, user: UserKey, s: nat)
    requires exists e :: e in all && e.key.user == user && e.key.sn <= s
    ensures exists e :: Visible(all, user, s, e)
    decreases |all|
  {
    var e :| e in all && e.key.user == user && e.key.sn <= s;
    if !Visible(all, user, s, e) {
      var better := set x | x in all && x.key.user == user && e.key.sn < x.key.sn <= s;
      var x :| x in all && x.key.user == user && x.key.sn <= s && x.key.sn > e.key.sn;
      assert x in better && e !in better && better < all by { assert e in all; }
      SubsetSmaller(better, all);
      NewestExists(better, user, s);
      var y :| Visible(better, user, s, y);
      assert Visible(all, user, s, y);
    }
  }

  lemma SubsetSmaller<T>(a: set<T>, b: set<T>)
    requires a < b
    ensures |a| < |b|
  {
    var x :| x in b && x !in a;
    assert a <= b - {x};
    SubsetSize(a, b - {x});
  }

  lemma {:induction false} SubsetSize<T>(a: set<T>, b: set<T>)
    requires a <= b
    ensures |a| <= |b|
  {
    if a != {} {
      var x :| x in a;
      SubsetSize(a - {x}, b - {x});
    }
  }

  lemma AllUnique(st: State)
    requires |st.levels| == NUM_LEVELS && SourceOrder(st)
    ensures Unique(All(st))
  {
    forall x, y | x in All(st) && y in All(st) && x.key.user == y.key.user && x.key.sn == y.key.sn ensures x == y {
      var i :| 0 <= i < NUM_SOURCES && x in Source(st, i);
      var j :| 0 <= j < NUM_SOURCES && y in Source(st, j);
      assert i == j;
    }
  }
}
