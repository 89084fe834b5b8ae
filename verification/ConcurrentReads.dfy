/** Readers of the skip list run beside the one writer (db/skiplist.h): between any two loads of a search
    the writer may store links. Weak memory orders are not modelled; the order of the stores is. */
module ConcurrentReads {
  import opened Wrappers
  import opened DbFormat
  import opened Lookup
  import opened SkipLists

  // The nodes and their links; `lists` spells out what the links of each level run through.
  datatype Memory = Memory(entry: map<Node, Entry>, next: Links, lists: seq<seq<Node>>)

  datatype Reader = Reading(node: Node, level: nat) | Done(result: Link)

  ghost predicate InOrder(m: Memory) {
    Levels(m.entry, m.next, m.lists)
  }

  /** What a store may do: nodes stay what they are, and stay linked. */
  ghost predicate Grows(m: Memory, m': Memory) {
    && InOrder(m) && InOrder(m')
    && (forall r :: r in m.entry ==> r in m'.entry && m'.entry[r] == m.entry[r])
    && (forall l :: 0 <= l < MAX_HEIGHT ==> Within(m.lists[l], m'.lists[l]))
  }

  /** Creating the node of an insertion, and each of its stores, level by level, is such a step. */
  lemma InsertStoresGrow(m: Memory, was: seq<seq<Node>>, x: Node, i: nat)
    requires Linked(m.entry, m.next, was, m.lists, x, i) && i < MAX_HEIGHT
    ensures Holds(m.entry, was[i]) && Rank(m.entry, was[i], m.entry[x].key) <= |was[i]| && |m.next| == |m.lists| == MAX_HEIGHT
    ensures var p := NodeAt(was[i], Rank(m.entry, was[i], m.entry[x].key));
      && p in m.next[i]
      && var prepared := m.(next := SetNext(m.next, i, x, m.next[i][p]));
      && var published := prepared.(next := SetNext(prepared.next, i, p, Some(x)), lists := m.lists[i := InsertedAt(was[i], Rank(m.entry, was[i], m.entry[x].key), x)]);
      && Grows(m, prepared) && Grows(prepared, published) && Linked(m.entry, published.next, was, published.lists, x, i + 1)
  {
    hide Level, New, Ordered, Rank;
    LinkStep(m.entry, m.next, was, m.lists, x, i);
    assert InOrder(m);
    var n := Rank(m.entry, was[i], m.entry[x].key);
    var lists' := m.lists[i := InsertedAt(was[i], n, x)];
    forall l | 0 <= l < MAX_HEIGHT ensures Within(m.lists[l], lists'[l]) && Within(m.lists[l], m.lists[l]) {
      if l == i {
        if i > 0 {
          OrderedHolds(m.entry, was[i - 1]);
          var below := Rank(m.entry, was[i - 1], m.entry[x].key);
          assert m.lists[i - 1] == InsertedAt(was[i - 1], below, x);
          assert m.lists[i - 1][below] == x;
        }
        InsertedWithin(m.lists, i, x, n);
      }
    }
  }

  lemma NewNodeGrows(m: Memory, x: Node, e: Entry)
    requires InOrder(m) && x !in m.entry
    ensures Grows(m, m.(entry := m.entry[x := e]))
  {
    NewNodeKeeps(m.entry, m.next, m.lists, x, e);
  }

  /** A reader stands at the head, or at a node of its level that its key comes after. */
  ghost predicate Sound(m: Memory, key: InternalKey, r: Reader) {
    r.Reading? ==> r.level < MAX_HEIGHT && r.level < |m.lists| && At(m.entry, m.lists[r.level], key, r.node)
  }

  /** One round of the search loop: one load, then a move along the level, down, or out. */
  function ReaderStep(m: Memory, key: InternalKey, r: Reader): Reader {
    match r
    case Done(_) => r
    case Reading(x, level) =>
      if level >= |m.next| || x !in m.next[level] then r else
      var n := m.next[level][x];
      if n.Some? && n.value in m.entry && Before(m.entry[n.value].key, key) then Reading(n.value, level)
      else if level == 0 then Done(n)
      else Reading(x, level - 1)
  }

  /** The first node at or after the key, in this memory. */
  ghost predicate AnswersIn(m: Memory, key: InternalKey, result: Link) {
    |m.lists| == MAX_HEIGHT && Holds(m.entry, m.lists[0]) && result == LinkAt(m.lists[0], Rank(m.entry, m.lists[0], key))
  }

  lemma StepSound(m: Memory, key: InternalKey, r: Reader)
    requires InOrder(m) && Sound(m, key, r) && r.Reading?
    ensures Sound(m, key, ReaderStep(m, key, r))
    ensures ReaderStep(m, key, r).Done? ==> AnswersIn(m, key, ReaderStep(m, key, r).result)
  {
    hide Rank, Before;
    var s := m.lists[r.level];
    assert Level(m.entry, m.next[r.level], s);
    var j := AtHasRank(m.entry, s, key, r.node);
    Loaded(m.entry, m.next[r.level], s, key, j);
    if r.level > 0 {
      AtBelow(m.entry, s, m.lists[r.level - 1], key, r.node);
    }
  }

  lemma GrowsSound(m: Memory, m': Memory, key: InternalKey, r: Reader)
    requires Grows(m, m') && Sound(m, key, r)
    ensures Sound(m', key, r)
  {
    if r.Reading? { assert Within(m.lists[r.level], m'.lists[r.level]); }
  }

  // -------------------------------------------------------------------- runs

  /** Step i is a round of the reader or a store of the writer. */
  ghost predicate OneStep(ms: seq<Memory>, rs: seq<Reader>, key: InternalKey, i: nat)
    requires |ms| == |rs| && i + 1 < |ms|
  {
    || (ms[i + 1] == ms[i] && rs[i + 1] == ReaderStep(ms[i], key, rs[i]))
    || (rs[i + 1] == rs[i] && Grows(ms[i], ms[i + 1]))
  }

  ghost predicate Interleaved(ms: seq<Memory>, rs: seq<Reader>, key: InternalKey) {
    && |ms| == |rs| > 0 && InOrder(ms[0]) && rs[0].Reading? && rs[0].node == HEAD && rs[0].level < MAX_HEIGHT
    && forall i :: 0 <= i && i + 1 < |ms| ==> OneStep(ms, rs, key, i)
  }

  lemma {:induction false} RunSound(ms: seq<Memory>, rs: seq<Reader>, key: InternalKey, n: nat)
    requires Interleaved(ms, rs, key) && n < |ms|
    ensures InOrder(ms[n]) && Sound(ms[n], key, rs[n]) && Grows(ms[0], ms[n])
  {
    hide Levels, Within;
    if n == 0 {
      LevelLists(ms[0].entry, ms[0].next, ms[0].lists);
      forall l | 0 <= l < MAX_HEIGHT ensures Within(ms[0].lists[l], ms[0].lists[l]) { WithinItself(ms[0].lists[l]); }
    } else {
      RunSound(ms, rs, key, n - 1);
      assert OneStep(ms, rs, key, n - 1);
      if ms[n] == ms[n - 1] && rs[n] == ReaderStep(ms[n - 1], key, rs[n - 1]) {
        if rs[n - 1].Reading? { StepSound(ms[n - 1], key, rs[n - 1]); }
      } else {
        LevelLists(ms[0].entry, ms[0].next, ms[0].lists);
        LevelLists(ms[n - 1].entry, ms[n - 1].next, ms[n - 1].lists);
        LevelLists(ms[n].entry, ms[n].next, ms[n].lists);
        GrowsSound(ms[n - 1], ms[n], key, rs[n - 1]);
        forall l | 0 <= l < MAX_HEIGHT ensures Within(ms[0].lists[l], ms[n].lists[l]) {
          WithinTrans(ms[0].lists[l], ms[n - 1].lists[l], ms[n].lists[l]);
        }
      }
    }
  }

  /** A search beside the writer answers as if it had run at one moment between its start and its end. */
  lemma {:induction false} ReadsAreAtomic(ms: seq<Memory>, rs: seq<Reader>, key: InternalKey, n: nat) returns (at: nat)
    requires Interleaved(ms, rs, key) && n < |ms| && rs[n].Done?
    ensures at < n && AnswersIn(ms[at], key, rs[n].result)
  {
    RunSound(ms, rs, key, n - 1);
    assert OneStep(ms, rs, key, n - 1);
    if rs[n - 1].Done? {
      at := ReadsAreAtomic(ms, rs, key, n - 1);
      assert rs[n] == rs[n - 1];
    } else {
      at := n - 1;
      StepSound(ms[n - 1], key, rs[n - 1]);
    }
  }

  /** So no entry that was there at the start is missed: the answer is at or before it. */
  lemma NothingMissed(ms: seq<Memory>, rs: seq<Reader>, key: InternalKey, n: nat, y: Node)
    requires Interleaved(ms, rs, key) && n < |ms| && rs[n].Done?
    requires |ms[0].lists| == MAX_HEIGHT && y in ms[0].lists[0] && y in ms[0].entry && !Before(ms[0].entry[y].key, key)
    ensures rs[n].result.Some? && rs[n].result.value in ms[n].entry
    ensures !Before(ms[n].entry[rs[n].result.value].key, key) && AtOrBefore(ms[n].entry[rs[n].result.value].key, ms[0].entry[y].key)
  {
    var at := ReadsAreAtomic(ms, rs, key, n);
    RunSound(ms, rs, key, at);
    var m := ms[at];
    assert Within(ms[0].lists[0], m.lists[0]);
    assert Level(m.entry, m.next[0], m.lists[0]);
    var s := m.lists[0];
    var i :| 0 <= i < |s| && s[i] == y;
    RankSplits(m.entry, s, key, i);
    var k := Rank(m.entry, s, key);
    RankSplits(m.entry, s, key, k);
    StillThere(ms, rs, key, at, n, s[k]);
  }

  lemma {:induction false} StillThere(ms: seq<Memory>, rs: seq<Reader>, key: InternalKey, i: nat, n: nat, y: Node)
    requires Interleaved(ms, rs, key) && i <= n < |ms| && y in ms[i].entry
    ensures y in ms[n].entry && ms[n].entry[y] == ms[i].entry[y]
  {
    if i < n {
      StillThere(ms, rs, key, i, n - 1, y);
      assert OneStep(ms, rs, key, n - 1);
    }
  }
}
