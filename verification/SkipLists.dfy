/** The skip list of the memtable (db/skiplist.h): linked levels, each a sorted sublist of the one below,
    through which every search agrees with the sorted sequence of entries. */
module SkipLists {
  import opened Wrappers
  import opened DbFormat
  import opened States
  import opened Lookup
  import opened Cursors
  import Store

  type Node = nat

  type Link = Option<Node>

  // The links of a node, level by level: next[level][node].
  type Links = seq<map<Node, Link>>

  const MAX_HEIGHT: nat := 12
  const HEAD: Node := 0

  function LinkAt(s: seq<Node>, i: nat): Link {
    if i < |s| then Some(s[i]) else None
  }

  /** The head, then the nodes of a level. */
  function NodeAt(s: seq<Node>, i: nat): Node
    requires i <= |s|
  {
    if i == 0 then HEAD else s[i - 1]
  }

  ghost predicate Chain(next: map<Node, Link>, s: seq<Node>) {
    forall i :: 0 <= i <= |s| ==> NodeAt(s, i) in next && next[NodeAt(s, i)] == LinkAt(s, i)
  }

  ghost predicate Holds(entry: map<Node, Entry>, s: seq<Node>) {
    forall i :: 0 <= i < |s| ==> s[i] in entry
  }

  function EntriesOf(entry: map<Node, Entry>, s: seq<Node>): (es: seq<Entry>)
    requires Holds(entry, s)
    ensures |es| == |s| && forall i :: 0 <= i < |s| ==> es[i] == entry[s[i]]
  {
    seq(|s|, i requires 0 <= i < |s| => entry[s[i]])
  }

  ghost predicate Ordered(entry: map<Node, Entry>, s: seq<Node>) {
    && Holds(entry, s) && HEAD !in s
    && forall i, j :: 0 <= i < j < |s| ==> Before(entry[s[i]].key, entry[s[j]].key)
  }

  ghost predicate Level(entry: map<Node, Entry>, next: map<Node, Link>, s: seq<Node>) {
    Chain(next, s) && Ordered(entry, s)
  }

  /** Each level is a sorted list, and a sublist of the level below. */
  ghost predicate Levels(entry: map<Node, Entry>, next: Links, lists: seq<seq<Node>>) {
    && |next| == |lists| == MAX_HEIGHT
    && (forall l :: 0 <= l < MAX_HEIGHT ==> Level(entry, next[l], lists[l]))
    && (forall l :: 0 < l < MAX_HEIGHT ==> Within(lists[l], lists[l - 1]))
  }

  ghost predicate Within(s: seq<Node>, t: seq<Node>) {
    forall r :: r in s ==> r in t
  }

  /** How many nodes of a level come before the key. */
  ghost function Rank(entry: map<Node, Entry>, s: seq<Node>, key: InternalKey): nat
    requires Holds(entry, s)
  {
    Seek(EntriesOf(entry, s), key)
  }

  lemma EntriesSorted(entry: map<Node, Entry>, s: seq<Node>)
    requires Ordered(entry, s)
    ensures Sorted(EntriesOf(entry, s))
  {
  }

  lemma RankIs(entry: map<Node, Entry>, s: seq<Node>, key: InternalKey, i: nat)
    requires Ordered(entry, s) && i <= |s|
    requires i > 0 ==> Before(entry[s[i - 1]].key, key)
    requires i < |s| ==> !Before(entry[s[i]].key, key)
    ensures Rank(entry, s, key) == i
  {
    EntriesSorted(entry, s);
    var es := EntriesOf(entry, s);
    if i < |s| { CompareMeaning(key, es[i].key); }
    SeekIs(es, key, i);
  }

  lemma RankSplits(entry: map<Node, Entry>, s: seq<Node>, key: InternalKey, j: nat)
    requires Ordered(entry, s) && j < |s|
    ensures Rank(entry, s, key) <= |s| && (j < Rank(entry, s, key) <==> Before(entry[s[j]].key, key))
  {
    EntriesSorted(entry, s);
    SeekSplits(EntriesOf(entry, s), key, j);
  }

  // ---------------------------------------------------------------- searches

  /** A search stands at a node of its level that the key comes after. */
  ghost predicate At(entry: map<Node, Entry>, s: seq<Node>, key: InternalKey, x: Node) {
    x == HEAD || (x in s && x in entry && Before(entry[x].key, key))
  }

  lemma AtHasRank(entry: map<Node, Entry>, s: seq<Node>, key: InternalKey, x: Node) returns (j: nat)
    requires Ordered(entry, s) && At(entry, s, key, x)
    ensures j <= Rank(entry, s, key) <= |s| && NodeAt(s, j) == x
  {
    if x == HEAD {
      j := 0;
      if s != [] { RankSplits(entry, s, key, 0); }
    } else {
      var i :| 0 <= i < |s| && s[i] == x;
      RankSplits(entry, s, key, i);
      j := i + 1;
    }
  }

  /** One load: the link of a node the key comes after leads to another such node, or past the key. */
  lemma Loaded(entry: map<Node, Entry>, next: map<Node, Link>, s: seq<Node>, key: InternalKey, j: nat)
    requires Level(entry, next, s) && j <= Rank(entry, s, key) && j <= |s|
    ensures Rank(entry, s, key) <= |s| && NodeAt(s, j) in next && At(entry, s, key, NodeAt(s, j))
    ensures var n := next[NodeAt(s, j)];
      && n == LinkAt(s, j) && (n.Some? ==> n.value in entry && n.value in s && n.value != HEAD)
      && ((n.Some? && Before(entry[n.value].key, key)) <==> j < Rank(entry, s, key))
  {
    if j < |s| { RankSplits(entry, s, key, j); }
    if j > 0 { RankSplits(entry, s, key, j - 1); }
  }

  lemma AtBelow(entry: map<Node, Entry>, s: seq<Node>, t: seq<Node>, key: InternalKey, x: Node)
    requires At(entry, s, key, x) && Within(s, t)
    ensures At(entry, t, key, x)
  {
  }

  ghost predicate PrevIs(entry: map<Node, Entry>, s: seq<Node>, key: InternalKey, p: Node) {
    Holds(entry, s) && Rank(entry, s, key) <= |s| && p == NodeAt(s, Rank(entry, s, key))
  }

  /** A search has come to the node at rank j of a level. */
  ghost predicate Searching(entry: map<Node, Entry>, next: Links, lists: seq<seq<Node>>, key: InternalKey, level: nat, x: Node, j: nat) {
    && Levels(entry, next, lists) && level < MAX_HEIGHT && Holds(entry, lists[level])
    && j <= |lists[level]| && j <= Rank(entry, lists[level], key) && x == NodeAt(lists[level], j)
  }

  lemma LevelLists(entry: map<Node, Entry>, next: Links, lists: seq<seq<Node>>)
    requires Levels(entry, next, lists)
    ensures |next| == |lists| == MAX_HEIGHT
  {
  }

  lemma SearchStart(entry: map<Node, Entry>, next: Links, lists: seq<seq<Node>>, key: InternalKey, level: nat)
    requires Levels(entry, next, lists) && level < MAX_HEIGHT
    ensures |lists| == MAX_HEIGHT && Searching(entry, next, lists, key, level, HEAD, 0)
  {
    assert Level(entry, next[level], lists[level]);
  }

  lemma SearchLoad(entry: map<Node, Entry>, next: Links, lists: seq<seq<Node>>, key: InternalKey, level: nat, x: Node, j: nat)
    requires Searching(entry, next, lists, key, level, x, j)
    ensures |next| == |lists| == MAX_HEIGHT && level < MAX_HEIGHT && x in next[level]
    ensures var n := next[level][x];
      && (n.Some? ==> n.value in entry)
      && if n.Some? && Before(entry[n.value].key, key) then j < |lists[level]| && Searching(entry, next, lists, key, level, n.value, j + 1)
         else PrevIs(entry, lists[level], key, x) && Holds(entry, lists[level]) && n == LinkAt(lists[level], Rank(entry, lists[level], key))
  {
    hide Rank, Before;
    assert Level(entry, next[level], lists[level]);
    Loaded(entry, next[level], lists[level], key, j);
  }

  lemma SearchDown(entry: map<Node, Entry>, next: Links, lists: seq<seq<Node>>, key: InternalKey, level: nat, x: Node, j: nat) returns (k: nat)
    requires Searching(entry, next, lists, key, level, x, j) && level > 0
    ensures |lists| == MAX_HEIGHT && Searching(entry, next, lists, key, level - 1, x, k) && k <= |lists[level - 1]|
  {
    hide Rank;
    var s, t := lists[level], lists[level - 1];
    assert Level(entry, next[level], s) && Level(entry, next[level - 1], t) && Within(s, t);
    Loaded(entry, next[level], s, key, j);
    AtBelow(entry, s, t, key, x);
    k := AtHasRank(entry, t, key, x);
  }

  lemma ScanLoad(entry: map<Node, Entry>, next: Links, lists: seq<seq<Node>>, level: nat, j: nat)
    requires Levels(entry, next, lists) && level < MAX_HEIGHT && |lists| == MAX_HEIGHT && j <= |lists[level]|
    ensures |next| == MAX_HEIGHT && NodeAt(lists[level], j) in next[level]
    ensures var n := next[level][NodeAt(lists[level], j)];
      if n == None then j == |lists[level]| else j < |lists[level]| && n.value == NodeAt(lists[level], j + 1)
  {
    assert Level(entry, next[level], lists[level]);
  }

  lemma ScanDown(entry: map<Node, Entry>, next: Links, lists: seq<seq<Node>>, level: nat, j: nat) returns (k: nat)
    requires Levels(entry, next, lists) && 0 < level < MAX_HEIGHT && |lists| == MAX_HEIGHT && j <= |lists[level]|
    ensures k <= |lists[level - 1]| && NodeAt(lists[level - 1], k) == NodeAt(lists[level], j)
  {
    k := 0;
    if j > 0 {
      assert Within(lists[level], lists[level - 1]) && lists[level][j - 1] in lists[level];
      var i :| 0 <= i < |lists[level - 1]| && lists[level - 1][i] == lists[level][j - 1];
      k := i + 1;
    }
  }

  // --------------------------------------------------------------- insertion

  function InsertedAt(s: seq<Node>, i: nat, x: Node): (r: seq<Node>)
    requires i <= |s|
    ensures |r| == |s| + 1
    ensures forall j :: 0 <= j < |r| ==> r[j] == if j < i then s[j] else if j == i then x else s[j - 1]
  {
    s[..i] + [x] + s[i..]
  }

  /** A node that is not yet linked, with a key that no listed node has. */
  ghost predicate New(entry: map<Node, Entry>, s: seq<Node>, x: Node) {
    x in entry && x != HEAD && x !in s && forall r :: r in s && r in entry ==> entry[r].key != entry[x].key
  }

  lemma ListedKept(next: map<Node, Link>, s: seq<Node>, x: Node, v: Link)
    requires Chain(next, s) && x !in s && x != HEAD
    ensures Chain(next[x := v], s)
  {
  }

  lemma InsertedChain(entry: map<Node, Entry>, next: map<Node, Link>, s: seq<Node>, x: Node, i: nat)
    requires Level(entry, next, s) && i <= |s| && x !in s && x != HEAD
    requires x in next && next[x] == LinkAt(s, i)
    ensures Chain(next[NodeAt(s, i) := Some(x)], InsertedAt(s, i, x))
  {
    var s', p := InsertedAt(s, i, x), NodeAt(s, i);
    var next' := next[p := Some(x)];
    forall j | 0 <= j <= |s'| ensures NodeAt(s', j) in next' && next'[NodeAt(s', j)] == LinkAt(s', j) {
      if j <= i {
        assert NodeAt(s', j) == NodeAt(s, j);
        if j < i { assert NodeAt(s, j) != p by { NodesDiffer(entry, s, j, i); } }
      } else if j > i + 1 {
        assert NodeAt(s', j) == NodeAt(s, j - 1);
        assert NodeAt(s, j - 1) != p by { NodesDiffer(entry, s, i, j - 1); }
      }
    }
  }

  lemma NodesDiffer(entry: map<Node, Entry>, s: seq<Node>, i: nat, j: nat)
    requires Ordered(entry, s) && i < j <= |s|
    ensures NodeAt(s, i) != NodeAt(s, j)
  {
  }

  lemma OneIsBefore(a: InternalKey, b: InternalKey)
    requires a != b
    ensures Before(a, b) <==> !Before(b, a)
  {
    CompareMeaning(a, b);
  }

  lemma OrderedHolds(entry: map<Node, Entry>, s: seq<Node>)
    requires Ordered(entry, s)
    ensures Holds(entry, s) && forall key :: Rank(entry, s, key) <= |s|
  {
  }

  lemma NewIsUnlisted(entry: map<Node, Entry>, s: seq<Node>, x: Node)
    requires New(entry, s, x)
    ensures x in entry && x !in s && x != HEAD
  {
  }

  lemma ChainAt(next: map<Node, Link>, s: seq<Node>, i: nat)
    requires Chain(next, s) && i <= |s|
    ensures NodeAt(s, i) in next && next[NodeAt(s, i)] == LinkAt(s, i)
  {
  }

  lemma LevelIs(entry: map<Node, Entry>, next: Links, lists: seq<seq<Node>>, l: nat)
    requires Levels(entry, next, lists) && l < MAX_HEIGHT
    ensures |next| == |lists| == MAX_HEIGHT && Level(entry, next[l], lists[l])
  {
  }

  lemma RankBound(entry: map<Node, Entry>, s: seq<Node>, key: InternalKey)
    requires Holds(entry, s)
    ensures Rank(entry, s, key) <= |s|
  {
  }

  lemma InsertedOrdered(entry: map<Node, Entry>, s: seq<Node>, x: Node, i: nat)
    requires Ordered(entry, s) && New(entry, s, x) && i == Rank(entry, s, entry[x].key)
    ensures i <= |s| && Ordered(entry, InsertedAt(s, i, x))
  {
    hide Before, Rank;
    var key := entry[x].key;
    RankBound(entry, s, key);
    var s' := InsertedAt(s, i, x);
    forall j | 0 <= j < |s| ensures if j < i then Before(entry[s[j]].key, key) else Before(key, entry[s[j]].key) {
      RankSplits(entry, s, key, j);
      OneIsBefore(key, entry[s[j]].key);
    }
    forall a, b | 0 <= a < b < |s'| ensures Before(entry[s'[a]].key, entry[s'[b]].key) {
      if a == i {
        assert s'[b] == s[b - 1];
      } else if b == i {
        assert s'[a] == s[a];
      } else {
        assert s'[a] == s[if a < i then a else a - 1] && s'[b] == s[if b < i then b else b - 1];
      }
    }
  }

  /** Node::SetNext. */
  function SetNext(next: Links, l: nat, p: Node, v: Link): (r: Links)
    requires l < |next|
    ensures |r| == |next| && (forall k :: 0 <= k < |next| && k != l ==> r[k] == next[k]) && r[l] == next[l][p := v]
  {
    var links: map<Node, Link> := next[l][p := v];
    next[l := links]
  }

  /** The link of a node that is in no list may be set at will. */
  lemma PrepareKeeps(entry: map<Node, Entry>, next: Links, lists: seq<seq<Node>>, l: nat, x: Node, v: Link)
    requires Levels(entry, next, lists) && l < MAX_HEIGHT && x !in lists[l] && x != HEAD
    ensures Levels(entry, SetNext(next, l, x, v), lists)
  {
    hide Chain, Ordered, Within;
    var next' := SetNext(next, l, x, v);
    forall k | 0 <= k < MAX_HEIGHT ensures Level(entry, next'[k], lists[k]) {
      assert Level(entry, next[k], lists[k]);
      if k == l { ListedKept(next[l], lists[l], x, v); }
    }
  }

  /** Publishing: the store into the predecessor's link puts the node into the level, and every level
      stays a sorted sublist of the one below. */
  lemma PublishKeeps(entry: map<Node, Entry>, next: Links, lists: seq<seq<Node>>, l: nat, x: Node, i: nat)
    requires Levels(entry, next, lists) && l < MAX_HEIGHT && New(entry, lists[l], x) && Holds(entry, lists[l])
    requires i == Rank(entry, lists[l], entry[x].key) && i <= |lists[l]|
    requires x in next[l] && next[l][x] == LinkAt(lists[l], i) && (l > 0 ==> x in lists[l - 1])
    ensures Levels(entry, SetNext(next, l, NodeAt(lists[l], i), Some(x)), lists[l := InsertedAt(lists[l], i, x)])
  {
    hide Chain, Ordered, New;
    var s := lists[l];
    assert Level(entry, next[l], s);
    NewIsUnlisted(entry, s, x);
    InsertedChain(entry, next[l], s, x, i);
    InsertedOrdered(entry, s, x, i);
    var next', lists' := SetNext(next, l, NodeAt(s, i), Some(x)), lists[l := InsertedAt(s, i, x)];
    forall k | 0 <= k < MAX_HEIGHT ensures Level(entry, next'[k], lists'[k]) {
      assert Level(entry, next[k], lists[k]);
    }
    assert Within(s, InsertedAt(s, i, x)) && (l > 0 ==> Within(InsertedAt(s, i, x), lists[l - 1])) by { InsertedWithin(lists, l, x, i); }
    forall k | 0 < k < MAX_HEIGHT ensures Within(lists'[k], lists'[k - 1]) {
      assert Within(lists[k], lists[k - 1]);
      if k == l + 1 { WithinTrans(lists[k], s, InsertedAt(s, i, x)); }
    }
  }

  lemma WithinItself(s: seq<Node>)
    ensures Within(s, s)
  {
  }

  lemma WithinTrans(r: seq<Node>, s: seq<Node>, t: seq<Node>)
    requires Within(r, s) && Within(s, t)
    ensures Within(r, t)
  {
  }

  lemma InsertedWithin(lists: seq<seq<Node>>, l: nat, x: Node, i: nat)
    requires l < |lists| && i <= |lists[l]| && (l > 0 ==> x in lists[l - 1] && Within(lists[l], lists[l - 1]))
    ensures Within(lists[l], InsertedAt(lists[l], i, x))
    ensures l > 0 ==> Within(InsertedAt(lists[l], i, x), lists[l - 1])
  {
    var s, t := lists[l], InsertedAt(lists[l], i, x);
    forall r | r in s ensures r in t {
      var j :| 0 <= j < |s| && s[j] == r;
      assert t[if j < i then j else j + 1] == r;
    }
  }

  lemma NewNodeKeeps(entry: map<Node, Entry>, next: Links, lists: seq<seq<Node>>, x: Node, e: Entry)
    requires Levels(entry, next, lists) && x !in entry
    ensures Levels(entry[x := e], next, lists)
  {
    forall l | 0 <= l < MAX_HEIGHT ensures Level(entry[x := e], next[l], lists[l]) {
      assert Level(entry, next[l], lists[l]);
    }
  }

  lemma RankKept(entry: map<Node, Entry>, s: seq<Node>, x: Node, e: Entry, key: InternalKey)
    requires Holds(entry, s) && x !in entry
    ensures Holds(entry[x := e], s) && EntriesOf(entry[x := e], s) == EntriesOf(entry, s)
    ensures Rank(entry[x := e], s, key) == Rank(entry, s, key)
  {
  }

  /** Every level is a sublist of level 0. */
  lemma {:induction false} SublistOfBase(entry: map<Node, Entry>, next: Links, lists: seq<seq<Node>>, l: nat)
    requires Levels(entry, next, lists) && l < MAX_HEIGHT
    ensures Within(lists[l], lists[0]) && Level(entry, next[l], lists[l])
  {
    if l > 0 {
      SublistOfBase(entry, next, lists, l - 1);
      assert Within(lists[l], lists[l - 1]);
    }
  }

  /** An insertion that has linked the node into the levels below i. */
  ghost predicate Linked(entry: map<Node, Entry>, next: Links, was: seq<seq<Node>>, lists: seq<seq<Node>>, x: Node, i: nat) {
    && Levels(entry, next, lists) && |was| == MAX_HEIGHT && i <= MAX_HEIGHT && x in entry
    && (forall l :: 0 <= l < MAX_HEIGHT ==> New(entry, was[l], x) && Ordered(entry, was[l]) && Rank(entry, was[l], entry[x].key) <= |was[l]|)
    && (forall l :: i <= l < MAX_HEIGHT ==> lists[l] == was[l])
    && (forall l :: 0 <= l < i ==> lists[l] == InsertedAt(was[l], Rank(entry, was[l], entry[x].key), x))
  }

  /** A node is in the levels below its height, and the other nodes stay. */
  ghost predicate TakesLevels(was: seq<seq<Node>>, lists: seq<seq<Node>>, x: Node, height: nat) {
    |was| == |lists| == MAX_HEIGHT && forall l, y :: 0 <= l < MAX_HEIGHT ==> (y in lists[l] <==> y in was[l] || (y == x && l < height))
  }

  lemma InsertedHas(s: seq<Node>, i: nat, x: Node, y: Node)
    requires i <= |s|
    ensures y in InsertedAt(s, i, x) <==> y in s || y == x
  {
    assert s == s[..i] + s[i..];
  }

  lemma LinkedAt(entry: map<Node, Entry>, next: Links, was: seq<seq<Node>>, lists: seq<seq<Node>>, x: Node, height: nat, l: nat)
    requires Linked(entry, next, was, lists, x, height) && l < height
    ensures |lists| == |was| == MAX_HEIGHT && l < MAX_HEIGHT && x in entry && Holds(entry, was[l])
    ensures Rank(entry, was[l], entry[x].key) <= |was[l]| && lists[l] == InsertedAt(was[l], Rank(entry, was[l], entry[x].key), x)
  {
  }

  lemma LinkedTakes(entry: map<Node, Entry>, next: Links, was: seq<seq<Node>>, lists: seq<seq<Node>>, x: Node, height: nat)
    requires Linked(entry, next, was, lists, x, height)
    ensures TakesLevels(was, lists, x, height)
  {
    hide Level, Rank, New, Ordered, InsertedAt;
    LinkedLevels(entry, next, was, lists, x, height);
    forall l, y | 0 <= l < MAX_HEIGHT ensures y in lists[l] <==> y in was[l] || (y == x && l < height) {
      if l < height {
        LinkedAt(entry, next, was, lists, x, height, l);
        InsertedHas(was[l], Rank(entry, was[l], entry[x].key), x, y);
      }
    }
  }

  lemma LinkStart(entry: map<Node, Entry>, next: Links, lists: seq<seq<Node>>, x: Node, e: Entry)
    requires Levels(entry, next, lists) && x !in entry && x != HEAD && NewKey(entry, lists[0], e.key)
    ensures Linked(entry[x := e], next, lists, lists, x, 0)
  {
    NewNodeKeeps(entry, next, lists, x, e);
    forall l | 0 <= l < MAX_HEIGHT ensures New(entry[x := e], lists[l], x) && Ordered(entry[x := e], lists[l]) && Rank(entry[x := e], lists[l], e.key) <= |lists[l]| {
      SublistOfBase(entry, next, lists, l);
      assert Level(entry[x := e], next[l], lists[l]);
    }
  }

  /** Both stores of one level keep every level in order. */
  lemma LinkStep(entry: map<Node, Entry>, next: Links, was: seq<seq<Node>>, lists: seq<seq<Node>>, x: Node, i: nat)
    requires Linked(entry, next, was, lists, x, i) && i < MAX_HEIGHT
    ensures Holds(entry, was[i]) && Rank(entry, was[i], entry[x].key) <= |was[i]| && |next| == MAX_HEIGHT
    ensures var p := NodeAt(was[i], Rank(entry, was[i], entry[x].key));
      p in next[i] && Levels(entry, SetNext(next, i, x, next[i][p]), lists)
      && Linked(entry, SetNext(SetNext(next, i, x, next[i][p]), i, p, Some(x)), was, lists[i := InsertedAt(was[i], Rank(entry, was[i], entry[x].key), x)], x, i + 1)
  {
    hide Chain, Ordered, New, Within, Levels;
    assert Ordered(entry, was[i]) && New(entry, was[i], x);
    OrderedHolds(entry, was[i]);
    var n := Rank(entry, was[i], entry[x].key);
    var p := NodeAt(was[i], n);
    LevelIs(entry, next, lists, i);
    ChainAt(next[i], was[i], n);
    NewIsUnlisted(entry, was[i], x);
    PrepareKeeps(entry, next, lists, i, x, next[i][p]);
    if i > 0 {
      OrderedHolds(entry, was[i - 1]);
      assert lists[i - 1] == InsertedAt(was[i - 1], Rank(entry, was[i - 1], entry[x].key), x);
      assert lists[i - 1][Rank(entry, was[i - 1], entry[x].key)] == x;
    }
    PublishKeeps(entry, SetNext(next, i, x, next[i][p]), lists, i, x, n);
  }

  lemma LinkEnd(entry: map<Node, Entry>, next: Links, was: seq<seq<Node>>, lists: seq<seq<Node>>, x: Node, e: Entry, height: nat)
    requires x !in entry && Linked(entry[x := e], next, was, lists, x, height) && height > 0
    requires Ordered(entry, was[0])
    ensures Holds(entry[x := e], lists[0]) && Sorted(EntriesOf(entry, was[0]))
    ensures forall y :: y in EntriesOf(entry, was[0]) ==> y.key != e.key
    ensures EntriesOf(entry[x := e], lists[0]) == Store.InsertEntry(EntriesOf(entry, was[0]), e)
  {
    EntriesSorted(entry, was[0]);
    RankKept(entry, was[0], x, e, e.key);
    var n := Rank(entry, was[0], e.key);
    assert New(entry[x := e], was[0], x);
    assert Level(entry[x := e], next[0], lists[0]);
    var es := EntriesOf(entry, was[0]);
    assert lists[0] == InsertedAt(was[0], n, x);
    assert EntriesOf(entry[x := e], lists[0]) == es[..n] + [e] + es[n..];
  }

  /** The rank of a node's own key is its index. */
  lemma OwnRank(entry: map<Node, Entry>, s: seq<Node>, i: nat)
    requires Ordered(entry, s) && i < |s|
    ensures Rank(entry, s, entry[s[i]].key) == i
  {
    RankIs(entry, s, entry[s[i]].key, i);
  }

  ghost predicate NewKey(entry: map<Node, Entry>, s: seq<Node>, key: InternalKey) {
    forall r :: r in s && r in entry ==> entry[r].key != key
  }

  lemma KeyIsNew(entry: map<Node, Entry>, s: seq<Node>, key: InternalKey)
    requires Holds(entry, s) && forall y :: y in EntriesOf(entry, s) ==> y.key != key
    ensures NewKey(entry, s, key)
  {
    forall r | r in s && r in entry ensures entry[r].key != key {
      var i :| 0 <= i < |s| && s[i] == r;
      assert EntriesOf(entry, s)[i] == entry[r];
    }
  }

  lemma BaseLevel(entry: map<Node, Entry>, next: Links, lists: seq<seq<Node>>)
    requires Levels(entry, next, lists)
    ensures |lists| == MAX_HEIGHT && Ordered(entry, lists[0]) && Holds(entry, lists[0])
  {
    assert Level(entry, next[0], lists[0]);
  }

  lemma EmptyLevel(entry: map<Node, Entry>, s: seq<Node>, key: InternalKey)
    requires s == []
    ensures PrevIs(entry, s, key, HEAD)
  {
  }

  lemma PrevAfter(entry: map<Node, Entry>, s: seq<Node>, x: Node, e: Entry, p: Node)
    requires PrevIs(entry, s, e.key, p) && x !in entry
    ensures Holds(entry[x := e], s) && Rank(entry[x := e], s, e.key) <= |s| && p == NodeAt(s, Rank(entry[x := e], s, e.key))
  {
    RankKept(entry, s, x, e, e.key);
  }

  lemma LinkedLevels(entry: map<Node, Entry>, next: Links, was: seq<seq<Node>>, lists: seq<seq<Node>>, x: Node, i: nat)
    requires Linked(entry, next, was, lists, x, i)
    ensures Levels(entry, next, lists) && |next| == |lists| == |was| == MAX_HEIGHT
    ensures forall l :: i <= l < MAX_HEIGHT ==> lists[l] == was[l]
  {
  }

  lemma HeadFirst(s: seq<Node>)
    ensures NodeAt(s, 0) == HEAD
  {
  }

  class SkipList {
    var entry: map<Node, Entry>
    var next: Links
    var maxHeight: nat
    var issued: Node
    ghost var lists: seq<seq<Node>>

    ghost predicate Valid()
      reads this
    {
      && Levels(entry, next, lists)
      && 1 <= maxHeight <= MAX_HEIGHT
      && (forall l :: maxHeight <= l < MAX_HEIGHT ==> lists[l] == [])
      && HEAD < issued && forall r :: r in entry ==> r < issued
    }

    /** The entries of level 0, in key order. */
    ghost function Contents(): (es: seq<Entry>)
      requires Valid()
      reads this
      ensures Sorted(es) && |es| == |lists[0]|
    {
      assert Level(entry, next[0], lists[0]);
      EntriesSorted(entry, lists[0]);
      EntriesOf(entry, lists[0])
    }

    constructor ()
      ensures Valid() && Contents() == []
    {
      entry, maxHeight, issued := map[], 1, HEAD + 1;
      next := seq(MAX_HEIGHT, _ => map[HEAD := None]);
      lists := seq(MAX_HEIGHT, _ => []);
    }

    lemma Parts()
      requires Valid()
      ensures Levels(entry, next, lists) && |next| == |lists| == MAX_HEIGHT && 1 <= maxHeight <= MAX_HEIGHT
      ensures HEAD < issued && issued !in entry && forall r :: r in entry ==> r < issued
      ensures forall l :: maxHeight <= l < MAX_HEIGHT ==> lists[l] == []
      ensures Holds(entry, lists[0]) && Contents() == EntriesOf(entry, lists[0])
    {
      BaseLevel(entry, next, lists);
    }

    /** The first node at or after the key, and the last node before it on every level. */
    method FindGreaterOrEqual(key: InternalKey) returns (r: Link, prev: seq<Node>)
      requires Valid()
      ensures |lists| == MAX_HEIGHT && Holds(entry, lists[0]) && r == LinkAt(lists[0], Rank(entry, lists[0], key))
      ensures |prev| == MAX_HEIGHT
      ensures forall l :: 0 <= l < maxHeight ==> PrevIs(entry, lists[l], key, prev[l])
    {
      hide *;
      Parts();
      var x, level := HEAD, maxHeight - 1;
      ghost var j: nat := 0;
      prev := seq(MAX_HEIGHT, _ => HEAD);
      SearchStart(entry, next, lists, key, level);
      while true
        invariant 0 <= level < maxHeight && |lists| == MAX_HEIGHT == |prev|
        invariant Searching(entry, next, lists, key, level, x, j) && j <= |lists[level]|
        invariant forall l :: level < l < maxHeight ==> PrevIs(entry, lists[l], key, prev[l])
        decreases level, |lists[level]| - j
      {
        SearchLoad(entry, next, lists, key, level, x, j);
        var n := next[level][x];
        if n.Some? && Before(entry[n.value].key, key) {
          // Keep searching in this list.
          x, j := n.value, j + 1;
        } else {
          prev := prev[level := x];
          if level == 0 {
            return n, prev;
          }
          // Switch to the next list.
          j := SearchDown(entry, next, lists, key, level, x, j);
          level := level - 1;
        }
      }
    }

    /** The last node before the key, or the head. */
    method FindLessThan(key: InternalKey) returns (x: Node)
      requires Valid()
      ensures |lists| == MAX_HEIGHT && PrevIs(entry, lists[0], key, x)
    {
      hide *;
      Parts();
      var level := maxHeight - 1;
      x := HEAD;
      ghost var j: nat := 0;
      SearchStart(entry, next, lists, key, level);
      while true
        invariant 0 <= level < maxHeight && |lists| == MAX_HEIGHT
        invariant Searching(entry, next, lists, key, level, x, j) && j <= |lists[level]|
        decreases level, |lists[level]| - j
      {
        SearchLoad(entry, next, lists, key, level, x, j);
        var n := next[level][x];
        if n.None? || !Before(entry[n.value].key, key) {
          if level == 0 {
            return;
          }
          j := SearchDown(entry, next, lists, key, level, x, j);
          level := level - 1;
        } else {
          x, j := n.value, j + 1;
        }
      }
    }

    /** The last node, or the head. */
    method FindLast() returns (x: Node)
      requires Valid()
      ensures |lists| == MAX_HEIGHT && x == NodeAt(lists[0], |lists[0]|)
    {
      hide *;
      Parts();
      var level := maxHeight - 1;
      x := HEAD;
      ghost var j: nat := 0;
      LevelLists(entry, next, lists);
      HeadFirst(lists[level]);
      while true
        invariant 0 <= level < maxHeight && |lists| == MAX_HEIGHT
        invariant j <= |lists[level]| && x == NodeAt(lists[level], j)
        decreases level, |lists[level]| - j
      {
        ScanLoad(entry, next, lists, level, j);
        var n := next[level][x];
        if n == None {
          if level == 0 {
            return;
          }
          j := ScanDown(entry, next, lists, level, j);
          level := level - 1;
        } else {
          x, j := n.value, j + 1;
        }
      }
    }

    lemma AboveIsEmpty(l: nat)
      requires Valid() && maxHeight <= l < MAX_HEIGHT
      ensures |lists| == MAX_HEIGHT && lists[l] == []
    {
    }

    /** A node linked into all its levels leaves a valid list. */
    lemma Completed(entry0: map<Node, Entry>, was: seq<seq<Node>>, x: Node, e: Entry, height: nat)
      requires Linked(entry, next, was, lists, x, height) && entry == entry0[x := e] && HEAD < x && issued == x + 1
      requires height <= maxHeight <= MAX_HEIGHT && 1 <= maxHeight && forall l :: maxHeight <= l < MAX_HEIGHT ==> was[l] == []
      requires forall r :: r in entry0 ==> r < x
      ensures Valid() && Contents() == EntriesOf(entry, lists[0])
    {
    }

    /** Two stores a level: the new node's link, then the link that publishes the node. After each store
        every level is in order. */
    method LinkLevels(x: Node, e: Entry, height: nat, prev: seq<Node>, ghost was: seq<seq<Node>>, ghost entry0: map<Node, Entry>)
      requires height <= MAX_HEIGHT == |prev| && x !in entry0 && entry == entry0[x := e]
      requires Linked(entry, next, was, lists, x, 0) && |was| == MAX_HEIGHT
      requires forall l :: 0 <= l < height ==> PrevIs(entry0, was[l], e.key, prev[l])
      modifies `next, `lists
      ensures Linked(entry, next, was, lists, x, height) && |lists| == MAX_HEIGHT
    {
      hide *;
      LinkedLevels(entry, next, was, lists, x, 0);
      for i := 0 to height
        invariant Linked(entry, next, was, lists, x, i) && |lists| == MAX_HEIGHT
      {
        PrevAfter(entry0, was[i], x, e, prev[i]);
        LinkStep(entry, next, was, lists, x, i);
        next := SetNext(next, i, x, next[i][prev[i]]);
        assert Levels(entry, next, lists);
        next := SetNext(next, i, prev[i], Some(x));
        lists := lists[i := InsertedAt(was[i], Rank(entry, was[i], e.key), x)];
      }
    }

    /** Links a new node of the given height, level by level from the bottom. */
    method Insert(e: Entry, height: nat)
      requires Valid() && 1 <= height <= MAX_HEIGHT
      requires forall y :: y in Contents() ==> y.key != e.key
      modifies this
      ensures Valid() && Contents() == Store.InsertEntry(old(Contents()), e)
      ensures TakesLevels(old(lists), lists, old(issued), height)
      ensures maxHeight == if height > old(maxHeight) then height else old(maxHeight)
    {
      hide *;
      Parts();
      ghost var was, entry0, max0 := lists, entry, maxHeight;
      LevelLists(entry, next, lists);
      BaseLevel(entry, next, lists);
      assert NewKey(entry, lists[0], e.key) by { KeyIsNew(entry, lists[0], e.key); }
      var r: Link, prev: seq<Node> := FindGreaterOrEqual(e.key);
      if height > maxHeight {
        for i := maxHeight to height
          invariant unchanged(this) && |prev| == MAX_HEIGHT
          invariant forall l :: 0 <= l < i ==> PrevIs(entry, lists[l], e.key, prev[l])
        {
          prev := prev[i := HEAD];
          AboveIsEmpty(i);
          EmptyLevel(entry, lists[i], e.key);
        }
        maxHeight := height;
      }
      var x := issued;
      issued, entry := x + 1, entry[x := e];
      LinkStart(entry0, next, lists, x, e);
      LinkLevels(x, e, height, prev, was, entry0);
      LinkEnd(entry0, next, was, lists, x, e, height);
      Completed(entry0, was, x, e, height);
      LinkedTakes(entry, next, was, lists, x, height);
    }
  }

  // --------------------------------------------------------------- iterators

  /** A node of level 0, by its rank there. */
  lemma NodeHasRank(entry: map<Node, Entry>, next: Links, lists: seq<seq<Node>>, x: Node)
    requires Levels(entry, next, lists) && |lists| == MAX_HEIGHT && x in lists[0]
    ensures x in entry && Holds(entry, lists[0]) && |next| == MAX_HEIGHT && x in next[0]
    ensures var i := Rank(entry, lists[0], entry[x].key);
      i < |lists[0]| && lists[0][i] == x && next[0][x] == LinkAt(lists[0], i + 1) && EntriesOf(entry, lists[0])[i] == entry[x]
  {
    assert Level(entry, next[0], lists[0]);
    var i :| 0 <= i < |lists[0]| && lists[0][i] == x;
    OwnRank(entry, lists[0], i);
    assert NodeAt(lists[0], i + 1) == x;
  }

  /** SkipList::Iterator. It may be moved after any insertion: it stands at a node, wherever that node's
      entry has come to be in the sequence. */
  class ListIterator {
    const list: SkipList
    var node: Link

    ghost predicate Valid()
      reads this, list
    {
      list.Valid() && (node.Some? ==> node.value in list.lists[0])
    }

    /** The index of the current entry. */
    ghost function Position(): Option<nat>
      requires Valid()
      reads this, list
    {
      if node == None then None else
        NodeHasRank(list.entry, list.next, list.lists, node.value);
        Some(Rank(list.entry, list.lists[0], list.entry[node.value].key))
    }

    constructor (list: SkipList)
      requires list.Valid()
      ensures this.list == list && Valid() && Position() == None
    {
      this.list, node := list, None;
    }

    /** The position of the node at an index. */
    lemma PositionOf(i: nat)
      requires list.Valid() && node == LinkAt(list.lists[0], i)
      ensures Valid() && Position() == IfInside(i, |list.Contents()|)
    {
      if node.Some? {
        NodeHasRank(list.entry, list.next, list.lists, node.value);
        OwnRank(list.entry, list.lists[0], i) by { assert Level(list.entry, list.next[0], list.lists[0]); }
      }
    }

    lemma AtPosition()
      requires Valid() && node.Some?
      ensures var s := list.lists[0];
        && Position().Some? && Position().value < |s| == |list.Contents()| && s[Position().value] == node.value
        && node.value in list.entry && list.Contents()[Position().value] == list.entry[node.value]
        && |list.next| == MAX_HEIGHT && node.value in list.next[0] && list.next[0][node.value] == LinkAt(s, Position().value + 1)
    {
      NodeHasRank(list.entry, list.next, list.lists, node.value);
    }

    method CurrentEntry() returns (e: Entry)
      requires Valid() && node.Some?
      ensures Position().Some? && Position().value < |list.Contents()| && e == list.Contents()[Position().value]
    {
      AtPosition();
      e := list.entry[node.value];
    }

    method SeekToFirst()
      requires Valid()
      modifies this
      ensures Valid() && Position() == Move(list.Contents(), old(Position()), ToFirst)
    {
      ScanLoad(list.entry, list.next, list.lists, 0, 0);
      node := list.next[0][HEAD];
      assert node == LinkAt(list.lists[0], 0);
      PositionOf(0);
    }

    method SeekToLast()
      requires Valid()
      modifies this
      ensures Valid() && Position() == Move(list.Contents(), old(Position()), ToLast)
    {
      var x := list.FindLast();
      BaseLevel(list.entry, list.next, list.lists);
      node := if x == HEAD then None else Some(x);
      ghost var n := |list.lists[0]|;
      if n > 0 {
        assert list.lists[0][n - 1] in list.lists[0];
        PositionOf(n - 1);
      } else {
        PositionOf(0);
      }
    }

    method SeekTarget(target: InternalKey)
      requires Valid()
      modifies this
      ensures Valid() && Position() == Move(list.Contents(), old(Position()), SeekTo(target))
    {
      var r, prev := list.FindGreaterOrEqual(target);
      node := r;
      PositionOf(Rank(list.entry, list.lists[0], target));
    }

    method MoveNext()
      requires Valid() && node.Some?
      modifies this
      ensures old(Position()).Some? && Valid() && Position() == Move(list.Contents(), old(Position()), Next)
    {
      AtPosition();
      ghost var i := Position().value;
      node := list.next[0][node.value];
      PositionOf(i + 1);
    }

    /** There are no links back: the last node before the current key is searched for. */
    method MovePrev()
      requires Valid() && node.Some?
      modifies this
      ensures old(Position()).Some? && Valid() && Position() == Move(list.Contents(), old(Position()), Prev)
    {
      AtPosition();
      ghost var i := Position().value;
      var x := list.FindLessThan(list.entry[node.value].key);
      BaseLevel(list.entry, list.next, list.lists);
      node := if x == HEAD then None else Some(x);
      if i > 0 {
        assert list.lists[0][i - 1] in list.lists[0];
        PositionOf(i - 1);
      } else {
        assert node == None;
      }
    }
  }

  /** MemTable::Get: seek to the lookup key and check the user key. */
  method Get(table: SkipList, user: UserKey, s: SequenceNumber) returns (hit: Option<Entry>)
    requires table.Valid()
    ensures hit == GetFrom(table.Contents(), user, s)
  {
    var iter := new ListIterator(table);
    iter.SeekTarget(LookupKey(user, s));
    if iter.node == None {
      return None;
    }
    var e := iter.CurrentEntry();
    hit := if e.key.user == user then Some(e) else None;
  }
}
