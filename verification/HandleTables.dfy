/** The chained hash table of the cache (HandleTable in util/cache.cc): buckets and links through the
    handles agree with a map from keys to handles. */
module HandleTables {
  import opened Wrappers
  import opened Coding
  import opened Rings

  // A key with the hash its caller computed for it.
  datatype HashedKey = HashedKey(key: Bytes, hash: nat)

  type Link = Option<Ref>

  function LinkAt(s: seq<Ref>, i: nat): Link {
    if i < |s| then Some(s[i]) else None
  }

  /** The links from `start` run through exactly the handles of `s`. */
  ghost predicate Chain(nextHash: map<Ref, Link>, start: Link, s: seq<Ref>) {
    && start == LinkAt(s, 0)
    && (forall i :: 0 <= i < |s| ==> s[i] in nextHash)
    && (forall i :: 0 <= i < |s| ==> nextHash[s[i]] == LinkAt(s, i + 1))
  }

  /** The handles of a bucket are those the map has for keys that hash into it. */
  ghost predicate Bucket(keyed: map<Ref, HashedKey>, dict: map<HashedKey, Ref>, length: nat, b: nat, s: seq<Ref>)
    requires length > 0
  {
    && Distinct(s)
    && (forall i :: 0 <= i < |s| ==> s[i] in keyed)
    && (forall i :: 0 <= i < |s| ==> keyed[s[i]] in dict && dict[keyed[s[i]]] == s[i] && keyed[s[i]].hash % length == b)
    && (forall k :: k in dict && k.hash % length == b ==> dict[k] in s && dict[k] in keyed && keyed[dict[k]] == k)
  }

  /** Bucket by bucket, the links run through the handles of `chains`. */
  ghost predicate Chains(list: seq<Link>, nextHash: map<Ref, Link>, chains: seq<seq<Ref>>) {
    |list| == |chains| && forall b :: 0 <= b < |list| ==> Chain(nextHash, list[b], chains[b])
  }

  ghost predicate Buckets(keyed: map<Ref, HashedKey>, dict: map<HashedKey, Ref>, chains: seq<seq<Ref>>) {
    && (|chains| == 0 ==> dict == map[])
    && forall b :: 0 <= b < |chains| ==> Bucket(keyed, dict, |chains|, b, chains[b])
  }

  /** The handles other than those of chain `b` and `h` keep their links. */
  ghost predicate LinksKept(nextHash: map<Ref, Link>, nextHash': map<Ref, Link>, s: seq<Ref>, h: Ref) {
    forall r :: r != h && r !in s && r in nextHash ==> r in nextHash' && nextHash'[r] == nextHash[r]
  }

  ghost predicate Unlinked(chains: seq<seq<Ref>>, h: Ref) {
    forall b :: 0 <= b < |chains| ==> h !in chains[b]
  }

  // A pointer to a link: the head of a bucket, or the link of a handle.
  datatype Slot = Head(bucket: nat) | Behind(handle: Ref)

  function SlotAt(b: nat, s: seq<Ref>, i: nat): Slot
    requires i <= |s|
  {
    if i == 0 then Head(b) else Behind(s[i - 1])
  }

  function Load(list: seq<Link>, nextHash: map<Ref, Link>, p: Slot): Link {
    match p
    case Head(b) => if b < |list| then list[b] else None
    case Behind(r) => if r in nextHash then nextHash[r] else None
  }

  function Store(list: seq<Link>, nextHash: map<Ref, Link>, p: Slot, v: Link): (seq<Link>, map<Ref, Link>) {
    match p
    case Head(b) => (if b < |list| then list[b := v] else list, nextHash)
    case Behind(r) => (list, nextHash[r := v])
  }

  lemma LoadAt(nextHash: map<Ref, Link>, list: seq<Link>, b: nat, s: seq<Ref>, i: nat)
    requires b < |list| && Chain(nextHash, list[b], s) && i <= |s|
    ensures Load(list, nextHash, SlotAt(b, s, i)) == LinkAt(s, i)
  {
  }

  /** Where a key is found in its bucket: its handle's position, or the end. */
  ghost predicate Position(keyed: map<Ref, HashedKey>, s: seq<Ref>, key: HashedKey, i: nat) {
    && i <= |s| && (forall j :: 0 <= j < |s| ==> s[j] in keyed)
    && (forall j :: 0 <= j < i ==> keyed[s[j]] != key)
    && (i < |s| ==> keyed[s[i]] == key)
  }

  lemma PositionMeans(keyed: map<Ref, HashedKey>, dict: map<HashedKey, Ref>, length: nat, s: seq<Ref>, key: HashedKey, i: nat)
    requires length > 0 && Bucket(keyed, dict, length, key.hash % length, s) && Position(keyed, s, key, i)
    ensures i < |s| <==> key in dict
    ensures i < |s| ==> s[i] == dict[key]
  {
    if key in dict {
      var j :| 0 <= j < |s| && s[j] == dict[key];
    }
  }

  function Replaced(s: seq<Ref>, i: nat, h: Ref): (r: seq<Ref>)
    requires i <= |s|
    ensures |r| == if i < |s| then |s| else |s| + 1
    ensures forall j :: 0 <= j < |r| ==> r[j] == if j == i then h else s[j]
  {
    if i < |s| then s[i := h] else s + [h]
  }

  function Without(s: seq<Ref>, i: nat): (r: seq<Ref>)
    requires i < |s|
    ensures |r| == |s| - 1
    ensures forall j :: 0 <= j < |r| ==> r[j] == if j < i then s[j] else s[j + 1]
  {
    s[..i] + s[i + 1..]
  }

  /** A store changes the one link it is aimed at. */
  lemma StoreFrame(list: seq<Link>, nextHash: map<Ref, Link>, b: nat, s: seq<Ref>, i: nat, v: Link)
    requires b < |list| && i <= |s|
    ensures var (list', nextHash') := Store(list, nextHash, SlotAt(b, s, i), v);
      && |list'| == |list| && (forall c :: 0 <= c < |list| && c != b ==> list'[c] == list[c])
      && (forall r :: r !in s ==> (r in nextHash' <==> r in nextHash) && (r in nextHash ==> nextHash'[r] == nextHash[r]))
      && (list'[b] == if i == 0 then v else list[b])
      && (forall j :: 0 <= j < |s| && j + 1 != i ==> s[j] != s[if i > 0 then i - 1 else j] || i == 0 ==>
            (s[j] in nextHash' <==> s[j] in nextHash) && (s[j] in nextHash ==> nextHash'[s[j]] == nextHash[s[j]]))
      && (i > 0 ==> s[i - 1] in nextHash' && nextHash'[s[i - 1]] == v)
  {
  }

  /** Replacing or adding: the slot of the key's position gets the new handle. */
  lemma InsertInChain(list: seq<Link>, nextHash: map<Ref, Link>, b: nat, s: seq<Ref>, i: nat, h: Ref)
    requires b < |list| && Chain(nextHash, list[b], s) && Distinct(s) && i <= |s| && h !in s
    ensures var (list', nextHash') := Store(list, nextHash[h := LinkAt(s, i + 1)], SlotAt(b, s, i), Some(h));
      b < |list'| && Chain(nextHash', list'[b], Replaced(s, i, h))
  {
    var s' := Replaced(s, i, h);
    var nextHash0 := nextHash[h := LinkAt(s, i + 1)];
    StoreFrame(list, nextHash0, b, s, i, Some(h));
    var (list', nextHash') := Store(list, nextHash0, SlotAt(b, s, i), Some(h));
    hide Store, SlotAt;
    forall j | 0 <= j < |s'| ensures s'[j] in nextHash' && nextHash'[s'[j]] == LinkAt(s', j + 1) {
      if j < |s| && j != i { assert s[j] in nextHash0; }
    }
  }

  lemma RemoveFromChain(list: seq<Link>, nextHash: map<Ref, Link>, b: nat, s: seq<Ref>, i: nat)
    requires b < |list| && Chain(nextHash, list[b], s) && Distinct(s) && i < |s|
    ensures var (list', nextHash') := Store(list, nextHash, SlotAt(b, s, i), LinkAt(s, i + 1));
      b < |list'| && Chain(nextHash', list'[b], Without(s, i))
  {
    var s' := Without(s, i);
    StoreFrame(list, nextHash, b, s, i, LinkAt(s, i + 1));
    var (list', nextHash') := Store(list, nextHash, SlotAt(b, s, i), LinkAt(s, i + 1));
    hide Store, SlotAt;
    forall j | 0 <= j < |s'| ensures s'[j] in nextHash' && nextHash'[s'[j]] == LinkAt(s', j + 1) {
      assert s[if j < i then j else j + 1] in nextHash;
    }
  }

  lemma DistinctAfter(s: seq<Ref>, i: nat, h: Ref)
    requires Distinct(s) && h !in s
    ensures i <= |s| ==> Distinct(Replaced(s, i, h))
    ensures i < |s| ==> Distinct(Without(s, i))
  {
  }

  lemma ChainKept(nextHash: map<Ref, Link>, nextHash': map<Ref, Link>, start: Link, s: seq<Ref>)
    requires Chain(nextHash, start, s)
    requires forall r :: r in s && r in nextHash ==> r in nextHash' && nextHash'[r] == nextHash[r]
    ensures Chain(nextHash', start, s)
  {
  }

  /** A bucket that its key does not fall into is not touched. */
  lemma OtherBucket(keyed: map<Ref, HashedKey>, dict: map<HashedKey, Ref>, length: nat, c: nat, s: seq<Ref>,
                    keyed': map<Ref, HashedKey>, dict': map<HashedKey, Ref>, key: HashedKey, h: Ref)
    requires length > 0 && Bucket(keyed, dict, length, c, s) && key.hash % length != c && h !in s
    requires keyed' == keyed || keyed' == keyed[h := key]
    requires dict' == dict[key := h] || dict' == dict - {key}
    ensures Bucket(keyed', dict', length, c, s)
  {
  }

  lemma InsertInBucket(keyed: map<Ref, HashedKey>, dict: map<HashedKey, Ref>, length: nat, s: seq<Ref>, key: HashedKey, i: nat, h: Ref)
    requires length > 0 && Bucket(keyed, dict, length, key.hash % length, s) && Position(keyed, s, key, i) && h !in s
    ensures Bucket(keyed[h := key], dict[key := h], length, key.hash % length, Replaced(s, i, h))
  {
    var s', keyed', dict' := Replaced(s, i, h), keyed[h := key], dict[key := h];
    DistinctAfter(s, i, h);
    PositionMeans(keyed, dict, length, s, key, i);
    forall j | 0 <= j < |s'| ensures s'[j] in keyed' && keyed'[s'[j]] in dict' && dict'[keyed'[s'[j]]] == s'[j] && keyed'[s'[j]].hash % length == key.hash % length {
      if j != i { assert s'[j] == s[j] && keyed[s[j]] in dict; }
    }
    forall k | k in dict' && k.hash % length == key.hash % length ensures dict'[k] in s' && dict'[k] in keyed' && keyed'[dict'[k]] == k {
      if k == key {
        assert s'[i] == h;
      } else {
        var j :| 0 <= j < |s| && s[j] == dict[k];
        assert s'[j] == s[j];
      }
    }
  }

  lemma RemoveFromBucket(keyed: map<Ref, HashedKey>, dict: map<HashedKey, Ref>, length: nat, s: seq<Ref>, key: HashedKey, i: nat)
    requires length > 0 && Bucket(keyed, dict, length, key.hash % length, s) && Position(keyed, s, key, i) && i < |s|
    ensures Bucket(keyed, dict - {key}, length, key.hash % length, Without(s, i))
  {
    var s', dict' := Without(s, i), dict - {key};
    forall j | 0 <= j < |s'| ensures s'[j] in keyed && keyed[s'[j]] in dict' && dict'[keyed[s'[j]]] == s'[j] && keyed[s'[j]].hash % length == key.hash % length {
      var m := if j < i then j else j + 1;
      assert s'[j] == s[m] && s[m] != s[i] && keyed[s[m]] in dict;
      PositionMeans(keyed, dict, length, s, key, i);
    }
    forall a, b | 0 <= a < b < |s'| ensures s'[a] != s'[b] {
      assert s[if a < i then a else a + 1] != s[if b < i then b else b + 1];
    }
    forall k | k in dict' && k.hash % length == key.hash % length ensures dict'[k] in s' && dict'[k] in keyed && keyed[dict'[k]] == k {
      var j :| 0 <= j < |s| && s[j] == dict[k];
      assert j != i;
      assert s'[if j < i then j else j - 1] == s[j];
    }
  }

  lemma NotHere(keyed: map<Ref, HashedKey>, dict: map<HashedKey, Ref>, chains: seq<seq<Ref>>, h: Ref)
    requires Buckets(keyed, dict, chains) && h in keyed
    requires keyed[h] in dict ==> dict[keyed[h]] != h
    ensures Unlinked(chains, h)
  {
    forall b | 0 <= b < |chains| ensures h !in chains[b] {
      assert Bucket(keyed, dict, |chains|, b, chains[b]);
    }
  }

  lemma NewIsUnlinked(keyed: map<Ref, HashedKey>, dict: map<HashedKey, Ref>, chains: seq<seq<Ref>>, h: Ref)
    requires Buckets(keyed, dict, chains) && h !in keyed
    ensures Unlinked(chains, h)
  {
    forall b | 0 <= b < |chains| ensures h !in chains[b] {
      assert Bucket(keyed, dict, |chains|, b, chains[b]);
    }
  }

  /** A handle is linked in the bucket of its key only. */
  lemma OneBucket(keyed: map<Ref, HashedKey>, dict: map<HashedKey, Ref>, chains: seq<seq<Ref>>, b: nat, c: nat, r: Ref)
    requires Buckets(keyed, dict, chains) && b < |chains| && c < |chains| && r in chains[b] && r in chains[c]
    ensures b == c
  {
    assert Bucket(keyed, dict, |chains|, b, chains[b]) && Bucket(keyed, dict, |chains|, c, chains[c]);
  }

  lemma OtherChain(list: seq<Link>, nextHash: map<Ref, Link>, keyed: map<Ref, HashedKey>, dict: map<HashedKey, Ref>, chains: seq<seq<Ref>>,
                   nextHash': map<Ref, Link>, b: nat, c: nat, h: Ref)
    requires Chains(list, nextHash, chains) && Buckets(keyed, dict, chains) && b < |chains| && c < |chains| && b != c && h !in chains[c]
    requires LinksKept(nextHash, nextHash', chains[b], h)
    ensures Chain(nextHash', list[c], chains[c])
  {
    assert Chain(nextHash, list[c], chains[c]);
    forall r | r in chains[c] && r in nextHash ensures r in nextHash' && nextHash'[r] == nextHash[r] {
      if r in chains[b] { OneBucket(keyed, dict, chains, b, c, r); }
    }
    ChainKept(nextHash, nextHash', list[c], chains[c]);
  }

  /** One chain relinked, the others left alone. */
  lemma ChainsAfter(list: seq<Link>, nextHash: map<Ref, Link>, keyed: map<Ref, HashedKey>, dict: map<HashedKey, Ref>, chains: seq<seq<Ref>>,
                    list': seq<Link>, nextHash': map<Ref, Link>, b: nat, h: Ref, s': seq<Ref>)
    requires Chains(list, nextHash, chains) && Buckets(keyed, dict, chains) && b < |chains|
    requires forall c :: 0 <= c < |chains| && c != b ==> h !in chains[c]
    requires |list'| == |list| && forall c :: 0 <= c < |list| && c != b ==> list'[c] == list[c]
    requires LinksKept(nextHash, nextHash', chains[b], h) && Chain(nextHash', list'[b], s')
    ensures Chains(list', nextHash', chains[b := s'])
  {
    hide Chain, Bucket, Buckets, LinksKept;
    forall c | 0 <= c < |list| ensures Chain(nextHash', list'[c], chains[b := s'][c]) {
      if c != b { OtherChain(list, nextHash, keyed, dict, chains, nextHash', b, c, h); }
    }
  }

  lemma BucketsAfter(keyed: map<Ref, HashedKey>, dict: map<HashedKey, Ref>, chains: seq<seq<Ref>>,
                     keyed': map<Ref, HashedKey>, dict': map<HashedKey, Ref>, key: HashedKey, h: Ref, s': seq<Ref>)
    requires Buckets(keyed, dict, chains) && |chains| > 0
    requires keyed' == keyed || keyed' == keyed[h := key]
    requires dict' == dict[key := h] || dict' == dict - {key}
    requires forall c :: 0 <= c < |chains| && c != key.hash % |chains| ==> h !in chains[c]
    requires Bucket(keyed', dict', |chains|, key.hash % |chains|, s')
    ensures Buckets(keyed', dict', chains[key.hash % |chains| := s'])
  {
    var n := |chains|;
    var chains' := chains[key.hash % n := s'];
    hide Bucket;
    forall c | 0 <= c < n ensures Bucket(keyed', dict', n, c, chains'[c]) {
      if c != key.hash % n {
        assert Bucket(keyed, dict, n, c, chains[c]);
        OtherBucket(keyed, dict, n, c, chains[c], keyed', dict', key, h);
      }
    }
  }

  lemma TableInsert(list: seq<Link>, nextHash: map<Ref, Link>, keyed: map<Ref, HashedKey>, chains: seq<seq<Ref>>, dict: map<HashedKey, Ref>,
                    key: HashedKey, i: nat, h: Ref)
    requires Chains(list, nextHash, chains) && Buckets(keyed, dict, chains) && |chains| > 0 && Unlinked(chains, h)
    requires Position(keyed, chains[key.hash % |list|], key, i)
    ensures var b := key.hash % |list|; var s := chains[b];
      var (list', nextHash') := Store(list, nextHash[h := LinkAt(s, i + 1)], SlotAt(b, s, i), Some(h));
      Chains(list', nextHash', chains[b := Replaced(s, i, h)]) && Buckets(keyed[h := key], dict[key := h], chains[b := Replaced(s, i, h)])
  {
    hide Chain, Bucket, Replaced, Store, SlotAt;
    var b := key.hash % |list|;
    var s := chains[b];
    var nextHash0 := nextHash[h := LinkAt(s, i + 1)];
    assert Chain(nextHash, list[b], s) && Bucket(keyed, dict, |list|, b, s) && h !in s;
    BucketDistinct(keyed, dict, |list|, b, s);
    InsertInChain(list, nextHash, b, s, i, h);
    InsertInBucket(keyed, dict, |list|, s, key, i, h);
    StoreKeeps(list, nextHash0, b, s, i, Some(h));
    var (list', nextHash') := Store(list, nextHash0, SlotAt(b, s, i), Some(h));
    BucketsAfter(keyed, dict, chains, keyed[h := key], dict[key := h], key, h, Replaced(s, i, h));
    ChainsAfter(list, nextHash, keyed, dict, chains, list', nextHash', b, h, Replaced(s, i, h));
  }

  lemma BucketDistinct(keyed: map<Ref, HashedKey>, dict: map<HashedKey, Ref>, length: nat, b: nat, s: seq<Ref>)
    requires length > 0 && Bucket(keyed, dict, length, b, s)
    ensures Distinct(s)
  {
  }

  lemma StoreKeeps(list: seq<Link>, nextHash: map<Ref, Link>, b: nat, s: seq<Ref>, i: nat, v: Link)
    requires b < |list| && i <= |s|
    ensures var (list', nextHash') := Store(list, nextHash, SlotAt(b, s, i), v);
      && |list'| == |list| && (forall c :: 0 <= c < |list| && c != b ==> list'[c] == list[c])
      && (forall r :: r !in s ==> (r in nextHash' <==> r in nextHash) && (r in nextHash ==> nextHash'[r] == nextHash[r]))
  {
  }

  lemma TableRemove(list: seq<Link>, nextHash: map<Ref, Link>, keyed: map<Ref, HashedKey>, chains: seq<seq<Ref>>, dict: map<HashedKey, Ref>,
                    key: HashedKey, i: nat)
    requires Chains(list, nextHash, chains) && Buckets(keyed, dict, chains) && |chains| > 0
    requires Position(keyed, chains[key.hash % |list|], key, i) && i < |chains[key.hash % |list|]|
    ensures var b := key.hash % |list|; var s := chains[b];
      var (list', nextHash') := Store(list, nextHash, SlotAt(b, s, i), LinkAt(s, i + 1));
      Chains(list', nextHash', chains[b := Without(s, i)]) && Buckets(keyed, dict - {key}, chains[b := Without(s, i)])
  {
    hide Chain, Bucket, Without, Store, SlotAt;
    var b := key.hash % |list|;
    var s := chains[b];
    assert Chain(nextHash, list[b], s) && Bucket(keyed, dict, |list|, b, s);
    BucketDistinct(keyed, dict, |list|, b, s);
    RemoveFromChain(list, nextHash, b, s, i);
    RemoveFromBucket(keyed, dict, |list|, s, key, i);
    StoreKeeps(list, nextHash, b, s, i, LinkAt(s, i + 1));
    var (list', nextHash') := Store(list, nextHash, SlotAt(b, s, i), LinkAt(s, i + 1));
    var r := s[i];
    forall c | 0 <= c < |chains| && c != b ensures r !in chains[c] {
      if r in chains[c] { OneBucket(keyed, dict, chains, b, c, r); }
    }
    BucketsAfter(keyed, dict, chains, keyed, dict - {key}, key, r, Without(s, i));
    ChainsAfter(list, nextHash, keyed, dict, chains, list', nextHash', b, r, Without(s, i));
  }

  lemma PushOnChain(nextHash: map<Ref, Link>, start: Link, s: seq<Ref>, h: Ref)
    requires Chain(nextHash, start, s) && h !in s
    ensures Chain(nextHash[h := start], Some(h), [h] + s)
  {
    var s', nextHash' := [h] + s, nextHash[h := start];
    forall j | 0 <= j < |s'| ensures s'[j] in nextHash' && nextHash'[s'[j]] == LinkAt(s', j + 1) {
      if j > 0 { assert s[j - 1] in nextHash; }
    }
  }

  lemma PushOnBucket(keyed: map<Ref, HashedKey>, dict: map<HashedKey, Ref>, length: nat, s: seq<Ref>, h: Ref)
    requires length > 0 && h in keyed && keyed[h] !in dict && Bucket(keyed, dict, length, keyed[h].hash % length, s)
    ensures Bucket(keyed, dict[keyed[h] := h], length, keyed[h].hash % length, [h] + s)
  {
    var key := keyed[h];
    var s', dict', b := [h] + s, dict[key := h], key.hash % length;
    forall j | 0 <= j < |s'| ensures s'[j] in keyed && keyed[s'[j]] in dict' && dict'[keyed[s'[j]]] == s'[j] && keyed[s'[j]].hash % length == b {
      if j > 0 { assert s[j - 1] in keyed; }
    }
    forall k | k in dict' && k.hash % length == b ensures dict'[k] in s' && dict'[k] in keyed && keyed[dict'[k]] == k {
      if k == key { assert s'[0] == h; }
    }
  }

  /** Moving a handle to the front of its bucket in a table that does not have its key. */
  lemma TablePush(list: seq<Link>, nextHash: map<Ref, Link>, keyed: map<Ref, HashedKey>, chains: seq<seq<Ref>>, dict: map<HashedKey, Ref>, h: Ref)
    requires Chains(list, nextHash, chains) && Buckets(keyed, dict, chains) && |chains| > 0 && h in keyed && keyed[h] !in dict
    ensures var b := keyed[h].hash % |list|;
      && Chains(list[b := Some(h)], nextHash[h := list[b]], chains[b := [h] + chains[b]])
      && Buckets(keyed, dict[keyed[h] := h], chains[b := [h] + chains[b]])
  {
    hide Chain, Bucket;
    var key := keyed[h];
    var b := key.hash % |list|;
    NotHere(keyed, dict, chains, h);
    assert Chain(nextHash, list[b], chains[b]) && Bucket(keyed, dict, |list|, b, chains[b]);
    PushOnChain(nextHash, list[b], chains[b], h);
    PushOnBucket(keyed, dict, |list|, chains[b], h);
    BucketsAfter(keyed, dict, chains, keyed, dict[key := h], key, h, [h] + chains[b]);
    ChainsAfter(list, nextHash, keyed, dict, chains, list[b := Some(h)], nextHash[h := list[b]], b, h, [h] + chains[b]);
  }

  /** Handles that a resize has still to move: from position j of chain i on. */
  ghost predicate Later(chains: seq<seq<Ref>>, i: nat, j: nat, r: Ref) {
    || (i < |chains| && j <= |chains[i]| && r in chains[i][j..])
    || (exists c :: i < c < |chains| && r in chains[c])
  }

  /** What the new table holds, and what the old one has left to move. */
  ghost predicate Moving(list: seq<Link>, keyed: map<Ref, HashedKey>, dict: map<HashedKey, Ref>, chains: seq<seq<Ref>>,
                         nextHash: map<Ref, Link>, newList: seq<Link>, newChains: seq<seq<Ref>>, moved: map<HashedKey, Ref>, i: nat, j: nat, h: Link) {
    && |list| == |chains| && i <= |list| && Buckets(keyed, dict, chains)
    && Chains(newList, nextHash, newChains) && Buckets(keyed, moved, newChains) && |newChains| > 0
    && (i < |list| ==> j <= |chains[i]| && Chain(nextHash, h, chains[i][j..]))
    && (forall c :: i < c < |list| ==> Chain(nextHash, list[c], chains[c]))
    && (forall k :: k in moved ==> k in dict && moved[k] == dict[k])
    && (forall r :: Later(chains, i, j, r) ==> r in keyed && keyed[r] !in moved)
    && (forall k :: k in dict && !Later(chains, i, j, dict[k]) ==> k in moved)
  }

  lemma LaterInDict(keyed: map<Ref, HashedKey>, dict: map<HashedKey, Ref>, chains: seq<seq<Ref>>, i: nat, j: nat, r: Ref)
    requires Buckets(keyed, dict, chains) && Later(chains, i, j, r)
    ensures r in keyed && keyed[r] in dict && dict[keyed[r]] == r
  {
    if i < |chains| && j <= |chains[i]| && r in chains[i][j..] {
      assert Bucket(keyed, dict, |chains|, i, chains[i]);
      assert r in chains[i];
    } else {
      var c :| i < c < |chains| && r in chains[c];
      assert Bucket(keyed, dict, |chains|, c, chains[c]);
    }
  }

  lemma AllLater(keyed: map<Ref, HashedKey>, dict: map<HashedKey, Ref>, chains: seq<seq<Ref>>, k: HashedKey)
    requires Buckets(keyed, dict, chains) && k in dict
    ensures Later(chains, 0, 0, dict[k])
  {
    assert |chains| > 0;
    var b := k.hash % |chains|;
    assert Bucket(keyed, dict, |chains|, b, chains[b]);
    if b == 0 { assert chains[0][0..] == chains[0]; }
  }

  lemma EmptyTable(newList: seq<Link>, nextHash: map<Ref, Link>, keyed: map<Ref, HashedKey>, newChains: seq<seq<Ref>>)
    requires |newList| == |newChains| && forall b :: 0 <= b < |newList| ==> newList[b] == None && newChains[b] == []
    ensures Chains(newList, nextHash, newChains) && Buckets(keyed, map[], newChains)
  {
  }

  lemma MovingStart(list: seq<Link>, keyed: map<Ref, HashedKey>, dict: map<HashedKey, Ref>, chains: seq<seq<Ref>>,
                    nextHash: map<Ref, Link>, newList: seq<Link>, newChains: seq<seq<Ref>>)
    requires Chains(list, nextHash, chains) && Buckets(keyed, dict, chains)
    requires |newList| == |newChains| > 0 && forall b :: 0 <= b < |newList| ==> newList[b] == None && newChains[b] == []
    ensures Moving(list, keyed, dict, chains, nextHash, newList, newChains, map[], 0, 0, if list == [] then None else list[0])
  {
    EmptyTable(newList, nextHash, keyed, newChains);
    hide Bucket, Buckets, Later, Chain;
    forall k | k in dict ensures Later(chains, 0, 0, dict[k]) { AllLater(keyed, dict, chains, k); }
    forall r | Later(chains, 0, 0, r) ensures r in keyed { LaterInDict(keyed, dict, chains, 0, 0, r); }
    if list != [] {
      assert Chain(nextHash, list[0], chains[0]);
      assert chains[0][0..] == chains[0];
    }
    forall c | 0 < c < |list| ensures Chain(nextHash, list[c], chains[c]) {
      hide Chains;
      ChainOf(list, nextHash, chains, c);
    }
  }

  lemma ChainOf(list: seq<Link>, nextHash: map<Ref, Link>, chains: seq<seq<Ref>>, c: nat)
    requires Chains(list, nextHash, chains) && c < |list|
    ensures c < |chains| && Chain(nextHash, list[c], chains[c])
  {
  }

  /** What is left after one more handle is what was left without it. */
  lemma LaterStep(keyed: map<Ref, HashedKey>, dict: map<HashedKey, Ref>, chains: seq<seq<Ref>>, i: nat, j: nat, r: Ref)
    requires Buckets(keyed, dict, chains) && i < |chains| && j < |chains[i]|
    ensures Later(chains, i, j + 1, r) <==> Later(chains, i, j, r) && r != chains[i][j]
  {
    var s := chains[i];
    assert Bucket(keyed, dict, |chains|, i, s);
    BucketDistinct(keyed, dict, |chains|, i, s);
    hide Bucket, Buckets;
    assert s[j..] == [s[j]] + s[j + 1..];
    forall c: nat | i < c < |chains| ensures s[j] !in chains[c] {
      if s[j] in chains[c] { OneBucket(keyed, dict, chains, i, c, s[j]); }
    }
    assert s[j] !in s[j + 1..];
  }

  lemma ChainTail(nextHash: map<Ref, Link>, start: Link, s: seq<Ref>, j: nat)
    requires j < |s| && Chain(nextHash, start, s[j..])
    ensures start == Some(s[j]) && s[j] in nextHash && Chain(nextHash, nextHash[s[j]], s[j + 1..])
  {
    var u, v := s[j..], s[j + 1..];
    assert u[0] == s[j];
    forall m | 0 <= m < |v| ensures v[m] in nextHash && nextHash[v[m]] == LinkAt(v, m + 1) {
      assert v[m] == u[m + 1];
    }
  }

  /** The chains still to move do not see the relinked handle. */
  lemma RestKept(list: seq<Link>, keyed: map<Ref, HashedKey>, dict: map<HashedKey, Ref>, chains: seq<seq<Ref>>,
                 nextHash: map<Ref, Link>, i: nat, j: nat, h: Ref, v: Link)
    requires Buckets(keyed, dict, chains) && |list| == |chains| && i < |chains| && j < |chains[i]| && chains[i][j] == h
    requires Chain(nextHash, Some(h), chains[i][j..]) && forall c :: i < c < |list| ==> Chain(nextHash, list[c], chains[c])
    ensures h in nextHash && Chain(nextHash[h := v], nextHash[h], chains[i][j + 1..])
    ensures forall c :: i < c < |list| ==> Chain(nextHash[h := v], list[c], chains[c])
  {
    hide Chain, Bucket, Buckets, Later;
    var s, nextHash' := chains[i], nextHash[h := v];
    ChainTail(nextHash, Some(h), s, j);
    LaterStep(keyed, dict, chains, i, j, h);
    NotLater(chains, i, j + 1, h);
    ChainKept(nextHash, nextHash', nextHash[h], s[j + 1..]);
    forall c | i < c < |list| ensures Chain(nextHash', list[c], chains[c]) {
      ChainKept(nextHash, nextHash', list[c], chains[c]);
    }
  }

  lemma MovingStep(list: seq<Link>, keyed: map<Ref, HashedKey>, dict: map<HashedKey, Ref>, chains: seq<seq<Ref>>,
                   nextHash: map<Ref, Link>, newList: seq<Link>, newChains: seq<seq<Ref>>, moved: map<HashedKey, Ref>, i: nat, j: nat, h: Ref)
    requires Moving(list, keyed, dict, chains, nextHash, newList, newChains, moved, i, j, Some(h)) && i < |list|
    ensures |list| == |chains| && |newList| == |newChains| > 0
    ensures j < |chains[i]| && h == chains[i][j] && h in keyed && h in nextHash && keyed[h] !in moved
    ensures var b := keyed[h].hash % |newList|;
      Moving(list, keyed, dict, chains, nextHash[h := newList[b]], newList[b := Some(h)], newChains[b := [h] + newChains[b]], moved[keyed[h] := h],
             i, j + 1, nextHash[h])
  {
    hide Bucket, Buckets, Later, Chain;
    var s := chains[i];
    FirstLater(keyed, chains, nextHash, i, j, h);
    LaterInDict(keyed, dict, chains, i, j, h);
    assert |newList| == |newChains|;
    hide Chains;
    var b := keyed[h].hash % |newList|;
    TablePush(newList, nextHash, keyed, newChains, moved, h);
    RestKept(list, keyed, dict, chains, nextHash, i, j, h, newList[b]);
    var moved' := moved[keyed[h] := h];
    forall r | Later(chains, i, j + 1, r) ensures r in keyed && keyed[r] !in moved' {
      LaterStep(keyed, dict, chains, i, j, r);
      LaterInDict(keyed, dict, chains, i, j, r);
    }
    forall k | k in dict && !Later(chains, i, j + 1, dict[k]) ensures k in moved' {
      LaterStep(keyed, dict, chains, i, j, dict[k]);
      KeyOf(keyed, dict, chains, k);
    }
  }

  lemma KeyOf(keyed: map<Ref, HashedKey>, dict: map<HashedKey, Ref>, chains: seq<seq<Ref>>, k: HashedKey)
    requires Buckets(keyed, dict, chains) && k in dict
    ensures dict[k] in keyed && keyed[dict[k]] == k
  {
    assert |chains| > 0;
    var b := k.hash % |chains|;
    assert Bucket(keyed, dict, |chains|, b, chains[b]);
  }

  lemma FirstLater(keyed: map<Ref, HashedKey>, chains: seq<seq<Ref>>, nextHash: map<Ref, Link>, i: nat, j: nat, h: Ref)
    requires i < |chains| && j <= |chains[i]| && Chain(nextHash, Some(h), chains[i][j..])
    ensures j < |chains[i]| && chains[i][j] == h && Later(chains, i, j, h)
  {
    assert chains[i][j..] != [];
    assert chains[i][j..][0] == chains[i][j];
  }

  lemma NotLater(chains: seq<seq<Ref>>, i: nat, j: nat, r: Ref)
    requires !Later(chains, i, j, r) && i < |chains| && j <= |chains[i]|
    ensures r !in chains[i][j..] && forall c :: i < c < |chains| ==> r !in chains[c]
  {
  }

  lemma MovingNext(list: seq<Link>, keyed: map<Ref, HashedKey>, dict: map<HashedKey, Ref>, chains: seq<seq<Ref>>,
                   nextHash: map<Ref, Link>, newList: seq<Link>, newChains: seq<seq<Ref>>, moved: map<HashedKey, Ref>, i: nat, j: nat)
    requires Moving(list, keyed, dict, chains, nextHash, newList, newChains, moved, i, j, None) && i < |list|
    ensures Moving(list, keyed, dict, chains, nextHash, newList, newChains, moved, i + 1, 0, if i + 1 < |list| then list[i + 1] else None)
  {
    var s := chains[i];
    hide Bucket, Chains, Buckets;
    assert s[j..] == [];
    forall r ensures Later(chains, i + 1, 0, r) <==> Later(chains, i, j, r) {
      if i + 1 < |chains| { assert chains[i + 1][0..] == chains[i + 1]; }
    }
    if i + 1 < |list| { assert chains[i + 1][0..] == chains[i + 1]; }
    hide Chain, Later;
  }

  lemma MovingDone(list: seq<Link>, keyed: map<Ref, HashedKey>, dict: map<HashedKey, Ref>, chains: seq<seq<Ref>>,
                   nextHash: map<Ref, Link>, newList: seq<Link>, newChains: seq<seq<Ref>>, moved: map<HashedKey, Ref>)
    requires Moving(list, keyed, dict, chains, nextHash, newList, newChains, moved, |list|, 0, None)
    ensures moved == dict && Chains(newList, nextHash, newChains) && Buckets(keyed, dict, newChains)
  {
    hide Bucket, Chain;
    forall r ensures !Later(chains, |list|, 0, r) {}
  }

  ghost predicate IsPowerOfTwo(n: nat) {
    n == 1 || (n > 0 && n % 2 == 0 && IsPowerOfTwo(n / 2))
  }

  lemma FourIsPower()
    ensures IsPowerOfTwo(4)
  {
    assert IsPowerOfTwo(2);
  }

  /** A slot is the last of its chain exactly if it is empty. */
  lemma EndOfChain(s: seq<Ref>, i: nat)
    ensures LinkAt(s, i) == None <==> i >= |s|
    ensures i < |s| ==> LinkAt(s, i) == Some(s[i])
    ensures i >= |s| ==> LinkAt(s, i + 1) == None
  {
  }

  lemma SameLength(list: seq<Link>, nextHash: map<Ref, Link>, chains: seq<seq<Ref>>)
    requires Chains(list, nextHash, chains)
    ensures |list| == |chains|
  {
  }

  lemma PowerOfTwoDoubles(n: nat)
    requires IsPowerOfTwo(n)
    ensures IsPowerOfTwo(n * 2)
  {
  }

  lemma NextInChain(list: seq<Link>, nextHash: map<Ref, Link>, chains: seq<seq<Ref>>, b: nat, i: nat)
    requires Chains(list, nextHash, chains) && b < |chains| && i < |chains[b]|
    ensures chains[b][i] in nextHash && nextHash[chains[b][i]] == LinkAt(chains[b], i + 1)
  {
    assert Chain(nextHash, list[b], chains[b]);
  }

  lemma PositionInTable(keyed: map<Ref, HashedKey>, dict: map<HashedKey, Ref>, chains: seq<seq<Ref>>, key: HashedKey, i: nat)
    requires Buckets(keyed, dict, chains) && |chains| > 0 && Position(keyed, chains[key.hash % |chains|], key, i)
    ensures LinkAt(chains[key.hash % |chains|], i) == if key in dict then Some(dict[key]) else None
  {
    var b := key.hash % |chains|;
    assert Bucket(keyed, dict, |chains|, b, chains[b]);
    PositionMeans(keyed, dict, |chains|, chains[b], key, i);
  }

  /** HandleTable: `dict` is the map it stands for, `chains` the handles bucket by bucket. */
  class HandleTable {
    var length: nat
    var elems: nat
    var list: seq<Link>
    var nextHash: map<Ref, Link>
    var keyed: map<Ref, HashedKey>
    ghost var chains: seq<seq<Ref>>
    ghost var dict: map<HashedKey, Ref>

    ghost predicate Valid()
      reads this
    {
      && |list| == length && length >= 4 && IsPowerOfTwo(length)
      && elems == |dict| <= length
      && Chains(list, nextHash, chains) && Buckets(keyed, dict, chains)
    }

    constructor ()
      ensures Valid() && dict == map[] && keyed == map[]
    {
      length, elems, list, nextHash, keyed := 0, 0, [], map[], map[];
      chains, dict := [], map[];
      new;
      Resize();
    }

    lemma Parts()
      requires Valid()
      ensures Chains(list, nextHash, chains) && Buckets(keyed, dict, chains)
      ensures |list| == |chains| == length && elems == |dict| <= length && IsPowerOfTwo(length) && length >= 4
    {
    }

    lemma Whole()
      requires Chains(list, nextHash, chains) && Buckets(keyed, dict, chains)
      requires |list| == length && elems == |dict| <= length && IsPowerOfTwo(length) && length >= 4
      ensures Valid()
    {
    }

    /** The slot that holds the key's handle, or the last slot of its bucket. */
    method FindPointer(key: HashedKey) returns (p: Slot, ghost i: nat)
      requires Valid()
      ensures length > 0 && |chains| == |list| == length
      ensures Position(keyed, chains[key.hash % length], key, i)
      ensures i <= |chains[key.hash % length]| && p == SlotAt(key.hash % length, chains[key.hash % length], i)
      ensures Load(list, nextHash, p) == LinkAt(chains[key.hash % length], i)
    {
      var b := key.hash % length;
      ghost var s := chains[b];
      assert Chain(nextHash, list[b], s) && Bucket(keyed, dict, length, b, s);
      hide Chains, Buckets, Bucket, IsPowerOfTwo;
      p, i := Head(b), 0;
      while Load(list, nextHash, p) != None && keyed[Load(list, nextHash, p).value] != key
        invariant i <= |s| && p == SlotAt(b, s, i) && Load(list, nextHash, p) == LinkAt(s, i)
        invariant forall j :: 0 <= j < i ==> keyed[s[j]] != key
        decreases |s| - i
      {
        p, i := Behind(Load(list, nextHash, p).value), i + 1;
        LoadAt(nextHash, list, b, s, i);
      }
    }

    method Lookup(key: HashedKey) returns (r: Link)
      requires Valid()
      ensures r == if key in dict then Some(dict[key]) else None
    {
      ghost var i: nat;
      var p;
      p, i := FindPointer(key);
      PositionInTable(keyed, dict, chains, key, i);
      r := Load(list, nextHash, p);
    }

    /** The handle a key had before is returned. */
    method Insert(h: Ref, key: HashedKey) returns (prior: Link)
      requires Valid() && h !in keyed
      modifies this
      ensures Valid() && dict == old(dict)[key := h] && keyed == old(keyed)[h := key]
      ensures prior == if key in old(dict) then Some(old(dict)[key]) else None
    {
      hide *;
      ghost var i: nat;
      var p;
      p, i := FindPointer(key);
      Parts();
      ghost var b := key.hash % length;
      ghost var s := chains[b];
      PositionInTable(keyed, dict, chains, key, i);
      NewIsUnlinked(keyed, dict, chains, h);
      TableInsert(list, nextHash, keyed, chains, dict, key, i, h);
      prior := Load(list, nextHash, p);
      if i < |s| { NextInChain(list, nextHash, chains, b, i); }
      EndOfChain(s, i);
      StoreKeeps(list, nextHash[h := LinkAt(s, i + 1)], b, s, i, Some(h));
      nextHash := nextHash[h := if prior == None then None else nextHash[prior.value]];
      keyed, dict := keyed[h := key], dict[key := h];
      var stored := Store(list, nextHash, p, Some(h));
      list, nextHash := stored.0, stored.1;
      chains := chains[b := Replaced(s, i, h)];
      if prior == None {
        elems := elems + 1;
        if elems > length {
          Resize();
          return;
        }
      }
      Whole();
    }

    method Remove(key: HashedKey) returns (r: Link)
      requires Valid()
      modifies this
      ensures Valid() && dict == old(dict) - {key} && keyed == old(keyed)
      ensures r == if key in old(dict) then Some(old(dict)[key]) else None
    {
      hide *;
      ghost var i: nat;
      var p;
      p, i := FindPointer(key);
      Parts();
      ghost var b := key.hash % length;
      ghost var s := chains[b];
      r := Load(list, nextHash, p);
      PositionInTable(keyed, dict, chains, key, i);
      EndOfChain(s, i);
      if r != None {
        NextInChain(list, nextHash, chains, b, i);
        TableRemove(list, nextHash, keyed, chains, dict, key, i);
        StoreKeeps(list, nextHash, b, s, i, LinkAt(s, i + 1));
        var stored := Store(list, nextHash, p, nextHash[r.value]);
        list, nextHash := stored.0, stored.1;
        chains, dict := chains[b := Without(s, i)], dict - {key};
        elems := elems - 1;
        Whole();
      } else {
        assert dict - {key} == dict;
      }
    }

    /** All handles move to a table of the next power of two; the map stays. */
    method Resize()
      requires |list| == length && elems == |dict|
      requires Chains(list, nextHash, chains) && Buckets(keyed, dict, chains)
      modifies this
      ensures Valid() && dict == old(dict) && keyed == old(keyed) && elems == old(elems)
    {
      hide *;
      var newLength := 4;
      FourIsPower();
      while newLength < elems
        invariant unchanged(this) && newLength >= 4 && IsPowerOfTwo(newLength)
        decreases elems - newLength
      {
        PowerOfTwoDoubles(newLength);
        newLength := newLength * 2;
      }
      var newList: seq<Link> := seq(newLength, _ => None);
      ghost var newChains: seq<seq<Ref>> := seq(newLength, _ => []);
      ghost var moved: map<HashedKey, Ref> := map[];
      ghost var j: nat;
      var i, count := 0, 0;
      MovingStart(list, keyed, dict, chains, nextHash, newList, newChains);
      SameLength(list, nextHash, chains);
      while i < length
        invariant unchanged(`list, `length, `chains, `keyed, `dict, `elems)
        invariant i <= length && |newList| == newLength == |newChains| && count == |moved|
        invariant Moving(list, keyed, dict, chains, nextHash, newList, newChains, moved, i, 0, if i < |list| then list[i] else None)
      {
        var h := list[i];
        j := 0;
        while h != None
          invariant unchanged(`list, `length, `chains, `keyed, `dict, `elems)
          invariant |newList| == newLength == |newChains| && count == |moved|
          invariant Moving(list, keyed, dict, chains, nextHash, newList, newChains, moved, i, j, h)
          invariant j <= |chains[i]|
          decreases |chains[i]| - j
        {
          var r := h.value;
          MovingStep(list, keyed, dict, chains, nextHash, newList, newChains, moved, i, j, r);
          var next := nextHash[r];
          var b := keyed[r].hash % newLength;
          moved, newChains := moved[keyed[r] := r], newChains[b := [r] + newChains[b]];
          nextHash := nextHash[r := newList[b]];
          newList := newList[b := Some(r)];
          h, j, count := next, j + 1, count + 1;
        }
        MovingNext(list, keyed, dict, chains, nextHash, newList, newChains, moved, i, j);
        i := i + 1;
      }
      MovingDone(list, keyed, dict, chains, nextHash, newList, newChains, moved);
      assert elems == count;
      list, length, chains := newList, newLength, newChains;
      Whole();
    }
  }
}
