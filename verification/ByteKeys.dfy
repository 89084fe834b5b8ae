/** From bytes to the keys of the store modules: an explicit embedding of byte strings, in bytewise
    order, into the reals, and with it the decoding of stored keys and entries. */
module ByteKeys {
  import opened Wrappers
  import opened Coding
  import opened InternalKeys
  import opened Blocks
  import opened DbFormat
  import opened Versions
  import opened States
  import opened Lookup

  /** The digits of a fraction in base 257, where a string that ends has digit zero from there on. */
  function Rank(s: Bytes): (r: UserKey)
    ensures 0.0 <= r < 1.0
  {
    if s == [] then 0.0 else (((s[0] as int) + 1) as real + Rank(s[1..])) / 257.0
  }

  lemma {:induction false} RankOrder(a: Bytes, b: Bytes)
    ensures CompareBytes(a, b) == if Rank(a) < Rank(b) then -1 else if Rank(a) > Rank(b) then 1 else 0
  {
    if a != [] && b != [] && a[0] == b[0] {
      RankOrder(a[1..], b[1..]);
    }
  }

  /** MAIN: so bytewise comparison is comparison of ranks, and a rank names one string. */
  lemma RankEmbeds(a: Bytes, b: Bytes)
    ensures CompareBytes(a, b) < 0 <==> Rank(a) < Rank(b)
    ensures a == b <==> Rank(a) == Rank(b)
  {
    RankOrder(a, b);
    ComparesEqual(a, b);
  }

  predicate IsKey(k: Bytes) { ParseInternalKey(k).Some? }

  /** The key that its bytes stand for. */
  function KeyOf(k: Bytes): InternalKey
    requires IsKey(k)
  {
    TagFits(k);
    var p := ParseInternalKey(k).value;
    InternalKey(Rank(p.user), p.sequence, if p.typ == TYPE_VALUE then TypeValue else TypeDeletion)
  }

  lemma TagFits(k: Bytes)
    requires IsKey(k)
    ensures ParseInternalKey(k).value.sequence <= MAX_SEQUENCE_NUMBER && ParseInternalKey(k).value.typ <= TYPE_VALUE
    ensures TagOf(k) == ParseInternalKey(k).value.sequence * 256 + ParseInternalKey(k).value.typ
    ensures ParseInternalKey(k).value.user == UserOf(k)
  {
    hide DecodeFixed32;
    assert TagOf(k) < TWO_TO_THE_64;
  }

  /** InternalKeyComparator gives bytes and keys the same order. */
  lemma KeyOrder(a: Bytes, b: Bytes)
    requires IsKey(a) && IsKey(b)
    ensures CompareKeys(a, b) == Compare(KeyOf(a), KeyOf(b))
  {
    TagFits(a);
    TagFits(b);
    hide ParseInternalKey, TagOf, UserOf, CompareBytes, Rank;
    RankOrder(UserOf(a), UserOf(b));
  }

  /** The bytes a lookup seeks (LookupKey in db/dbformat.cc). */
  function SeekBytes(user: Bytes, s: SequenceNumber): Bytes {
    InternalKeyOf(ParsedKey(user, s, TYPE_FOR_SEEK))
  }

  lemma SeekBytesIs(user: Bytes, s: SequenceNumber)
    ensures IsKey(SeekBytes(user, s)) && KeyOf(SeekBytes(user, s)) == LookupKey(Rank(user), s) && UserOf(SeekBytes(user, s)) == user
  {
    hide InternalKeyOf, ParseInternalKey, UserOf, TagOf, Rank;
    KeyRoundTrip(ParsedKey(user, s, TYPE_FOR_SEEK));
    PartsOfKey(user, s, TYPE_FOR_SEEK);
  }

  function Text(v: Bytes): (r: Value)
    ensures |r| == |v|
  {
    seq(|v|, i requires 0 <= i < |v| => v[i] as char)
  }

  function EntryOf(e: KeyValue): Entry
    requires IsKey(e.key)
  {
    Entry(KeyOf(e.key), Text(e.value))
  }

  ghost predicate AllKeys(kvs: seq<KeyValue>) {
    forall i :: 0 <= i < |kvs| ==> IsKey(kvs[i].key)
  }

  /** What a list of stored pairs holds. */
  ghost function EntriesIn(kvs: seq<KeyValue>): (r: seq<Entry>)
    requires AllKeys(kvs)
    ensures |r| == |kvs| && forall i :: 0 <= i < |r| ==> r[i] == EntryOf(kvs[i])
  {
    seq(|kvs|, i requires 0 <= i < |kvs| => EntryOf(kvs[i]))
  }

  lemma AscendingIsSorted(kvs: seq<KeyValue>)
    requires AllKeys(kvs)
    ensures Ascending(CompareKeys, kvs) <==> Sorted(EntriesIn(kvs))
  {
    hide IsKey, KeyOf, CompareKeys, Compare;
    forall i, j | 0 <= i < j < |kvs| ensures CompareKeys(kvs[i].key, kvs[j].key) == Compare(KeyOf(kvs[i].key), KeyOf(kvs[j].key)) {
      KeyOrder(kvs[i].key, kvs[j].key);
    }
    forall i, j | 0 <= i < j < |kvs|
      ensures CompareKeys(kvs[i].key, kvs[j].key) < 0 <==> Before(EntriesIn(kvs)[i].key, EntriesIn(kvs)[j].key)
    {
    }
  }

  /** The pair is the first at or past the key; or there is none, and no pair at or past the key has
      its user key. */
  ghost predicate FirstOrNone(kvs: seq<KeyValue>, k: Bytes, r: Option<KeyValue>) {
    if r.Some? then
      && r.value in kvs && CompareKeys(r.value.key, k) >= 0
      && forall e :: e in kvs && CompareKeys(e.key, k) >= 0 ==> CompareKeys(r.value.key, e.key) <= 0
    else
      forall e :: e in kvs && UserOf(e.key) == UserOf(k) ==> CompareKeys(e.key, k) < 0
  }

  lemma OrderAt(kvs: seq<KeyValue>, i: nat, user: Bytes, s: SequenceNumber)
    requires AllKeys(kvs) && i < |kvs|
    ensures CompareKeys(kvs[i].key, SeekBytes(user, s)) == Compare(EntriesIn(kvs)[i].key, LookupKey(Rank(user), s))
  {
    SeekBytesIs(user, s);
    hide IsKey, KeyOf, CompareKeys, SeekBytes, Rank, LookupKey, Compare, UserOf;
    KeyOrder(kvs[i].key, SeekBytes(user, s));
  }

  lemma SeekStops(es: seq<Entry>, key: InternalKey, j: nat)
    requires j < |es| && AtOrBefore(key, es[j].key) && forall i :: 0 <= i < j ==> Before(es[i].key, key)
    ensures Seek(es, key) == j
  {
    CompareMeaning(key, es[j].key);
  }

  lemma FirstIsSeek(kvs: seq<KeyValue>, user: Bytes, s: SequenceNumber, r: KeyValue)
    requires AllKeys(kvs) && Sorted(EntriesIn(kvs)) && FirstOrNone(kvs, SeekBytes(user, s), Some(r))
    ensures var i := Seek(EntriesIn(kvs), LookupKey(Rank(user), s)); i < |kvs| && kvs[i] == r
  {
    var es, key, k := EntriesIn(kvs), LookupKey(Rank(user), s), SeekBytes(user, s);
    hide KeyOf, CompareKeys, SeekBytes, Rank, LookupKey, Seek, Text, ParseInternalKey;
    var j :| 0 <= j < |kvs| && kvs[j] == r;
    OrderAt(kvs, j, user, s);
    CompareMeaning(es[j].key, key);
    forall i | 0 <= i < j ensures Before(es[i].key, key) {
      OrderAt(kvs, i, user, s);
      if CompareKeys(kvs[i].key, k) >= 0 {
        assert kvs[i] in kvs && CompareKeys(r.key, kvs[i].key) <= 0;
        KeyOrder(r.key, kvs[i].key);
        CompareMeaning(es[i].key, es[j].key);
      }
    }
    SeekStops(es, key, j);
  }

  /** Such a pair is what a search of the decoded entries ends at. */
  lemma FirstIsGet(kvs: seq<KeyValue>, user: Bytes, s: SequenceNumber, r: Option<KeyValue>)
    requires AllKeys(kvs) && Sorted(EntriesIn(kvs)) && FirstOrNone(kvs, SeekBytes(user, s), r)
    ensures r.Some? ==> IsKey(r.value.key)
    ensures GetFrom(EntriesIn(kvs), Rank(user), s) ==
      if r.Some? && UserOf(r.value.key) == user then Some(EntryOf(r.value)) else None
  {
    var es, key, k := EntriesIn(kvs), LookupKey(Rank(user), s), SeekBytes(user, s);
    var i := Seek(es, key);
    SeekBytesIs(user, s);
    if i < |kvs| {
      SameUser(kvs[i].key, user);
      OrderAt(kvs, i, user, s);
      CompareMeaning(es[i].key, key);
      assert kvs[i] in kvs;
    }
    hide KeyOf, CompareKeys, SeekBytes, Rank, LookupKey, Seek, Text, ParseInternalKey, UserOf;
    if r.Some? {
      FirstIsSeek(kvs, user, s, r.value);
    }
  }

  lemma SameUser(k: Bytes, user: Bytes)
    requires IsKey(k)
    ensures KeyOf(k).user == Rank(user) <==> UserOf(k) == user
  {
    TagFits(k);
    RankEmbeds(UserOf(k), user);
  }
}
