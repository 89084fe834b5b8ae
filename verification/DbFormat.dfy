/** Internal keys (db/dbformat.h, db/dbformat.cc): a user key, a sequence number and a value
    type, ordered by user key ascending and then by the packed (sequence, type) tag descending. */
module DbFormat {

  // A user key stands for its position in the order of the user comparator. A comparator is a
  // total order on the countable set of byte strings, and every such order embeds in the reals.
  type UserKey = real

  type Value = string

  const MAX_SEQUENCE_NUMBER: nat := 0xFF_FFFF_FFFF_FFFF  // 2^56 - 1
  const NUM_LEVELS: nat := 7
  const MAX_MEM_COMPACT_LEVEL: nat := 2

  type SequenceNumber = s: nat | s <= MAX_SEQUENCE_NUMBER

  datatype ValueType = TypeDeletion | TypeValue {
    function Code(): nat { if TypeDeletion? then 0 else 1 }
  }

  datatype InternalKey = InternalKey(user: UserKey, sn: SequenceNumber, typ: ValueType) {
    // The low eight bits of the tag hold the type, the rest the sequence number.
    function Tag(): nat { sn * 256 + typ.Code() }
  }

  datatype Entry = Entry(key: InternalKey, value: Value)

  /** The key that sorts before every entry of `user` visible at `sn` (kValueTypeForSeek). */
  function LookupKey(user: UserKey, sn: SequenceNumber): InternalKey {
    InternalKey(user, sn, TypeValue)
  }

  /** InternalKeyComparator::Compare. */
  function Compare(a: InternalKey, b: InternalKey): int {
    if a.user < b.user then -1
    else if a.user > b.user then 1
    else if a.Tag() > b.Tag() then -1
    else if a.Tag() < b.Tag() then 1
    else 0
  }

  predicate Before(a: InternalKey, b: InternalKey) { Compare(a, b) < 0 }

  predicate AtOrBefore(a: InternalKey, b: InternalKey) { Compare(a, b) <= 0 }

  /** Unpacking the tag loses nothing, so keys that compare equal are equal, and within one
      user key the order is newest first. */
  lemma CompareMeaning(a: InternalKey, b: InternalKey)
    ensures Compare(a, b) == 0 <==> a == b
    ensures Compare(a, b) == -Compare(b, a)
    ensures a.user == b.user && a.sn > b.sn ==> Before(a, b)
    ensures a.user == b.user && Before(a, b) ==> a.sn >= b.sn
  {
  }

  /** The entries of a table, a memtable or a merged input: strictly ascending internal keys. */
  ghost predicate Sorted(es: seq<Entry>) {
    forall i, j :: 0 <= i < j < |es| ==> Before(es[i].key, es[j].key)
  }

  /** Two sorted sequences with the same entries are the same sequence. */
  lemma {:induction false} SortedUnique(a: seq<Entry>, b: seq<Entry>)
    requires Sorted(a) && Sorted(b)
    requires forall e :: e in a <==> e in b
    ensures a == b
  {
    if a == [] {
      assert b == [] by { assert forall i :: 0 <= i < |b| ==> b[i] in b; }
    } else {
      assert a[0] in b && b[0] in a;
      assert a[0] == b[0];
      forall e ensures e in a[1..] <==> e in b[1..] {
        if e in a[1..] { assert e in a && e != a[0]; assert e in b; }
        if e in b[1..] { assert e in b && e != b[0]; assert e in a; }
      }
      SortedUnique(a[1..], b[1..]);
      assert a == [a[0]] + a[1..] && b == [b[0]] + b[1..];
    }
  }
}
