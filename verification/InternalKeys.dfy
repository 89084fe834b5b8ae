/** Internal keys as bytes (db/dbformat.cc, db/dbformat.h) and the bytewise order of user keys
    (util/comparator.cc), with the shortened keys that index blocks use. */
module InternalKeys {
  import opened Wrappers
  import opened Coding

  /** Slice::compare: unsigned bytes from the left, a prefix before what it starts. */
  function CompareBytes(a: Bytes, b: Bytes): int {
    if a == [] then (if b == [] then 0 else -1)
    else if b == [] then 1
    else if a[0] < b[0] then -1
    else if a[0] > b[0] then 1
    else CompareBytes(a[1..], b[1..])
  }

  lemma {:induction false} ComparesEqual(a: Bytes, b: Bytes)
    ensures CompareBytes(a, b) == 0 <==> a == b
    ensures CompareBytes(a, b) < 0 <==> CompareBytes(b, a) > 0
  {
    if a != [] && b != [] && a[0] == b[0] {
      ComparesEqual(a[1..], b[1..]);
      assert a == [a[0]] + a[1..] && b == [b[0]] + b[1..];
    }
  }

  lemma {:induction false} ComparesTransitively(a: Bytes, b: Bytes, c: Bytes)
    requires CompareBytes(a, b) <= 0 && CompareBytes(b, c) <= 0
    ensures CompareBytes(a, c) <= 0
    ensures CompareBytes(a, b) < 0 || CompareBytes(b, c) < 0 ==> CompareBytes(a, c) < 0
  {
    if a != [] && b != [] && c != [] && a[0] == b[0] == c[0] {
      ComparesTransitively(a[1..], b[1..], c[1..]);
    }
  }

  /** The first byte that differs decides. */
  lemma {:induction false} FirstDifferenceDecides(a: Bytes, b: Bytes, n: nat)
    requires n < |a| && n < |b| && a[..n] == b[..n] && a[n] < b[n]
    ensures CompareBytes(a, b) < 0
  {
    if n > 0 {
      assert a[..n][0] == b[..n][0];
      assert a[1..][..n - 1] == a[..n][1..] && b[1..][..n - 1] == b[..n][1..];
      FirstDifferenceDecides(a[1..], b[1..], n - 1);
    }
  }

  /** Where the keys first differ there is a byte between theirs. */
  predicate GapAt(start: Bytes, limit: Bytes, d: nat) {
    d < |start| && d < |limit| && start[..d] == limit[..d] && start[d] < 0xff && (start[d] as int) + 1 < limit[d]
  }

  /** FindShortestSeparator: `start` is cut after its first difference from `limit`, raised by one, if
      that still comes before `limit`; else it stays. */
  method FindShortestSeparator(start: Bytes, limit: Bytes) returns (r: Bytes)
    ensures r == start || (CompareBytes(start, r) < 0 && CompareBytes(r, limit) < 0 && |r| <= |start|)
    ensures forall d: nat :: GapAt(start, limit, d) ==> |r| == d + 1 && r[..d] == start[..d] && r[d] == (start[d] as int) + 1
    ensures (forall d: nat :: !GapAt(start, limit, d)) ==> r == start
  {
    var minLength := if |start| < |limit| then |start| else |limit|;
    var diffIndex := 0;
    while diffIndex < minLength && start[diffIndex] == limit[diffIndex]
      invariant 0 <= diffIndex <= minLength && start[..diffIndex] == limit[..diffIndex]
    {
      diffIndex := diffIndex + 1;
    }
    r := start;
    forall d: nat | GapAt(start, limit, d) ensures d == diffIndex {
      SamePrefix(start, limit, d);
      SamePrefix(start, limit, diffIndex);
    }
    if diffIndex < minLength {
      var diffByte: int := start[diffIndex];
      if diffByte < 0xff && diffByte + 1 < limit[diffIndex] {
        assert GapAt(start, limit, diffIndex);
        r := start[..diffIndex] + [diffByte + 1];
        assert r[..diffIndex] == start[..diffIndex];
        FirstDifferenceDecides(start, r, diffIndex);
        FirstDifferenceDecides(r, limit, diffIndex);
      }
    }
  }

  /** The first byte that can be raised. */
  predicate RaisedAt(key: Bytes, i: nat) {
    i < |key| && key[i] != 0xff && forall j :: 0 <= j < i ==> key[j] == 0xff
  }

  /** FindShortSuccessor: the key is cut after its first byte that can be raised, raised by one. */
  method FindShortSuccessor(key: Bytes) returns (r: Bytes)
    ensures r == key || (CompareBytes(key, r) < 0 && |r| <= |key|)
    ensures forall i: nat :: RaisedAt(key, i) ==> |r| == i + 1 && r[..i] == key[..i] && r[i] == (key[i] as int) + 1
    ensures (forall i: nat :: !RaisedAt(key, i)) ==> r == key
  {
    for i := 0 to |key|
      invariant forall j :: 0 <= j < i ==> key[j] == 0xff
    {
      var b: int := key[i];
      if b != 0xff {
        assert RaisedAt(key, i);
        r := key[..i] + [b + 1];
        assert r[..i] == key[..i];
        FirstDifferenceDecides(key, r, i);
        return;
      }
    }
    r := key;
  }

  const MAX_SEQUENCE: nat := 0xff_ffff_ffff_ffff
  const TYPE_DELETION: nat := 0
  const TYPE_VALUE: nat := 1
  const TYPE_FOR_SEEK: nat := 1

  datatype ParsedKey = ParsedKey(user: Bytes, sequence: nat, typ: nat)

  function Pack(sequence: nat, typ: nat): (r: nat)
    requires sequence <= MAX_SEQUENCE && typ < 256
    ensures r < TWO_TO_THE_64
  {
    sequence * 256 + typ
  }

  function InternalKeyOf(k: ParsedKey): (r: Bytes)
    requires k.sequence <= MAX_SEQUENCE && k.typ <= TYPE_VALUE
    ensures |r| == |k.user| + 8
  {
    k.user + EncodeFixed64(Pack(k.sequence, k.typ))
  }

  function UserOf(key: Bytes): Bytes {
    if |key| < 8 then [] else key[..|key| - 8]
  }

  function TagOf(key: Bytes): nat {
    if |key| < 8 then 0 else DecodeFixed64(key[|key| - 8..])
  }

  /** ParseInternalKey. */
  function ParseInternalKey(key: Bytes): Option<ParsedKey> {
    if |key| < 8 then None
    else
      var tag := TagOf(key);
      if tag % 256 > TYPE_VALUE then None else Some(ParsedKey(UserOf(key), tag / 256, tag % 256))
  }

  lemma PartsOfKey(user: Bytes, sequence: nat, typ: nat)
    requires sequence <= MAX_SEQUENCE && typ <= TYPE_VALUE
    ensures var key := InternalKeyOf(ParsedKey(user, sequence, typ)); UserOf(key) == user && TagOf(key) == Pack(sequence, typ)
  {
    hide EncodeFixed64, DecodeFixed64;
    var key, tag := InternalKeyOf(ParsedKey(user, sequence, typ)), EncodeFixed64(Pack(sequence, typ));
    assert key[|key| - 8..] == tag && key[..|key| - 8] == user && tag + [] == tag;
    Fixed64RoundTrip(Pack(sequence, typ), []);
  }

  lemma KeyRoundTrip(k: ParsedKey)
    requires k.sequence <= MAX_SEQUENCE && k.typ <= TYPE_VALUE
    ensures ParseInternalKey(InternalKeyOf(k)) == Some(k)
  {
    hide EncodeFixed64, DecodeFixed64, TagOf, UserOf;
    PartsOfKey(k.user, k.sequence, k.typ);
    Unpacked(k.sequence, k.typ);
  }

  lemma Unpacked(sequence: nat, typ: nat)
    requires sequence <= MAX_SEQUENCE && typ < 256
    ensures Pack(sequence, typ) / 256 == sequence && Pack(sequence, typ) % 256 == typ
  {
  }

  /** InternalKeyComparator: user keys ascending, then sequence and type descending. */
  function CompareKeys(a: Bytes, b: Bytes): int {
    var r := CompareBytes(UserOf(a), UserOf(b));
    if r != 0 then r
    else if TagOf(a) > TagOf(b) then -1
    else if TagOf(a) < TagOf(b) then 1
    else 0
  }

  /** On encoded keys: by user key, then later sequence first, then greater type first. */
  lemma EncodedOrder(a: ParsedKey, b: ParsedKey)
    requires a.sequence <= MAX_SEQUENCE && a.typ <= TYPE_VALUE && b.sequence <= MAX_SEQUENCE && b.typ <= TYPE_VALUE
    ensures CompareKeys(InternalKeyOf(a), InternalKeyOf(b)) < 0 <==>
      || CompareBytes(a.user, b.user) < 0
      || (a.user == b.user && (a.sequence > b.sequence || (a.sequence == b.sequence && a.typ > b.typ)))
  {
    hide InternalKeyOf, TagOf, UserOf, CompareBytes;
    PartsOfKey(a.user, a.sequence, a.typ);
    PartsOfKey(b.user, b.sequence, b.typ);
    ComparesEqual(a.user, b.user);
  }

  lemma KeysTransitive(a: Bytes, b: Bytes, c: Bytes)
    ensures CompareKeys(a, b) < 0 && CompareKeys(b, c) <= 0 ==> CompareKeys(a, c) < 0
    ensures CompareKeys(a, b) <= 0 && CompareKeys(b, c) < 0 ==> CompareKeys(a, c) < 0
  {
    hide CompareBytes, TagOf, UserOf;
    if CompareKeys(a, b) <= 0 && CompareKeys(b, c) <= 0 {
      ComparesTransitively(UserOf(a), UserOf(b), UserOf(c));
      ComparesEqual(UserOf(a), UserOf(c));
      ComparesEqual(UserOf(a), UserOf(b));
      ComparesEqual(UserOf(b), UserOf(c));
    }
  }

  lemma KeysOpposite(a: Bytes, b: Bytes)
    ensures CompareKeys(a, b) < 0 <==> CompareKeys(b, a) > 0
  {
    ComparesEqual(UserOf(a), UserOf(b));
    ComparesEqual(UserOf(b), UserOf(a));
  }

  /** The internal separator stays the key it was, or its user key lies strictly between. */
  ghost predicate Separates(start: Bytes, r: Bytes, limit: Bytes) {
    r == start ||
    (CompareBytes(UserOf(start), UserOf(r)) < 0 && CompareBytes(UserOf(r), UserOf(limit)) < 0)
  }

  method FindInternalSeparator(start: Bytes, limit: Bytes) returns (r: Bytes)
    requires |start| >= 8 && |limit| >= 8
    ensures Separates(start, r, limit) && |r| <= |start|
    ensures forall d: nat :: GapAt(UserOf(start), UserOf(limit), d) && d + 1 < |UserOf(start)| ==> |UserOf(r)| == d + 1
    ensures (forall d: nat :: !(GapAt(UserOf(start), UserOf(limit), d) && d + 1 < |UserOf(start)|)) ==> r == start
    ensures r == start || r == UserOf(r) + EncodeFixed64(Pack(MAX_SEQUENCE, TYPE_FOR_SEEK))
  {
    var userStart, userLimit := UserOf(start), UserOf(limit);
    var tmp := FindShortestSeparator(userStart, userLimit);
    if |tmp| < |userStart| && CompareBytes(userStart, tmp) < 0 {
      r := tmp + EncodeFixed64(Pack(MAX_SEQUENCE, TYPE_FOR_SEEK));
      PartsOfKey(tmp, MAX_SEQUENCE, TYPE_FOR_SEEK);
    } else {
      r := start;
    }
  }

  method FindInternalSuccessor(key: Bytes) returns (r: Bytes)
    requires |key| >= 8
    ensures (r == key || CompareBytes(UserOf(key), UserOf(r)) < 0) && |r| <= |key|
    ensures forall i: nat :: RaisedAt(UserOf(key), i) && i + 1 < |UserOf(key)| ==> |UserOf(r)| == i + 1
    ensures (forall i: nat :: !(RaisedAt(UserOf(key), i) && i + 1 < |UserOf(key)|)) ==> r == key
    ensures r == key || r == UserOf(r) + EncodeFixed64(Pack(MAX_SEQUENCE, TYPE_FOR_SEEK))
  {
    var user := UserOf(key);
    var tmp := FindShortSuccessor(user);
    if |tmp| < |user| && CompareBytes(user, tmp) < 0 {
      r := tmp + EncodeFixed64(Pack(MAX_SEQUENCE, TYPE_FOR_SEEK));
      PartsOfKey(tmp, MAX_SEQUENCE, TYPE_FOR_SEEK);
    } else {
      r := key;
    }
  }

  /** An index key lies at or after the last key of its block and before the first of the next. */
  lemma SeparatorLiesBetween(start: Bytes, r: Bytes, limit: Bytes)
    requires CompareKeys(start, limit) < 0 && Separates(start, r, limit)
    ensures CompareKeys(start, r) <= 0 && CompareKeys(r, limit) < 0
  {
    ComparesEqual(UserOf(start), UserOf(start));
  }

  /** A target between a block's last key and its index key has a user key that no later block has. */
  lemma GapHasNoUser(last: Bytes, r: Bytes, next: Bytes, target: Bytes, key: Bytes)
    requires Separates(last, r, next) && CompareKeys(last, target) < 0 && CompareKeys(target, r) <= 0
    requires CompareKeys(next, key) <= 0
    ensures UserOf(key) != UserOf(target)
  {
    hide CompareBytes, TagOf, UserOf;
    KeysOpposite(last, target);
    assert r != last;
    ComparesEqual(UserOf(target), UserOf(key));
    ComparesTransitively(UserOf(target), UserOf(r), UserOf(next));
    ComparesTransitively(UserOf(target), UserOf(next), UserOf(key));
  }
}
