/** Blocks (table/block_builder.cc, table/block.cc): sorted keys with shared prefixes left out,
    except at restart points, and a cursor that finds its way by them. */
module Blocks {
  import opened Wrappers
  import opened Coding

  datatype KeyValue = KeyValue(key: Bytes, value: Bytes)

  type Comparator = (Bytes, Bytes) -> int

  function CommonPrefix(a: Bytes, b: Bytes): (n: nat)
    ensures n <= |a| && n <= |b| && a[..n] == b[..n]
    ensures n < |a| && n < |b| ==> a[n] != b[n]
  {
    if a == [] || b == [] || a[0] != b[0] then 0
    else
      var n := CommonPrefix(a[1..], b[1..]);
      assert a[..n + 1] == [a[0]] + a[1..][..n] && b[..n + 1] == [b[0]] + b[1..][..n];
      n + 1
  }

  /** Restart points, as entry numbers: the first entry and later ones in order. */
  ghost predicate GoodRestarts(restarts: seq<nat>, n: nat) {
    && restarts != [] && restarts[0] == 0
    && (forall j, k :: 0 <= j < k < |restarts| ==> restarts[j] < restarts[k])
    && (forall k :: 0 < k < |restarts| ==> restarts[k] < n)
  }

  predicate Within(restarts: seq<nat>, n: nat) {
    forall k :: 0 <= k < |restarts| ==> restarts[k] <= n
  }

  /** How much of its key an entry leaves out. */
  function Shared(es: seq<KeyValue>, restarts: seq<nat>, i: nat): (n: nat)
    requires i < |es|
    ensures n <= |es[i].key| && (n > 0 ==> i > 0 && n <= |es[i - 1].key| && es[i - 1].key[..n] == es[i].key[..n])
  {
    if i == 0 || i in restarts then 0 else CommonPrefix(es[i - 1].key, es[i].key)
  }

  function EntryHeader(shared: nat, e: KeyValue): Bytes
    requires shared <= |e.key|
  {
    Varint(shared) + Varint(|e.key| - shared) + Varint(|e.value|)
  }

  function EntryBytes(shared: nat, e: KeyValue): (r: Bytes)
    requires shared <= |e.key|
    ensures |r| >= 3
  {
    EntryHeader(shared, e) + e.key[shared..] + e.value
  }

  function Encoded(es: seq<KeyValue>, restarts: seq<nat>, n: nat): Bytes
    requires n <= |es|
  {
    if n == 0 then [] else Encoded(es, restarts, n - 1) + EntryBytes(Shared(es, restarts, n - 1), es[n - 1])
  }

  function Offset(es: seq<KeyValue>, restarts: seq<nat>, i: nat): nat
    requires i <= |es|
  {
    |Encoded(es, restarts, i)|
  }

  lemma {:induction false} EncodedPrefix(es: seq<KeyValue>, restarts: seq<nat>, m: nat, n: nat)
    requires m <= n <= |es|
    ensures Encoded(es, restarts, m) <= Encoded(es, restarts, n)
    ensures m < n ==> Offset(es, restarts, m) < Offset(es, restarts, n)
    decreases n
  {
    if m < n {
      assert |EntryBytes(Shared(es, restarts, n - 1), es[n - 1])| >= 3;
      hide EntryBytes, Shared;
      EncodedPrefix(es, restarts, m, n - 1);
    }
  }

  function Offsets(es: seq<KeyValue>, restarts: seq<nat>): (r: seq<nat>)
    requires Within(restarts, |es|)
    ensures |r| == |restarts| && forall k :: 0 <= k < |r| ==> r[k] == Offset(es, restarts, restarts[k])
  {
    seq(|restarts|, k requires 0 <= k < |restarts| => Offset(es, restarts, restarts[k]))
  }

  /** The finished block: entries, restart offsets and their number. */
  ghost predicate IsBlock(data: Bytes, es: seq<KeyValue>, restarts: seq<nat>) {
    && GoodRestarts(restarts, |es|)
    && |data| < TWO_TO_THE_32 && ShortKeys(es)
    && Within(restarts, |es|)
    && Fits(Offsets(es, restarts))
    && |restarts| < TWO_TO_THE_32
    && data == Encoded(es, restarts, |es|) + FixedArray(Offsets(es, restarts)) + EncodeFixed32(|restarts|)
  }

  /** A restart point every `interval` entries. */
  ghost predicate EveryInterval(restarts: seq<nat>, interval: nat) {
    forall k :: 0 < k < |restarts| ==> restarts[k] == restarts[k - 1] + interval
  }

  /** Of n entries those are restart points whose number is a multiple of the interval. */
  ghost predicate RestartsAt(restarts: seq<nat>, interval: nat, n: nat) {
    && (forall k :: 0 <= k < |restarts| ==> restarts[k] == k * interval)
    && n <= |restarts| * interval && (n > 0 ==> (|restarts| - 1) * interval < n)
  }

  lemma {:induction false} EveryIntervalAt(interval: nat, restarts: seq<nat>, k: nat)
    requires restarts != [] && restarts[0] == 0 && EveryInterval(restarts, interval) && k < |restarts|
    ensures restarts[k] == k * interval
  {
    if k > 0 {
      EveryIntervalAt(interval, restarts, k - 1);
      OneMore(k, interval);
    }
  }

  lemma OneMore(k: nat, interval: nat)
    requires k > 0
    ensures k * interval == (k - 1) * interval + interval
  {
  }

  lemma EveryIntervalMeans(interval: nat, restarts: seq<nat>, n: nat)
    requires GoodRestarts(restarts, n) && EveryInterval(restarts, interval) && n <= restarts[|restarts| - 1] + interval
    ensures RestartsAt(restarts, interval, n)
  {
    forall k | 0 <= k < |restarts| ensures restarts[k] == k * interval {
      EveryIntervalAt(interval, restarts, k);
    }
    OneMore(|restarts|, interval);
    assert |restarts| == 1 ==> restarts[|restarts| - 1] == 0;
  }

  lemma EntrySize(shared: nat, e: KeyValue)
    requires shared <= |e.key| < TWO_TO_THE_32 && |e.value| < TWO_TO_THE_32
    ensures |EntryBytes(shared, e)| <= |e.key| + |e.value| + 15
  {
    VarintLengths(shared);
    VarintLengths(|e.key| - shared);
    VarintLengths(|e.value|);
    hide Varint;
  }

  /** What the fields of a builder stand for. */
  ghost predicate Built(interval: nat, buffer: Bytes, offsets: seq<nat>, counter: nat, lastKey: Bytes, es: seq<KeyValue>, restarts: seq<nat>) {
    && GoodRestarts(restarts, |es|) && EveryInterval(restarts, interval)
    && ShortKeys(es)
    && Within(restarts, |es|)
    && buffer == Encoded(es, restarts, |es|) && offsets == Offsets(es, restarts)
    && lastKey == (if es == [] then [] else es[|es| - 1].key)
    && counter == |es| - restarts[|restarts| - 1] <= interval
  }

  /** Entries and restart points added later leave the encoding of the earlier entries alone. */
  lemma {:induction false} EncodedKept(es: seq<KeyValue>, restarts: seq<nat>, es': seq<KeyValue>, restarts': seq<nat>, n: nat)
    requires n <= |es| && es <= es'
    requires forall i :: 0 <= i < n ==> (i in restarts <==> i in restarts')
    ensures Encoded(es', restarts', n) == Encoded(es, restarts, n)
  {
    if n > 0 {
      EncodedKept(es, restarts, es', restarts', n - 1);
    }
  }

  ghost predicate ShortKeys(es: seq<KeyValue>) {
    forall i :: 0 <= i < |es| ==> |es[i].key| < TWO_TO_THE_32
  }

  function WithRestart(restarts: seq<nat>, i: nat, restart: bool): seq<nat> {
    if restart then restarts + [i] else restarts
  }

  lemma AddEncoded(es: seq<KeyValue>, restarts: seq<nat>, e: KeyValue, restart: bool)
    requires GoodRestarts(restarts, |es|)
    ensures var es', restarts' := es + [e], WithRestart(restarts, |es|, restart);
      && (forall n :: 0 <= n <= |es| ==> Encoded(es', restarts', n) == Encoded(es, restarts, n))
      && Encoded(es', restarts', |es'|) == Encoded(es, restarts, |es|) +
           EntryBytes(if restart || es == [] then 0 else CommonPrefix(es[|es| - 1].key, e.key), e)
  {
    hide EntryBytes;
    var es', restarts' := es + [e], WithRestart(restarts, |es|, restart);
    forall n | 0 <= n <= |es| ensures Encoded(es', restarts', n) == Encoded(es, restarts, n) {
      assert forall i :: 0 <= i < n ==> (i in restarts <==> i in restarts');
      EncodedKept(es, restarts, es', restarts', n);
    }
    assert restart ==> restarts'[|restarts|] == |es|;
    assert !restart && es != [] ==> |es| !in restarts';
    hide CommonPrefix;
    assert es'[..|es|] == es && es'[|es|] == e;
  }

  lemma AddRestart(es: seq<KeyValue>, restarts: seq<nat>, e: KeyValue, restart: bool)
    requires GoodRestarts(restarts, |es|) && Within(restarts, |es|)
    requires restart ==> es != []
    ensures GoodRestarts(WithRestart(restarts, |es|, restart), |es + [e]|) && Within(WithRestart(restarts, |es|, restart), |es + [e]|)
  {
  }

  lemma AddOffsets(es: seq<KeyValue>, restarts: seq<nat>, e: KeyValue, restart: bool)
    requires GoodRestarts(restarts, |es|) && Within(restarts, |es|)
    requires Within(WithRestart(restarts, |es|, restart), |es + [e]|)
    ensures Offsets(es + [e], WithRestart(restarts, |es|, restart)) ==
      WithRestart(Offsets(es, restarts), Offset(es, restarts, |es|), restart)
  {
    hide Shared, Encoded, GoodRestarts;
    AddEncoded(es, restarts, e, restart);
    var es', restarts' := es + [e], WithRestart(restarts, |es|, restart);
    var offsets, offsets' := Offsets(es, restarts), Offsets(es', restarts');
    forall k | 0 <= k < |restarts| ensures offsets'[k] == offsets[k] {
      assert restarts'[k] == restarts[k] <= |es|;
      assert Encoded(es', restarts', restarts[k]) == Encoded(es, restarts, restarts[k]);
    }
    assert Encoded(es', restarts', |es|) == Encoded(es, restarts, |es|);
  }

  lemma BuiltAdd(interval: nat, buffer: Bytes, offsets: seq<nat>, counter: nat, lastKey: Bytes, es: seq<KeyValue>,
                 restarts: seq<nat>, e: KeyValue, restart: bool)
    requires interval > 0 && Built(interval, buffer, offsets, counter, lastKey, es, restarts) && |e.key| < TWO_TO_THE_32
    requires restart <==> counter >= interval
    ensures Built(interval, buffer + EntryBytes(if restart then 0 else CommonPrefix(lastKey, e.key), e),
                  WithRestart(offsets, |buffer|, restart), (if restart then 0 else counter) + 1, e.key, es + [e],
                  WithRestart(restarts, |es|, restart))
  {
    assert restart ==> es != [];
    hide EntryBytes, Offsets, Shared, GoodRestarts, Within, ShortKeys, EveryInterval, Encoded, CommonPrefix;
    AddRestart(es, restarts, e, restart);
    AddOffsets(es, restarts, e, restart);
    AddEncoded(es, restarts, e, restart);
    AddLast(interval, es, restarts, e, restart, lastKey, counter);
  }

  lemma AddLast(interval: nat, es: seq<KeyValue>, restarts: seq<nat>, e: KeyValue, restart: bool, lastKey: Bytes, counter: nat)
    requires GoodRestarts(restarts, |es|) && ShortKeys(es) && EveryInterval(restarts, interval) && |e.key| < TWO_TO_THE_32
    requires counter == |es| - restarts[|restarts| - 1] <= interval && (restart <==> counter >= interval)
    requires lastKey == (if es == [] then [] else es[|es| - 1].key)
    ensures EveryInterval(WithRestart(restarts, |es|, restart), interval) && ShortKeys(es + [e])
    ensures restart || es == [] || CommonPrefix(lastKey, e.key) == CommonPrefix(es[|es| - 1].key, e.key)
    ensures es == [] ==> CommonPrefix(lastKey, e.key) == 0
    ensures (if restart then 0 else counter) + 1 ==
      |es + [e]| - WithRestart(restarts, |es|, restart)[|WithRestart(restarts, |es|, restart)| - 1] <= interval || interval == 0
  {
  }

  class BlockBuilder {
    const interval: nat
    var buffer: Bytes
    var restarts: seq<nat>  // offsets in the buffer
    var counter: nat
    var lastKey: Bytes
    ghost var entries: seq<KeyValue>
    ghost var restartEntries: seq<nat>

    ghost predicate Valid()
      reads this
    {
      interval > 0 && Built(interval, buffer, restarts, counter, lastKey, entries, restartEntries)
    }

    /** How large the block would be if it were finished now. */
    ghost function Size(): nat
      reads this
    {
      |buffer| + 4 * |restarts| + 4
    }

    constructor (interval: nat)
      requires interval > 0
      ensures Valid() && entries == [] && this.interval == interval && Size() == 8
    {
      this.interval := interval;
      buffer, restarts, counter, lastKey := [], [0], 0, [];
      entries, restartEntries := [], [0];
    }

    method Add(key: Bytes, value: Bytes)
      requires Valid() && |key| < TWO_TO_THE_32 && |value| < TWO_TO_THE_32
      modifies this
      ensures Valid() && entries == old(entries) + [KeyValue(key, value)]
      ensures old(Size()) < Size() <= old(Size()) + |key| + |value| + 19
    {
      hide Built, CommonPrefix, EntryBytes;
      ghost var restart := counter >= interval;
      BuiltAdd(interval, buffer, restarts, counter, lastKey, entries, restartEntries, KeyValue(key, value), restart);
      var shared := 0;
      if counter < interval {
        shared := SharedLength(lastKey, key);
      } else {
        restarts := restarts + [|buffer|];
        counter := 0;
      }
      var delta := EncodeDelta(key, value, shared);
      EntrySize(shared, KeyValue(key, value));
      buffer := buffer + delta;
      lastKey := lastKey[..shared] + key[shared..];
      assert lastKey == key;
      counter := counter + 1;
      restartEntries := WithRestart(restartEntries, |entries|, restart);
      entries := entries + [KeyValue(key, value)];
    }

    /** The finished block, which can be read back as the entries added when it is not too large
        for its 32-bit offsets. */
    method Finish() returns (contents: Bytes)
      requires Valid()
      modifies `buffer
      ensures |contents| == old(Size())
      ensures |contents| < TWO_TO_THE_32 ==> IsBlock(contents, entries, restartEntries) && RestartsAt(restartEntries, interval, |entries|)
    {
      hide Built, Encoded, FixedArray, EncodeFixed32, IsBlock, Fits;
      ghost var was := buffer;
      var offsets := PutFixed32s(restarts);
      buffer := buffer + offsets;
      buffer := buffer + EncodeFixed32(|restarts| % TWO_TO_THE_32);
      contents := buffer;
      if |contents| < TWO_TO_THE_32 {
        BuiltIsBlock(interval, was, restarts, counter, lastKey, entries, restartEntries, offsets, contents);
      }
    }

    method IsEmpty() returns (empty: bool)
      requires Valid()
      ensures interval > 0 && (empty <==> entries == [])
    {
      EncodedPrefix(entries, restartEntries, 0, |entries|);
      empty := buffer == [];
    }

    method Reset()
      requires interval > 0
      modifies this
      ensures Valid() && entries == [] && Size() == 8
    {
      buffer, restarts, counter, lastKey := [], [0], 0, [];
      entries, restartEntries := [], [0];
    }

    method CurrentSizeEstimate() returns (size: nat)
      ensures size == Size()
    {
      size := |buffer| + 4 * |restarts| + 4;
    }
  }

  lemma BuiltRestarts(interval: nat, buffer: Bytes, restarts: seq<nat>, counter: nat, lastKey: Bytes, es: seq<KeyValue>, restartEntries: seq<nat>)
    requires Built(interval, buffer, restarts, counter, lastKey, es, restartEntries)
    ensures RestartsAt(restartEntries, interval, |es|)
  {
    hide Encoded, RestartsAt, EveryInterval, ShortKeys, Within, Offsets;
    EveryIntervalMeans(interval, restartEntries, |es|);
  }

  lemma BuiltIsBlock(interval: nat, buffer: Bytes, restarts: seq<nat>, counter: nat, lastKey: Bytes, es: seq<KeyValue>,
                     restartEntries: seq<nat>, offsets: Bytes, contents: Bytes)
    requires Built(interval, buffer, restarts, counter, lastKey, es, restartEntries) && |contents| < TWO_TO_THE_32
    requires Fits(restarts) ==> offsets == FixedArray(restarts)
    requires contents == buffer + offsets + EncodeFixed32(|restarts| % TWO_TO_THE_32)
    requires |offsets| == 4 * |restarts|
    ensures IsBlock(contents, es, restartEntries) && RestartsAt(restartEntries, interval, |es|)
  {
    hide RestartsAt, Encoded, FixedArray, EncodeFixed32, GoodRestarts, EveryInterval, ShortKeys, Fits, Within, Offsets;
    BuiltRestarts(interval, buffer, restarts, counter, lastKey, es, restartEntries);
    RestartsFit(buffer, es, restartEntries);
  }

  lemma RestartsFit(buffer: Bytes, es: seq<KeyValue>, restarts: seq<nat>)
    requires |buffer| < TWO_TO_THE_32 && buffer == Encoded(es, restarts, |es|)
    requires Within(restarts, |es|)
    ensures Fits(Offsets(es, restarts))
  {
    forall k | 0 <= k < |restarts| ensures Offset(es, restarts, restarts[k]) < TWO_TO_THE_32 {
      EncodedPrefix(es, restarts, restarts[k], |es|);
    }
  }

  method SharedLength(lastKey: Bytes, key: Bytes) returns (shared: nat)
    ensures shared == CommonPrefix(lastKey, key)
  {
    shared := 0;
    var minLength := if |lastKey| < |key| then |lastKey| else |key|;
    while shared < minLength && lastKey[shared] == key[shared]
      invariant shared <= minLength && lastKey[..shared] == key[..shared]
    {
      shared := shared + 1;
    }
    CommonPrefixIs(lastKey, key, shared);
  }

  lemma CommonPrefixIs(a: Bytes, b: Bytes, n: nat)
    requires n <= |a| && n <= |b| && a[..n] == b[..n]
    requires n < |a| && n < |b| ==> a[n] != b[n]
    ensures n == CommonPrefix(a, b)
  {
    SamePrefix(a, b, n);
    SamePrefix(a, b, CommonPrefix(a, b));
  }

  method EncodeDelta(key: Bytes, value: Bytes, shared: nat) returns (delta: Bytes)
    requires shared <= |key| < TWO_TO_THE_32 && |value| < TWO_TO_THE_32
    ensures delta == EntryBytes(shared, KeyValue(key, value))
  {
    var a := EncodeVarint32(shared);
    var b := EncodeVarint32(|key| - shared);
    var c := EncodeVarint32(|value|);
    delta := a + b + c + key[shared..] + value;
  }

  /** Lengths shared and not shared, length of the value, and the bytes after them. */
  function ParseEntry(s: Bytes): Option<(nat, nat, nat, Bytes)> {
    if |s| < 3 then None
    else match GetVarint32(s)
      case None => None
      case Some((shared, s1)) =>
        match GetVarint32(s1)
        case None => None
        case Some((nonShared, s2)) =>
          match GetVarint32(s2)
          case None => None
          case Some((valueLength, rest)) =>
            if |rest| < (nonShared + valueLength) % TWO_TO_THE_32 then None else Some((shared, nonShared, valueLength, rest))
  }

  lemma OneByte(s: Bytes)
    requires s != [] && s[0] < 128
    ensures GetVarint32(s) == Some((s[0], s[1..]))
  {
    assert Terminator(s, 5) == Some(0);
    assert s[..1] == [s[0]] && [s[0]][1..] == [];
    assert Groups([s[0]]) == s[0];
  }

  lemma ThreeBytes(s: Bytes)
    requires |s| >= 3 && s[0] < 128 && s[1] < 128 && s[2] < 128
    ensures GetVarint32(s) == Some((s[0], s[1..]))
    ensures GetVarint32(s[1..]) == Some((s[1], s[2..]))
    ensures GetVarint32(s[2..]) == Some((s[2], s[3..]))
  {
    OneByte(s);
    OneByte(s[1..]);
    OneByte(s[2..]);
  }

  lemma ShortEntry(s: Bytes)
    requires |s| >= 3 && s[0] < 128 && s[1] < 128 && s[2] < 128
    ensures ParseEntry(s) == if |s| - 3 < (s[1] as int) + s[2] then None else Some((s[0], s[1], s[2], s[3..]))
  {
    hide GetVarint32;
    ThreeBytes(s);
  }

  /** DecodeEntry, with its short cut for three single bytes. */
  method DecodeEntry(s: Bytes) returns (r: Option<(nat, nat, nat, Bytes)>)
    ensures r == ParseEntry(s)
  {
    hide GetVarint32;
    if |s| < 3 { return None; }
    if s[0] < 128 && s[1] < 128 && s[2] < 128 {
      ShortEntry(s);
      hide ParseEntry;
      if |s| - 3 < (s[1] as int) + s[2] { return None; }
      return Some((s[0], s[1], s[2], s[3..]));
    }
    r := DecodeLongEntry(s);
  }

  method DecodeLongEntry(s: Bytes) returns (r: Option<(nat, nat, nat, Bytes)>)
    requires |s| >= 3
    ensures r == ParseEntry(s)
  {
    hide GetVarint32;
    var shared := DecodeVarint32(s);
    if shared.None? { return None; }
    var nonShared := DecodeVarint32(shared.value.1);
    if nonShared.None? { return None; }
    var valueLength := DecodeVarint32(nonShared.value.1);
    if valueLength.None? { return None; }
    if |valueLength.value.1| < (nonShared.value.0 + valueLength.value.0) % TWO_TO_THE_32 { return None; }
    return Some((shared.value.0, nonShared.value.0, valueLength.value.0, valueLength.value.1));
  }

  lemma EntryParses(shared: nat, e: KeyValue, more: Bytes)
    requires shared <= |e.key| && shared < TWO_TO_THE_32 && |e.key| - shared + |e.value| < TWO_TO_THE_32
    ensures ParseEntry(EntryBytes(shared, e) + more) ==
      Some((shared, |e.key| - shared, |e.value|, e.key[shared..] + e.value + more))
  {
    hide GetVarint32;
    var rest := e.key[shared..] + e.value + more;
    var s2 := Varint(|e.value|) + rest;
    var s1 := Varint(|e.key| - shared) + s2;
    assert EntryBytes(shared, e) + more == Varint(shared) + s1;
    Varint32RoundTrip(shared, s1);
    Varint32RoundTrip(|e.key| - shared, s2);
    Varint32RoundTrip(|e.value|, rest);
  }

  /** Entry `i` of a block, parsed where it starts. */
  lemma EntryAt(es: seq<KeyValue>, restarts: seq<nat>, i: nat, data: Bytes)
    requires i < |es| && Encoded(es, restarts, |es|) <= data && |data| < TWO_TO_THE_32
    ensures Offset(es, restarts, i) < Offset(es, restarts, i + 1) <= Offset(es, restarts, |es|)
    ensures var e, shared, limit := es[i], Shared(es, restarts, i), Offset(es, restarts, |es|);
      && |e.key| - shared + |e.value| == Offset(es, restarts, i + 1) - Offset(es, restarts, i) - |EntryHeader(shared, e)|
      && |e.key| - shared + |e.value| < TWO_TO_THE_32
      && data[Offset(es, restarts, i)..limit] == EntryBytes(shared, e) + data[Offset(es, restarts, i + 1)..limit]
  {
    hide EntryHeader, Shared;
    EncodedPrefix(es, restarts, i, |es|);
    EncodedPrefix(es, restarts, i + 1, |es|);
    var e, shared := es[i], Shared(es, restarts, i);
    assert Encoded(es, restarts, i + 1) == Encoded(es, restarts, i) + EntryBytes(shared, e);
    hide Encoded, EntryBytes;
    var a, b, c, n := Encoded(es, restarts, i), Encoded(es, restarts, i + 1), Encoded(es, restarts, |es|), Offset(es, restarts, |es|);
    assert data[..n] == c && c[..|b|] == b && b[|a|..] == EntryBytes(shared, e);
    assert data[|a|..|b|] == EntryBytes(shared, e);
  }

  /** An order on keys that the comparator decides. */
  ghost predicate Transitive(cmp: Comparator) {
    forall a, b, c :: cmp(a, b) < 0 && cmp(b, c) < 0 ==> cmp(a, c) < 0
  }

  ghost predicate Ascending(cmp: Comparator, es: seq<KeyValue>) {
    forall i, j :: 0 <= i < j < |es| ==> cmp(es[i].key, es[j].key) < 0
  }

  /** Entry number `i` is the first with a key at or past the target. */
  ghost predicate FirstAtOrPast(cmp: Comparator, es: seq<KeyValue>, target: Bytes, i: nat) {
    && i <= |es|
    && (forall j :: 0 <= j < i ==> cmp(es[j].key, target) < 0)
    && (forall j :: i <= j < |es| ==> cmp(es[j].key, target) >= 0)
  }

  lemma EarlierIsBelow(cmp: Comparator, es: seq<KeyValue>, target: Bytes, i: nat)
    requires Transitive(cmp) && Ascending(cmp, es) && i < |es| && cmp(es[i].key, target) < 0
    ensures forall j :: 0 <= j <= i ==> cmp(es[j].key, target) < 0
  {
    forall j | 0 <= j < i ensures cmp(es[j].key, target) < 0 {
      assert cmp(es[j].key, es[i].key) < 0;
    }
  }

  lemma FirstFound(cmp: Comparator, es: seq<KeyValue>, target: Bytes, i: nat)
    requires Transitive(cmp) && Ascending(cmp, es) && i <= |es|
    requires forall j :: 0 <= j < i ==> cmp(es[j].key, target) < 0
    requires i < |es| ==> cmp(es[i].key, target) >= 0
    ensures FirstAtOrPast(cmp, es, target, i)
  {
    forall j | i <= j < |es| ensures cmp(es[j].key, target) >= 0 {
      if cmp(es[j].key, target) < 0 {
        EarlierIsBelow(cmp, es, target, j);
      }
    }
  }

  /** A cursor about to parse entry `i`: the end of the value before it is its start, the key before
      it has the prefix it leaves out, and the restart index is right for it or lags by one. */
  ghost predicate Poised(es: seq<KeyValue>, restarts: seq<nat>, i: nat, restartIndex: nat, key: Bytes, valueEnd: nat) {
    && i <= |es| && restartIndex < |restarts| && restarts[restartIndex] <= i
    && (restartIndex + 1 < |restarts| ==> i <= restarts[restartIndex + 1] + 1)
    && valueEnd == Offset(es, restarts, i)
    && (i < |es| ==> Shared(es, restarts, i) <= |key| && key[..Shared(es, restarts, i)] == es[i].key[..Shared(es, restarts, i)])
  }

  /** A cursor at entry `i`. */
  ghost predicate Stands(data: Bytes, es: seq<KeyValue>, restarts: seq<nat>, i: nat, current: nat, restartIndex: nat,
                         key: Bytes, valueStart: nat, valueEnd: nat)
  {
    && i < |es| && current == Offset(es, restarts, i) && valueEnd == Offset(es, restarts, i + 1)
    && key == es[i].key && valueStart <= valueEnd <= |data| && data[valueStart..valueEnd] == es[i].value
    && restartIndex < |restarts| && restarts[restartIndex] <= i
    && (restartIndex + 1 < |restarts| ==> i <= restarts[restartIndex + 1])
  }

  lemma PoisedAtNext(data: Bytes, es: seq<KeyValue>, restarts: seq<nat>, i: nat, current: nat, restartIndex: nat,
                     key: Bytes, valueStart: nat, valueEnd: nat)
    requires Stands(data, es, restarts, i, current, restartIndex, key, valueStart, valueEnd)
    ensures Poised(es, restarts, i + 1, restartIndex, key, valueEnd)
  {
    hide Encoded, CommonPrefix;
  }

  lemma PoisedAtRestart(es: seq<KeyValue>, restarts: seq<nat>, k: nat)
    requires GoodRestarts(restarts, |es|) && k < |restarts|
    ensures restarts[k] <= |es| && Poised(es, restarts, restarts[k], k, [], Offset(es, restarts, restarts[k]))
  {
    hide Encoded, CommonPrefix;
    assert restarts[k] in restarts;
    assert k > 0 ==> restarts[0] < restarts[k];
  }

  /** Offsets order entries as their numbers do. */
  lemma OffsetOrder(es: seq<KeyValue>, restarts: seq<nat>, i: nat, j: nat)
    requires i <= |es| && j <= |es|
    ensures Offset(es, restarts, i) < Offset(es, restarts, j) <==> i < j
  {
    if i < j { EncodedPrefix(es, restarts, i, j); } else { EncodedPrefix(es, restarts, j, i); }
  }

  class Iter {
    const cmp: Comparator
    const data: Bytes
    const restarts: nat      // where the restart array begins
    const numRestarts: nat
    var current: nat         // offset of the current entry; the restart array when not valid
    var restartIndex: nat
    var key: Bytes
    var valueStart: nat      // the current value, as a range of the data
    var valueEnd: nat
    ghost const es: seq<KeyValue>
    ghost const restartEntries: seq<nat>
    ghost var at: Option<nat>

    ghost predicate Fixed() {
      && IsBlock(data, es, restartEntries)
      && restarts == Offset(es, restartEntries, |es|) && numRestarts == |restartEntries|
      && Transitive(cmp) && Ascending(cmp, es)
    }

    ghost predicate Valid()
      reads this
    {
      && Fixed()
      && (at.None? ==> current == restarts)
      && (at.Some? ==> Stands(data, es, restartEntries, at.value, current, restartIndex, key, valueStart, valueEnd))
    }

    constructor (cmp: Comparator, data: Bytes, ghost es: seq<KeyValue>, ghost restartEntries: seq<nat>)
      requires IsBlock(data, es, restartEntries) && Transitive(cmp) && Ascending(cmp, es)
      ensures Valid() && at == None && this.cmp == cmp && this.data == data
      ensures this.es == es && this.restartEntries == restartEntries
    {
      RestartCount(data, es, restartEntries);
      var count := DecodeFixed32(data[|data| - 4..]);
      this.cmp, this.data, this.es, this.restartEntries := cmp, data, es, restartEntries;
      numRestarts := count;
      restarts := |data| - 4 * (1 + count);
      current, restartIndex := |data| - 4 * (1 + count), count;
      key, valueStart, valueEnd, at := [], 0, 0, None;
    }

    method IsValid() returns (valid: bool)
      requires Valid()
      ensures valid <==> at.Some?
    {
      ghost var i := if at.Some? then at.value else |es|;
      if at.Some? { OffsetOrder(es, restartEntries, at.value, |es|); }
      valid := current < restarts;
    }

    method CurrentKey() returns (k: Bytes)
      requires Valid() && at.Some?
      ensures at.value < |es| && k == es[at.value].key
    {
      hide Encoded, Shared, IsBlock;
      k := key;
    }

    method CurrentValue() returns (v: Bytes)
      requires Valid() && at.Some?
      ensures at.value < |es| && v == es[at.value].value
    {
      hide Encoded, Shared, IsBlock;
      v := data[valueStart..valueEnd];
    }

    method GetRestartPoint(index: nat) returns (offset: nat)
      requires Fixed() && index < numRestarts
      ensures restartEntries[index] <= |es| && offset == Offset(es, restartEntries, restartEntries[index])
    {
      RestartPointAt(data, es, restartEntries, index);
      offset := DecodeFixed32(data[restarts + 4 * index..]);
    }

    method SeekToRestartPoint(index: nat)
      requires Fixed() && index < numRestarts
      modifies this
      ensures restartIndex == index && restartEntries[index] <= |es|
      ensures Poised(es, restartEntries, restartEntries[index], restartIndex, key, valueEnd)
    {
      PoisedAtRestart(es, restartEntries, index);
      key := [];
      restartIndex := index;
      var offset := GetRestartPoint(index);
      valueStart, valueEnd := offset, offset;
    }

    /** Parses entry `i`, or finds that there is none. */
    method ParseNextKey(ghost i: nat) returns (ok: bool)
      requires Fixed() && Poised(es, restartEntries, i, restartIndex, key, valueEnd)
      modifies this
      ensures Valid() && at == IfInside(i, |es|) && (ok <==> i < |es|)
    {
      hide Encoded, Shared, Offset, IsBlock, Transitive, Ascending, ParseEntry;
      OffsetOrder(es, restartEntries, i, |es|);
      current := valueEnd;
      if current >= restarts {
        current := restarts;
        restartIndex := numRestarts;
        at := None;
        return false;
      }
      ghost var was := key;
      ghost var shared0, rest0 := EntryInBlock(data, es, restartEntries, i);
      var entry := DecodeEntry(data[current..restarts]);
      var (shared, nonShared, valueLength, rest) := entry.value;
      EntryRestored(es[i], shared, was, rest);
      var p := restarts - |rest|;
      key := key[..shared] + rest[..nonShared];
      valueStart, valueEnd := p + nonShared, p + nonShared + valueLength;
      SliceOfSuffix(data, restarts, rest, nonShared, nonShared + valueLength);
      AdvanceRestartIndex(i);
      at := Some(i);
      return true;
    }

    method AdvanceRestartIndex(ghost i: nat)
      requires Fixed() && i < |es| && current == Offset(es, restartEntries, i)
      requires restartIndex < numRestarts && restartEntries[restartIndex] <= i
      requires restartIndex + 1 < numRestarts ==> i <= restartEntries[restartIndex + 1] + 1
      modifies `restartIndex
      ensures restartIndex < numRestarts && restartEntries[restartIndex] <= i
      ensures restartIndex + 1 < numRestarts ==> i <= restartEntries[restartIndex + 1]
    {
      hide Encoded;
      while restartIndex + 1 < numRestarts
        invariant restartIndex < numRestarts && restartEntries[restartIndex] <= i
        invariant restartIndex + 1 < numRestarts ==> i <= restartEntries[restartIndex + 1] + 1
        decreases numRestarts - restartIndex
      {
        var next := GetRestartPoint(restartIndex + 1);
        OffsetOrder(es, restartEntries, restartEntries[restartIndex + 1], i);
        if next >= current { break; }
        restartIndex := restartIndex + 1;
      }
    }

    method Next()
      requires Valid() && at.Some?
      modifies this
      ensures Valid() && at == IfInside(old(at).value + 1, |es|)
    {
      hide Stands, Poised, IsBlock, Transitive, Ascending, Encoded;
      PoisedAtNext(data, es, restartEntries, at.value, current, restartIndex, key, valueStart, valueEnd);
      var _ := ParseNextKey(at.value + 1);
    }

    method SeekToFirst()
      requires Valid()
      modifies this
      ensures Valid() && at == IfInside(0, |es|)
    {
      RestartZero(es, restartEntries);
      hide Stands, Poised, IsBlock, Transitive, Ascending, Encoded;
      SeekToRestartPoint(0);
      var _ := ParseNextKey(0);
    }

    method SeekToLast()
      requires Valid()
      modifies this
      ensures Valid() && at == IfInside(|es| - 1, |es|)
    {
      LastRestart(es, restartEntries);
      hide Stands, Poised, IsBlock, Transitive, Ascending, Encoded;
      SeekToRestartPoint(numRestarts - 1);
      ScanTo(restarts, restartEntries[numRestarts - 1], |es|);
    }

    /** Parses on from entry `i` until an entry ends at `bound`, where entry `n` starts. */
    method ScanTo(bound: nat, ghost i: nat, ghost n: nat)
      requires Fixed() && Poised(es, restartEntries, i, restartIndex, key, valueEnd)
      requires n <= |es| && bound == Offset(es, restartEntries, n) && (i < n || |es| == 0)
      modifies this
      ensures Valid() && at == IfInside(n - 1, |es|)
    {
      hide Poised, IsBlock, Transitive, Ascending, Encoded;
      ghost var k := i;
      while true
        invariant Fixed() && Poised(es, restartEntries, k, restartIndex, key, valueEnd) && (k < n || |es| == 0)
        decreases n - k
      {
        var ok := ParseNextKey(k);
        if !ok { break; }
        OffsetOrder(es, restartEntries, k + 1, n);
        if valueEnd >= bound { break; }
        PoisedAtNext(data, es, restartEntries, k, current, restartIndex, key, valueStart, valueEnd);
        k := k + 1;
      }
    }

    /** Moves the restart index back to a restart point before entry `i`. */
    method BackToRestart(ghost i: nat) returns (found: bool)
      requires Valid() && at == Some(i)
      modifies `restartIndex
      ensures found ==> restartIndex < numRestarts && restartEntries[restartIndex] < i
      ensures !found ==> i == 0
    {
      hide Encoded;
      while true
        invariant restartIndex < numRestarts && restartEntries[restartIndex] <= i
        decreases restartIndex
      {
        var point := GetRestartPoint(restartIndex);
        OffsetOrder(es, restartEntries, restartEntries[restartIndex], i);
        if point < current { return true; }
        if restartIndex == 0 { return false; }
        restartIndex := restartIndex - 1;
      }
    }

    method Prev()
      requires Valid() && at.Some?
      modifies this
      ensures Valid() && at == IfInside(old(at).value - 1, |es|)
    {
      hide Poised, IsBlock, Transitive, Ascending, Encoded;
      ghost var i := at.value;
      var original := current;
      var found := BackToRestart(i);
      if !found {
        current := restarts;
        restartIndex := numRestarts;
        at := None;
        return;
      }
      ghost var start := restartEntries[restartIndex];
      SeekToRestartPoint(restartIndex);
      ScanTo(original, start, i);
    }

    /** The key of a restart point, which shares nothing with the key before it. */
    method RestartKey(index: nat) returns (k: Bytes)
      requires Fixed() && 0 < index < numRestarts
      ensures restartEntries[index] < |es| && k == es[restartEntries[index]].key
    {
      SharesNothing(es, restartEntries, index);
      hide Encoded, Shared, Offset, IsBlock, Transitive, Ascending, ParseEntry;
      var offset := GetRestartPoint(index);
      ghost var shared0, rest0 := EntryInBlock(data, es, restartEntries, restartEntries[index]);
      var entry := DecodeEntry(data[offset..restarts]);
      var (shared, nonShared, valueLength, rest) := entry.value;
      EntryRestored(es[restartEntries[index]], shared, [], rest);
      k := rest[..nonShared];
      assert [] + k == k;
    }

    /** Binary search for the last restart point with a key below the target, or the first of all. */
    method FindRestart(target: Bytes) returns (left: nat)
      requires Fixed()
      ensures left < numRestarts && restartEntries[left] <= |es|
      ensures forall j :: 0 <= j < restartEntries[left] ==> cmp(es[j].key, target) < 0
    {
      RestartZero(es, restartEntries);
      hide IsBlock, Transitive, Ascending;
      left := 0;
      var right := numRestarts - 1;
      while left < right
        invariant 0 <= left <= right < numRestarts
        invariant left > 0 ==> restartEntries[left] < |es| && cmp(es[restartEntries[left]].key, target) < 0
      {
        var mid := (left + right + 1) / 2;
        var midKey := RestartKey(mid);
        if cmp(midKey, target) < 0 {
          left := mid;
        } else {
          right := mid - 1;
        }
      }
      BelowRestart(cmp, es, target, restartEntries[left]);
    }

    /** The first entry at or past the target. */
    method Seek(target: Bytes) returns (ghost first: nat)
      requires Valid()
      modifies this
      ensures Valid() && FirstAtOrPast(cmp, es, target, first) && at == IfInside(first, |es|)
    {
      hide Poised, Stands, IsBlock, Transitive, Ascending, Encoded, FirstAtOrPast;
      var left := FindRestart(target);
      SeekToRestartPoint(left);
      first := restartEntries[left];
      while true
        invariant Fixed() && Poised(es, restartEntries, first, restartIndex, key, valueEnd)
        invariant first <= |es| && forall j :: 0 <= j < first ==> cmp(es[j].key, target) < 0
        decreases |es| - first
      {
        var ok := ParseNextKey(first);
        if !ok { break; }
        StandsKey(data, es, restartEntries, first, current, restartIndex, key, valueStart, valueEnd);
        if cmp(key, target) >= 0 { break; }
        PoisedAtNext(data, es, restartEntries, first, current, restartIndex, key, valueStart, valueEnd);
        first := first + 1;
      }
      FirstFound(cmp, es, target, first);
    }
  }

  lemma StandsKey(data: Bytes, es: seq<KeyValue>, restarts: seq<nat>, i: nat, current: nat, restartIndex: nat,
                  key: Bytes, valueStart: nat, valueEnd: nat)
    requires Stands(data, es, restarts, i, current, restartIndex, key, valueStart, valueEnd)
    ensures i < |es| && key == es[i].key
  {
  }

  lemma BelowRestart(cmp: Comparator, es: seq<KeyValue>, target: Bytes, i: nat)
    requires Transitive(cmp) && Ascending(cmp, es) && (i == 0 || (i < |es| && cmp(es[i].key, target) < 0))
    ensures i <= |es| && forall j :: 0 <= j < i ==> cmp(es[j].key, target) < 0
  {
    if i > 0 { EarlierIsBelow(cmp, es, target, i); }
  }

  lemma SharesNothing(es: seq<KeyValue>, restarts: seq<nat>, index: nat)
    requires GoodRestarts(restarts, |es|) && 0 < index < |restarts|
    ensures restarts[index] < |es| && Shared(es, restarts, restarts[index]) == 0
  {
    assert restarts[index] in restarts;
  }

  lemma LastRestart(es: seq<KeyValue>, restarts: seq<nat>)
    requires GoodRestarts(restarts, |es|)
    ensures |restarts| > 0 && (restarts[|restarts| - 1] < |es| || |es| == 0)
  {
  }

  lemma RestartZero(es: seq<KeyValue>, restarts: seq<nat>)
    requires GoodRestarts(restarts, |es|)
    ensures |restarts| > 0 && restarts[0] == 0
  {
  }

  lemma RestartCount(data: Bytes, es: seq<KeyValue>, restarts: seq<nat>)
    requires IsBlock(data, es, restarts)
    ensures |data| >= 4 && DecodeFixed32(data[|data| - 4..]) == |restarts|
    ensures |data| - 4 * (1 + |restarts|) == Offset(es, restarts, |es|)
  {
    hide EncodeFixed32, DecodeFixed32, Encoded, FixedArray, Offsets;
    Fixed32RoundTrip(|restarts|, []);
    assert EncodeFixed32(|restarts|) + [] == EncodeFixed32(|restarts|);
    assert data[|data| - 4..] == EncodeFixed32(|restarts|);
  }

  lemma RestartPointAt(data: Bytes, es: seq<KeyValue>, restarts: seq<nat>, k: nat)
    requires IsBlock(data, es, restarts) && k < |restarts|
    ensures var start := Offset(es, restarts, |es|);
      start + 4 * k + 4 <= |data| && DecodeFixed32(data[start + 4 * k..]) == Offset(es, restarts, restarts[k])
  {
    FixedArrayAt(Offsets(es, restarts), k, Encoded(es, restarts, |es|), EncodeFixed32(|restarts|));
  }

  /** What DecodeEntry finds at entry `i`: the rest of its key, its value and what follows. */
  lemma EntryInBlock(data: Bytes, es: seq<KeyValue>, restarts: seq<nat>, i: nat) returns (shared: nat, rest: Bytes)
    requires IsBlock(data, es, restarts) && i < |es|
    ensures shared == Shared(es, restarts, i)
    ensures Offset(es, restarts, i) <= Offset(es, restarts, |es|) <= |data|
    ensures ParseEntry(data[Offset(es, restarts, i)..Offset(es, restarts, |es|)]) ==
      Some((shared, |es[i].key| - shared, |es[i].value|, rest))
    ensures |rest| == |es[i].key| - shared + |es[i].value| + Offset(es, restarts, |es|) - Offset(es, restarts, i + 1)
    ensures |rest| <= Offset(es, restarts, |es|) && rest == data[Offset(es, restarts, |es|) - |rest|..Offset(es, restarts, |es|)]
    ensures es[i].key[shared..] + es[i].value <= rest
  {
    hide EntryBytes, Encoded, Shared, ParseEntry, FixedArray, EncodeFixed32, EntryHeader;
    EntryAt(es, restarts, i, data);
    shared := Shared(es, restarts, i);
    var limit := Offset(es, restarts, |es|);
    var more := data[Offset(es, restarts, i + 1)..limit];
    EntryParses(shared, es[i], more);
    rest := es[i].key[shared..] + es[i].value + more;
    RestOfEntry(shared, es[i], more);
    var entry := EntryBytes(shared, es[i]) + more;
    assert entry == data[Offset(es, restarts, i)..limit];
    assert data[limit - |rest|..limit] == entry[|entry| - |rest|..];
  }

  lemma RestOfEntry(shared: nat, e: KeyValue, more: Bytes)
    requires shared <= |e.key|
    ensures var all, rest := EntryBytes(shared, e) + more, e.key[shared..] + e.value + more;
      |rest| <= |all| && all[|all| - |rest|..] == rest
  {
    hide EntryHeader;
    assert EntryBytes(shared, e) + more == EntryHeader(shared, e) + (e.key[shared..] + e.value + more);
  }

  lemma SliceOfSuffix(data: Bytes, limit: nat, rest: Bytes, a: nat, b: nat)
    requires |rest| <= limit <= |data| && rest == data[limit - |rest|..limit] && a <= b <= |rest|
    ensures data[limit - |rest| + a..limit - |rest| + b] == rest[a..b]
  {
    var p := limit - |rest|;
    assert data[p..limit][a..b] == data[p + a..p + b];
  }

  /** Key and value are put together from what was shared and what was parsed. */
  lemma EntryRestored(e: KeyValue, shared: nat, key: Bytes, rest: Bytes)
    requires shared <= |e.key| && shared <= |key| && key[..shared] == e.key[..shared] && e.key[shared..] + e.value <= rest
    ensures key[..shared] + rest[..|e.key| - shared] == e.key
    ensures rest[|e.key| - shared..|e.key| - shared + |e.value|] == e.value
  {
    var both := e.key[shared..] + e.value;
    assert rest[..|both|] == both;
    assert rest[..|e.key| - shared] == both[..|e.key| - shared] == e.key[shared..];
    assert e.key[..shared] + e.key[shared..] == e.key;
    assert rest[|e.key| - shared..|both|] == both[|e.key| - shared..];
  }
}
