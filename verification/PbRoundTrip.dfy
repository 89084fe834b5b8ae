/** Decoding what the encoder wrote gives the message back, exactly if every string in it leaves room for
    its zero byte. */
module PbRoundTrip {
  import opened Coding
  import opened PbDecode
  import opened PbMessages
  import opened Wrappers

  // ------------------------------------------------------------------- wire

  lemma Split(w: nat, p: nat)
    ensures w % 128 * p + w / 128 * (128 * p) == w * p
  {
    assert w == w % 128 + 128 * (w / 128);
    assert w * p == (w % 128 + 128 * (w / 128)) * p;
  }

  lemma Powers()
    ensures Power128(0) == 1 && Power128(1) == 128 && Power128(2) == 16384 && Power128(3) == 2097152 && Power128(4) == 268435456
  {
    assert Power128(2) == 128 * Power128(1) && Power128(3) == 128 * Power128(2) && Power128(4) == 128 * Power128(3);
  }

  /** What is left fits the bits that are left. */
  lemma GroupsFit(w: nat, k: nat, result: nat)
    requires 1 <= k <= 4 && w > 0 && result < Power128(k) && result + w * Power128(k) < TWO_TO_THE_32
    ensures result < TWO_TO_THE_32 && result + w % 128 * Power128(k) < TWO_TO_THE_32
    ensures k == 4 ==> w < 16
    ensures w % 128 * Power128(k) + w / 128 * Power128(k + 1) == w * Power128(k)
    ensures result + w % 128 * Power128(k) < Power128(k + 1)
  {
    Powers();
    var p := Power128(k);
    Split(w, p);
    Times(w, p);
    Times(w % 128, p);
    assert Power128(k + 1) == 128 * p;
    Times(w / 128, 128 * p);
  }

  lemma Times(w: nat, p: nat)
    ensures w * p >= 0 && (w >= 1 ==> w * p >= p) && (w <= 127 ==> w * p <= 127 * p) && (w >= 16 ==> w * p >= 16 * p)
  {
    if w >= 16 { assert (w - 16) * p >= 0; }
    if w <= 127 { assert (127 - w) * p >= 0; }
  }

  lemma OneGroup(b: Byte, rest: Bytes, result: nat, k: nat)
    requires 1 <= k <= 4 && result < TWO_TO_THE_32 && result + b % 128 * Power128(k) < TWO_TO_THE_32
    ensures b >= 128 ==> Varint32More([b] + rest, result, 7 * k) == Varint32More(rest, result + b % 128 * Power128(k), 7 * (k + 1))
    ensures b < 128 && (k == 4 ==> b < 16) ==> Varint32More([b] + rest, result, 7 * k) == Some((result + b % 128 * Power128(k), rest))
  {
    hide Power128, Misplaced;
    var s := [b] + rest;
    assert s[0] == b && s[1..] == rest;
    assert 7 * k / 7 == k && 7 * k % 7 == 0 && 7 * k < 32;
    var next := result + b % 128 * Power128(k);
    SmallModulo(next, TWO_TO_THE_32);
    assert Varint32More(s, result, 7 * k) ==
      if b >= 128 then Varint32More(rest, next, 7 * k + 7) else if 7 * k == 28 && b / 16 != 0 then None else Some((next, rest));
  }

  lemma SmallModulo(a: nat, m: nat)
    requires a < m
    ensures a % m == a
  {
  }

  /** One byte with its top bit set, and what follows it. */
  lemma MarkedGroup(w: nat, result: nat, k: nat, rest: Bytes)
    requires 1 <= k <= 4 && w >= 128 && result < TWO_TO_THE_32 && result + w % 128 * Power128(k) < TWO_TO_THE_32
    ensures Varint32More(Varint(w) + rest, result, 7 * k) == Varint32More(Varint(w / 128) + rest, result + w % 128 * Power128(k), 7 * (k + 1))
  {
    hide Power128, Varint32More;
    var b: Byte, more := w % 128 + 128, Varint(w / 128) + rest;
    assert Varint(w) + rest == [b] + more;
    LowBits(w % 128);
    OneGroup(b, more, result, k);
  }

  lemma {:induction false} Varint32Rest(w: nat, result: nat, k: nat, rest: Bytes)
    requires 1 <= k <= 4 && w > 0 && result < Power128(k) && result + w * Power128(k) < TWO_TO_THE_32
    ensures result < TWO_TO_THE_32 && Varint32More(Varint(w) + rest, result, 7 * k) == Some((result + w * Power128(k), rest))
    decreases w
  {
    hide Power128, Varint32More;
    GroupsFit(w, k, result);
    if w < 128 {
      LastGroupRead(w, result, k, rest);
    } else {
      MarkedGroup(w, result, k, rest);
      hide Varint;
      var low, high := w % 128 * Power128(k), w / 128 * Power128(k + 1);
      assert low + high == w * Power128(k);
      Varint32Rest(w / 128, result + low, k + 1, rest);
    }
  }

  lemma LastGroupRead(w: nat, result: nat, k: nat, rest: Bytes)
    requires 1 <= k <= 4 && w < 128 && (k == 4 ==> w < 16) && result < TWO_TO_THE_32 && result + w * Power128(k) < TWO_TO_THE_32
    ensures Varint32More(Varint(w) + rest, result, 7 * k) == Some((result + w * Power128(k), rest))
  {
    hide Power128, Varint32More;
    SmallModulo(w, 128);
    OneGroup(w, rest, result, k);
  }

  lemma LowBits(d: nat)
    requires d < 128
    ensures (d + 128) % 128 == d
  {
  }

  lemma Varint32Back(v: nat, rest: Bytes)
    requires v < TWO_TO_THE_32
    ensures Varint32(Varint(v) + rest) == Some((v, rest))
  {
    Powers();
    hide Varint32More, Power128;
    var s := Varint(v) + rest;
    if v < 128 {
      assert s[0] == v && s[1..] == rest;
    } else {
      assert s == [More(v)] + (Varint(v / 128) + rest);
      assert s[0] == v % 128 + 128 && s[1..] == Varint(v / 128) + rest;
      LowBits(v % 128);
      Varint32Rest(v / 128, v % 128, 1, rest);
    }
  }

  lemma StringBack(b: Bytes, rest: Bytes)
    requires |b| < TWO_TO_THE_32
    ensures TakeString(PutLengthPrefixed(b) + rest) == Some((b, rest))
  {
    assert PutLengthPrefixed(b) + rest == Varint(|b|) + (b + rest);
    Varint32Back(|b|, b + rest);
    assert (b + rest)[..|b|] == b && (b + rest)[|b|..] == rest;
  }

  lemma SignedBack(n: int, size: nat)
    requires IntegerSize(size) && InSigned(n, size)
    ensures 0 <= TwosComplement(n) < TWO_TO_THE_64
    ensures SignedOf(TwosComplement(n), if size == 8 then 8 else 4) == n
  {
    if size != 8 && n < 0 {
      assert (n + TWO_TO_THE_64) % TWO_TO_THE_32 == n + TWO_TO_THE_32;
    }
  }

  lemma ZigZagBack(n: int, size: nat)
    requires IntegerSize(size) && InSigned(n, size)
    ensures ZigZagOf(n) < TWO_TO_THE_64 && UnZigZag(ZigZagOf(n)) == n
  {
  }

  // ----------------------------------------------------------- what comes back

  /** The struct with what is absent set to its default. */
  function Normal(kind: Kind, v: Value): Value
    decreases kind, 1
  {
    match kind
    case CString(dataSize) => if v.Blob? then Blob(CStringOf(v.bytes, dataSize)) else v
    case Message(fields) => if v.Struct? && |v.slots| == |fields| then Struct(NormalSlots(kind, v.slots, |fields|)) else v
    case _ => v
  }

  /** The first n fields. */
  function NormalSlots(kind: Kind, slots: seq<Slot>, n: nat): (r: seq<Slot>)
    requires kind.Message? && |slots| == |kind.fields| && n <= |slots|
    ensures |r| == n
    decreases kind, 0, n
  {
    if n == 0 then [] else NormalSlots(kind, slots, n - 1) + [NormalSlot(kind.fields[n - 1].rule, kind.fields[n - 1].kind, slots[n - 1])]
  }

  function NormalSlot(rule: Rule, kind: Kind, slot: Slot): Slot
    decreases kind, 3
  {
    match slot
    case Many(items) => Many(NormalItems(kind, items))
    case One(_, v) => if Present(rule, kind, slot) then One(true, Normal(kind, v)) else ZeroSlot(rule, kind)
  }

  function NormalItems(kind: Kind, items: seq<Value>): (r: seq<Value>)
    ensures |r| == |items|
    decreases kind, 2, |items|
  {
    if items == [] then [] else [Normal(kind, items[0])] + NormalItems(kind, items[1..])
  }

  /** Every string that is written leaves room for its zero byte. */
  ghost predicate Terminated(kind: Kind, v: Value)
    decreases kind, 2
  {
    match kind
    case CString(dataSize) => v.Blob? && |CStringOf(v.bytes, dataSize)| < dataSize
    case Message(fields) =>
      v.Struct? && |v.slots| == |fields| && forall i :: 0 <= i < |fields| ==> SlotTerminated(fields[i].rule, fields[i].kind, v.slots[i])
    case _ => true
  }

  ghost predicate SlotTerminated(rule: Rule, kind: Kind, slot: Slot)
    decreases kind, 3
  {
    match slot
    case Many(items) => forall i :: 0 <= i < |items| ==> Terminated(kind, items[i])
    case One(_, v) => Present(rule, kind, slot) ==> Terminated(kind, v)
  }

  // ------------------------------------------------------------------ scalars

  /** A value that is not a message is read back. */
  lemma ScalarBack(kind: Kind, v: Value, init: Value, rest: Bytes)
    requires !kind.Message? && GoodKind(kind) && HasType(kind, v) && Encodable(kind, v) && |Encode(kind, v)| < TWO_TO_THE_32
    ensures DecodeValue(kind, Encode(kind, v) + rest, init) == if Terminated(kind, v) then Some((Normal(kind, v), rest)) else None
  {
    hide Varint, Varint32, GetVarint64, TakeString, PutLengthPrefixed, EncodeFixed32, EncodeFixed64, DecodeFixed32, DecodeFixed64, CStringOf;
    match kind
    case Boolean => Varint32Back(if v.b then 1 else 0, rest);
    case Signed(size) =>
      SignedBack(v.n, size);
      Varint64RoundTrip(TwosComplement(v.n), rest);
    case Unsigned(size) => Varint64RoundTrip(v.n, rest);
    case ZigZag(size) =>
      ZigZagBack(v.n, size);
      Varint64RoundTrip(ZigZagOf(v.n), rest);
    case Fixed32 =>
      Fixed32RoundTrip(v.n, rest);
      FixedRest(v.n, rest);
    case Fixed64 =>
      Fixed64RoundTrip(v.n, rest);
      FixedRest(v.n, rest);
    case ByteArray(_) =>
      PrefixedLength(v.bytes);
      StringBack(v.bytes, rest);
    case CString(dataSize) =>
      PrefixedLength(CStringOf(v.bytes, dataSize));
      StringBack(CStringOf(v.bytes, dataSize), rest);
    case FixedBytes(dataSize) =>
      PrefixedLength(v.bytes);
      StringBack(v.bytes, rest);
      if dataSize == 0 { assert v.bytes == Zeros(0); }
  }

  lemma FixedRest(n: int, rest: Bytes)
    ensures 0 <= n < TWO_TO_THE_32 ==> |EncodeFixed32(n)| == 4 && (EncodeFixed32(n) + rest)[4..] == rest
    ensures 0 <= n < TWO_TO_THE_64 ==> |EncodeFixed64(n)| == 8 && (EncodeFixed64(n) + rest)[8..] == rest
  {
  }

  lemma PrefixedLength(b: Bytes)
    ensures |PutLengthPrefixed(b)| == |Varint(|b|)| + |b| && |b| <= |PutLengthPrefixed(b)|
  {
  }

  // ----------------------------------------------------------------- messages

  lemma {:induction false} NormalAt(kind: Kind, slots: seq<Slot>, n: nat, j: nat)
    requires kind.Message? && |slots| == |kind.fields| && j < n <= |slots|
    ensures NormalSlots(kind, slots, n)[j] == NormalSlot(kind.fields[j].rule, kind.fields[j].kind, slots[j])
  {
    hide NormalSlot;
    if j < n - 1 { NormalAt(kind, slots, n - 1, j); }
  }

  lemma {:induction false} ZeroAt(kind: Kind, n: nat, j: nat)
    requires kind.Message? && j < n <= |kind.fields|
    ensures ZeroSlots(kind, n)[j] == ZeroSlot(kind.fields[j].rule, kind.fields[j].kind)
  {
    hide ZeroSlot;
    if j < n - 1 { ZeroAt(kind, n - 1, j); }
  }

  lemma {:induction false} FindsField(fields: seq<Field>, i: nat)
    requires i < |fields| && forall a, b :: 0 <= a < b < |fields| ==> fields[a].tag != fields[b].tag
    ensures FindField(fields, fields[i].tag) == Some(i)
  {
    if i > 0 {
      assert fields[0].tag != fields[i].tag;
      FindsField(fields[1..], i - 1);
    }
  }

  lemma GoodField(kind: Kind, i: nat)
    requires kind.Message? && GoodKind(kind) && i < |kind.fields|
    ensures 0 < kind.fields[i].tag < TAG_LIMIT && GoodKind(kind.fields[i].kind)
    ensures FindField(kind.fields, kind.fields[i].tag) == Some(i)
  {
    FindsField(kind.fields, i);
  }

  /** A tag leads to its field. */
  lemma FieldStep(kind: Kind, i: nat, wire: nat, body: Bytes, p: Progress)
    requires kind.Message? && GoodKind(kind) && |p.slots| == |kind.fields| && i < |kind.fields| && wire < 8
    ensures DecodeFields(kind, TagBytes(kind.fields[i].tag, wire) + body, p) ==
            match DecodeField(kind, i, wire, body, p) { case None => None case Some((p', rest)) => DecodeFields(kind, rest, p') }
  {
    hide Varint, Varint32, FindField, DecodeField, GoodKind;
    var tag := kind.fields[i].tag;
    GoodField(kind, i);
    Varint32Back(tag * 8 + wire, body);
    assert (tag * 8 + wire) / 8 == tag && (tag * 8 + wire) % 8 == wire;
    assert TagBytes(tag, wire) + body != [];
  }

  /** The fields before the i-th have come back; the others are at their defaults. */
  ghost predicate Reached(kind: Kind, slots: seq<Slot>, i: nat, p: Progress) {
    && Restored(kind, slots, i, p) && i <= |slots|
    && (forall j :: i <= j < |slots| ==> p.slots[j] == ZeroSlot(kind.fields[j].rule, kind.fields[j].kind))
    && (p.fixed.Some? ==> p.fixed.value < i && Complete(kind.fields, p))
  }

  ghost predicate Restored(kind: Kind, slots: seq<Slot>, i: nat, p: Progress) {
    && kind.Message? && |slots| == |kind.fields| == |p.slots|
    && (forall j :: 0 <= j < i && j < |slots| ==> p.slots[j] == NormalSlot(kind.fields[j].rule, kind.fields[j].kind, slots[j]))
    && (forall j :: 0 <= j < i && j < |slots| && kind.fields[j].rule.Required? && RequiredBefore(kind.fields, j) < MAX_REQUIRED_FIELDS ==>
      RequiredBefore(kind.fields, j) in p.seen)
  }

  /** What the whole struct promises of its i-th slot. */
  lemma SlotOf(kind: Kind, slots: seq<Slot>, i: nat)
    requires kind.Message? && GoodKind(kind) && HasType(kind, Struct(slots)) && Encodable(kind, Struct(slots)) && i < |slots|
    ensures |slots| == |kind.fields| && GoodKind(kind.fields[i].kind) && kind.fields[i].kind < kind
    ensures SlotFits(kind.fields[i].rule, kind.fields[i].kind, slots[i]) && SlotEncodable(kind.fields[i].rule, kind.fields[i].kind, slots[i])
    ensures Terminated(kind, Struct(slots)) ==> SlotTerminated(kind.fields[i].rule, kind.fields[i].kind, slots[i])
  {
  }

  /** Setting one slot of a plain field. */
  lemma PlainReached(kind: Kind, slots: seq<Slot>, i: nat, p: Progress, v: Value)
    requires Reached(kind, slots, i, p) && i < |slots| && slots[i].One? && Present(kind.fields[i].rule, kind.fields[i].kind, slots[i])
    requires v == Normal(kind.fields[i].kind, slots[i].value)
    ensures Reached(kind, slots, i + 1, Progress(p.slots[i := One(true, v)], Marked(kind.fields, i, p.seen), p.fixed))
  {
    hide Normal, ZeroSlot, Present, RequiredBefore;
  }

  /** Naming a union's field takes the name from no other. */
  lemma UnionUnchanged(kind: Kind, slots: seq<Slot>, i: nat, p: Progress)
    requires Reached(kind, slots, i, p) && i < |slots| && HasType(kind, Struct(slots))
    requires kind.fields[i].rule.OneOf? && slots[i].One? && slots[i].has
    ensures UnionOf(kind.fields, p.slots, i, |p.slots|) == p.slots
  {
    hide Zero;
    var r := UnionOf(kind.fields, p.slots, i, |p.slots|);
    forall j | 0 <= j < |r| ensures r[j] == p.slots[j] {
      if j != i && kind.fields[j].rule == kind.fields[i].rule {
        assert SlotFits(kind.fields[j].rule, kind.fields[j].kind, slots[j]);
        assert OneOfExclusive(kind.fields, slots);
        assert !slots[j].has;
      }
    }
  }

  /** A slot that is not written stays at its default. */
  lemma AbsentBack(kind: Kind, slots: seq<Slot>, i: nat, p: Progress)
    requires Reached(kind, slots, i, p) && i < |slots| && SlotFits(kind.fields[i].rule, kind.fields[i].kind, slots[i])
    requires if slots[i].Many? then slots[i].items == [] else !Present(kind.fields[i].rule, kind.fields[i].kind, slots[i])
    ensures EncodeSlot(kind.fields[i].tag, kind.fields[i].rule, kind.fields[i].kind, slots[i]) == []
    ensures SlotTerminated(kind.fields[i].rule, kind.fields[i].kind, slots[i])
    ensures Reached(kind, slots, i + 1, p)
  {
    hide IsZero, Zero, HasType, RequiredBefore, Terminated;
    assert !kind.fields[i].rule.Required?;
  }

  /** One member with its tag. */
  lemma PresentBack(kind: Kind, slots: seq<Slot>, i: nat, tail: Bytes, p: Progress) returns (p': Progress)
    requires kind.Message? && GoodKind(kind) && HasType(kind, Struct(slots)) && Encodable(kind, Struct(slots))
    requires Reached(kind, slots, i, p) && i < |slots| && slots[i].One? && Present(kind.fields[i].rule, kind.fields[i].kind, slots[i])
    requires |EncodeSlot(kind.fields[i].tag, kind.fields[i].rule, kind.fields[i].kind, slots[i])| < TWO_TO_THE_32
    ensures var f := kind.fields[i]; var s := EncodeSlot(f.tag, f.rule, f.kind, slots[i]) + tail;
      if SlotTerminated(f.rule, f.kind, slots[i]) then Reached(kind, slots, i + 1, p') && DecodeFields(kind, s, p) == DecodeFields(kind, tail, p')
      else DecodeFields(kind, s, p) == None
    decreases kind, 1
  {
    hide GoodKind, HasType, Encodable, TagBytes, Encode, DecodeFields, DecodeValue, Normal, Terminated, IsZero, RequiredBefore;
    SlotOf(kind, slots, i);
    var f, v := kind.fields[i], slots[i].value;
    var body := Encode(f.kind, v) + tail;
    assert EncodeSlot(f.tag, f.rule, f.kind, slots[i]) + tail == TagBytes(f.tag, WireType(f.kind)) + body;
    FieldStep(kind, i, WireType(f.kind), body, p);
    assert p.slots[i] == ZeroSlot(f.rule, f.kind);
    ValueBack(f.kind, v, tail);
    if f.rule.OneOf? { UnionUnchanged(kind, slots, i, p); }
    p' := Progress(p.slots[i := One(true, Normal(f.kind, v))], Marked(kind.fields, i, p.seen), p.fixed);
    PlainReached(kind, slots, i, p, Normal(f.kind, v));
  }

  lemma ValueBack(kind: Kind, v: Value, rest: Bytes)
    requires GoodKind(kind) && HasType(kind, v) && Encodable(kind, v) && |Encode(kind, v)| < TWO_TO_THE_32
    ensures DecodeValue(kind, Encode(kind, v) + rest, Zero(kind)) == if Terminated(kind, v) then Some((Normal(kind, v), rest)) else None
    decreases kind, 7
  {
    if kind.Message? {
      MessageValueBack(kind, v.slots, rest);
    } else {
      ScalarBack(kind, v, Zero(kind), rest);
    }
  }

  // ------------------------------------------------------------------- arrays

  lemma NoNormalItems(kind: Kind)
    ensures NormalItems(kind, []) == []
  {
  }

  lemma {:induction false} NormalItemsAppend(kind: Kind, items: seq<Value>, k: nat)
    requires k < |items|
    ensures NormalItems(kind, items[..k + 1]) == NormalItems(kind, items[..k]) + [Normal(kind, items[k])]
  {
    hide Normal;
    if k > 0 {
      NormalItemsAppend(kind, items[1..], k - 1);
      assert items[..k + 1][1..] == items[1..][..k] && items[..k][1..] == items[1..][..k - 1];
    } else {
      assert items[..1][1..] == [];
    }
  }

  /** The entries of a packed array, after those already read. */
  lemma {:induction false} PackedBack(kind: Kind, items: seq<Value>, before: seq<Value>, capacity: nat)
    requires Packable(kind) && GoodKind(kind) && forall i :: 0 <= i < |items| ==> HasType(kind, items[i])
    requires |before| + |items| <= capacity && |EncodeItems(kind, items)| < TWO_TO_THE_32
    ensures DecodePacked(kind, EncodeItems(kind, items), before, capacity) == Some(before + NormalItems(kind, items))
    decreases |items|
  {
    hide Encode, Normal, DecodeValue, HasType, GoodKind;
    if items == [] {
      assert before + NormalItems(kind, items) == before;
    } else {
      var rest := EncodeItems(kind, items[1..]);
      assert Encodable(kind, items[0]) && Terminated(kind, items[0]);
      ScalarBack(kind, items[0], Zero(kind), rest);
      assert EncodeItems(kind, items) != [] by { if EncodeItems(kind, items) == [] { NoneRead(kind); } }
      PackedBack(kind, items[1..], before + [Normal(kind, items[0])], capacity);
      assert before + [Normal(kind, items[0])] + NormalItems(kind, items[1..]) == before + NormalItems(kind, items);
    }
  }

  lemma NoneRead(kind: Kind)
    ensures DecodeValue(kind, [], Zero(kind)) == None
  {
  }

  lemma ArrayReached(kind: Kind, slots: seq<Slot>, i: nat, p: Progress, p': Progress)
    requires Reached(kind, slots, i, p) && i < |slots| && slots[i].Many? && SlotFits(kind.fields[i].rule, kind.fields[i].kind, slots[i])
    requires p'.slots == p.slots[i := Many(NormalItems(kind.fields[i].kind, slots[i].items))] && p'.seen == p.seen
    requires p'.fixed == if kind.fields[i].rule.FixedCount? then Some(i) else p.fixed
    ensures Reached(kind, slots, i + 1, p')
  {
    hide NormalItems, ZeroSlot, RequiredBefore, HasType;
    assert |NormalItems(kind.fields[i].kind, slots[i].items)| == |slots[i].items|;
    assert NormalSlot(kind.fields[i].rule, kind.fields[i].kind, slots[i]) == Many(NormalItems(kind.fields[i].kind, slots[i].items));
    assert !kind.fields[i].rule.Required?;
  }

  /** A packed array comes back whole. */
  lemma PackedFieldBack(kind: Kind, slots: seq<Slot>, i: nat, tail: Bytes, p: Progress) returns (p': Progress)
    requires kind.Message? && GoodKind(kind) && HasType(kind, Struct(slots)) && Encodable(kind, Struct(slots))
    requires Reached(kind, slots, i, p) && i < |slots| && slots[i].Many? && slots[i].items != [] && Packable(kind.fields[i].kind)
    requires |EncodeSlot(kind.fields[i].tag, kind.fields[i].rule, kind.fields[i].kind, slots[i])| < TWO_TO_THE_32
    ensures var f := kind.fields[i]; var s := EncodeSlot(f.tag, f.rule, f.kind, slots[i]) + tail;
      SlotTerminated(f.rule, f.kind, slots[i]) && Reached(kind, slots, i + 1, p') && DecodeFields(kind, s, p) == DecodeFields(kind, tail, p')
  {
    hide GoodKind, HasType, Encodable, TagBytes, EncodeItems, DecodeFields, DecodePacked, NormalItems, RequiredBefore, TakeString, PutLengthPrefixed;
    SlotOf(kind, slots, i);
    var f, items := kind.fields[i], slots[i].items;
    var b := EncodeItems(f.kind, items);
    var body := PutLengthPrefixed(b) + tail;
    PrefixedLength(b);
    assert EncodeSlot(f.tag, f.rule, f.kind, slots[i]) + tail == TagBytes(f.tag, WT_STRING) + body;
    FieldStep(kind, i, WT_STRING, body, p);
    StringBack(b, tail);
    PackedBack(f.kind, items, [], f.rule.arraySize);
    assert p.slots[i] == ZeroSlot(f.rule, f.kind);
    assert [] + NormalItems(f.kind, items) == NormalItems(f.kind, items);
    p' := Progress(p.slots[i := Many(NormalItems(f.kind, items))], p.seen, if f.rule.FixedCount? then Some(i) else p.fixed);
    ArrayReached(kind, slots, i, p, p');
  }

  /** Of an array with a tag an entry, the first k entries have come back. */
  ghost predicate Filling(kind: Kind, slots: seq<Slot>, i: nat, k: nat, p: Progress, q: Progress)
    requires kind.Message? && |slots| == |kind.fields| && i < |slots| && slots[i].Many? && k <= |slots[i].items| && |p.slots| == |slots|
  {
    && q.slots == p.slots[i := Many(NormalItems(kind.fields[i].kind, slots[i].items[..k]))] && q.seen == p.seen
    && q.fixed == if k > 0 && kind.fields[i].rule.FixedCount? then Some(i) else p.fixed
  }

  /** One entry with its tag. */
  lemma EntryBack(kind: Kind, slots: seq<Slot>, i: nat, k: nat, tail: Bytes, p: Progress, q: Progress) returns (q': Progress)
    requires kind.Message? && GoodKind(kind) && HasType(kind, Struct(slots)) && Encodable(kind, Struct(slots))
    requires Reached(kind, slots, i, p) && i < |slots| && slots[i].Many? && k < |slots[i].items| && !Packable(kind.fields[i].kind)
    requires Filling(kind, slots, i, k, p, q) && |Encode(kind.fields[i].kind, slots[i].items[k])| < TWO_TO_THE_32
    ensures var f := kind.fields[i]; var s := TagBytes(f.tag, WireType(f.kind)) + (Encode(f.kind, slots[i].items[k]) + tail);
      if Terminated(f.kind, slots[i].items[k]) then Filling(kind, slots, i, k + 1, p, q') && DecodeFields(kind, s, q) == DecodeFields(kind, tail, q')
      else DecodeFields(kind, s, q) == None
    decreases kind, 0
  {
    hide GoodKind, HasType, Encodable, TagBytes, Encode, DecodeFields, DecodeValue, Normal, NormalItems, Terminated, RequiredBefore;
    SlotOf(kind, slots, i);
    var f, items := kind.fields[i], slots[i].items;
    var body := Encode(f.kind, items[k]) + tail;
    FieldStep(kind, i, WireType(f.kind), body, q);
    ValueBack(f.kind, items[k], tail);
    NormalItemsAppend(f.kind, items, k);
    q' := Progress(p.slots[i := Many(NormalItems(f.kind, items[..k + 1]))], p.seen, if f.rule.FixedCount? then Some(i) else p.fixed);
    assert items[..0] == [] && (k == 0 ==> NormalItems(f.kind, items[..k]) == []);
    assert q.slots[i := Many(NormalItems(f.kind, items[..k + 1]))] == q'.slots;
    assert |NormalItems(f.kind, items[..k])| == k;
    assert Marked(kind.fields, i, q.seen) == q.seen;
    if k == 0 && f.rule.FixedCount? {
      assert q.fixed != Some(i);
      CompleteKept(kind, slots, i, p, q);
    }
  }

  lemma CompleteKept(kind: Kind, slots: seq<Slot>, i: nat, p: Progress, q: Progress)
    requires Reached(kind, slots, i, p) && i < |slots| && |q.slots| == |p.slots| && q.fixed == p.fixed
    requires forall j :: 0 <= j < |p.slots| && j != i ==> q.slots[j] == p.slots[j]
    ensures Complete(kind.fields, q)
  {
  }

  lemma {:induction false} UnpackedBack(kind: Kind, slots: seq<Slot>, i: nat, k: nat, tail: Bytes, p: Progress, q: Progress) returns (p': Progress)
    requires kind.Message? && |slots| == |kind.fields|
    requires kind.Message? && GoodKind(kind) && HasType(kind, Struct(slots)) && Encodable(kind, Struct(slots))
    requires Reached(kind, slots, i, p) && i < |slots| && slots[i].Many? && k <= |slots[i].items| && !Packable(kind.fields[i].kind)
    requires Filling(kind, slots, i, k, p, q)
    requires |EncodeArray(kind.fields[i].tag, kind.fields[i].kind, slots[i].items[k..])| < TWO_TO_THE_32
    ensures var f, items := kind.fields[i], slots[i].items; var s := EncodeArray(f.tag, f.kind, items[k..]) + tail;
      if forall m :: k <= m < |items| ==> Terminated(f.kind, items[m]) then
        Filling(kind, slots, i, |items|, p, p') && DecodeFields(kind, s, q) == DecodeFields(kind, tail, p')
      else DecodeFields(kind, s, q) == None
    decreases kind, 1, |slots[i].items| - k
  {
    hide GoodKind, HasType, Encodable, TagBytes, Encode, DecodeFields, Terminated, Reached, Filling;
    var f, items := kind.fields[i], slots[i].items;
    if k == |items| {
      p' := q;
      assert EncodeArray(f.tag, f.kind, items[k..]) + tail == tail;
    } else {
      var more := EncodeArray(f.tag, f.kind, items[k + 1..]);
      assert items[k..][0] == items[k] && items[k..][1..] == items[k + 1..];
      assert EncodeArray(f.tag, f.kind, items[k..]) + tail == TagBytes(f.tag, WireType(f.kind)) + (Encode(f.kind, items[k]) + (more + tail));
      var q' := EntryBack(kind, slots, i, k, more + tail, p, q);
      if Terminated(f.kind, items[k]) {
        p' := UnpackedBack(kind, slots, i, k + 1, tail, p, q');
      } else {
        p' := q;
      }
    }
  }

  lemma ArrayBack(kind: Kind, slots: seq<Slot>, i: nat, tail: Bytes, p: Progress) returns (p': Progress)
    requires kind.Message? && GoodKind(kind) && HasType(kind, Struct(slots)) && Encodable(kind, Struct(slots))
    requires Reached(kind, slots, i, p) && i < |slots| && slots[i].Many? && slots[i].items != []
    requires |EncodeSlot(kind.fields[i].tag, kind.fields[i].rule, kind.fields[i].kind, slots[i])| < TWO_TO_THE_32
    ensures var f := kind.fields[i]; var s := EncodeSlot(f.tag, f.rule, f.kind, slots[i]) + tail;
      if SlotTerminated(f.rule, f.kind, slots[i]) then Reached(kind, slots, i + 1, p') && DecodeFields(kind, s, p) == DecodeFields(kind, tail, p')
      else DecodeFields(kind, s, p) == None
    decreases kind, 2
  {
    hide GoodKind, HasType, Encodable, EncodeArray, DecodeFields, Terminated, NormalItems;
    NoNormalItems(kind.fields[i].kind);
    SlotOf(kind, slots, i);
    var f, items := kind.fields[i], slots[i].items;
    if Packable(f.kind) {
      p' := PackedFieldBack(kind, slots, i, tail, p);
    } else {
      assert items[0..] == items && items[..0] == [] && items[..|items|] == items;
      assert p.slots[i] == ZeroSlot(f.rule, f.kind);
      assert p.slots[i := Many([])] == p.slots;
      p' := UnpackedBack(kind, slots, i, 0, tail, p, p);
      if SlotTerminated(f.rule, f.kind, slots[i]) { ArrayReached(kind, slots, i, p, p'); }
    }
  }

  // ----------------------------------------------------------------- messages

  lemma SlotBack(kind: Kind, slots: seq<Slot>, i: nat, tail: Bytes, p: Progress) returns (p': Progress)
    requires kind.Message? && GoodKind(kind) && HasType(kind, Struct(slots)) && Encodable(kind, Struct(slots))
    requires Reached(kind, slots, i, p) && i < |slots|
    requires |EncodeSlot(kind.fields[i].tag, kind.fields[i].rule, kind.fields[i].kind, slots[i])| < TWO_TO_THE_32
    ensures var f := kind.fields[i]; var s := EncodeSlot(f.tag, f.rule, f.kind, slots[i]) + tail;
      if SlotTerminated(f.rule, f.kind, slots[i]) then Reached(kind, slots, i + 1, p') && DecodeFields(kind, s, p) == DecodeFields(kind, tail, p')
      else DecodeFields(kind, s, p) == None
    decreases kind, 3
  {
    hide GoodKind, HasType, Encodable, EncodeSlot, DecodeFields, SlotTerminated, Reached, Present;
    SlotOf(kind, slots, i);
    var f := kind.fields[i];
    if slots[i].Many? && slots[i].items != [] {
      p' := ArrayBack(kind, slots, i, tail, p);
    } else if slots[i].One? && Present(f.rule, f.kind, slots[i]) {
      p' := PresentBack(kind, slots, i, tail, p);
    } else {
      p' := p;
      AbsentBack(kind, slots, i, p);
      assert EncodeSlot(f.tag, f.rule, f.kind, slots[i]) + tail == tail;
    }
  }

  ghost predicate TerminatedFrom(kind: Kind, slots: seq<Slot>, i: nat)
    requires kind.Message? && |slots| == |kind.fields|
  {
    forall j :: i <= j < |slots| ==> SlotTerminated(kind.fields[j].rule, kind.fields[j].kind, slots[j])
  }

  lemma {:induction false} FieldsBack(kind: Kind, slots: seq<Slot>, i: nat, p: Progress) returns (p': Progress)
    requires kind.Message? && |slots| == |kind.fields|
    requires GoodKind(kind) && HasType(kind, Struct(slots)) && Encodable(kind, Struct(slots))
    requires Reached(kind, slots, i, p) && i <= |slots| && |EncodeFields(kind, slots, i)| < TWO_TO_THE_32
    ensures if TerminatedFrom(kind, slots, i) then Reached(kind, slots, |slots|, p') && DecodeFields(kind, EncodeFields(kind, slots, i), p) == Some(p')
            else DecodeFields(kind, EncodeFields(kind, slots, i), p) == None
    decreases kind, 4, |slots| - i
  {
    hide GoodKind, HasType, Encodable, EncodeSlot, SlotTerminated, Reached;
    if i == |slots| {
      p' := p;
    } else {
      hide DecodeFields;
      var q := SlotBack(kind, slots, i, EncodeFields(kind, slots, i + 1), p);
      if SlotTerminated(kind.fields[i].rule, kind.fields[i].kind, slots[i]) {
        p' := FieldsBack(kind, slots, i + 1, q);
      } else {
        p' := p;
      }
    }
  }

  lemma StartReached(kind: Kind, slots: seq<Slot>)
    requires kind.Message? && |slots| == |kind.fields|
    ensures Reached(kind, slots, 0, Progress(ZeroSlots(kind, |kind.fields|), {}, None))
  {
    hide ZeroSlot;
    forall j | 0 <= j < |slots| ensures ZeroSlots(kind, |slots|)[j] == ZeroSlot(kind.fields[j].rule, kind.fields[j].kind) { ZeroAt(kind, |slots|, j); }
  }

  lemma {:induction false} RequiredOrdinal(fields: seq<Field>, n: nat, m: nat) returns (j: nat)
    requires m <= |fields| && n < RequiredBefore(fields, m)
    ensures j < m && fields[j].rule.Required? && RequiredBefore(fields, j) == n
  {
    if n < RequiredBefore(fields, m - 1) {
      j := RequiredOrdinal(fields, n, m - 1);
    } else {
      j := m - 1;
    }
  }

  lemma EndReached(kind: Kind, slots: seq<Slot>, p: Progress)
    requires Reached(kind, slots, |slots|, p)
    ensures p.slots == NormalSlots(kind, slots, |slots|) && Complete(kind.fields, p) && AllRequired(kind.fields, p.seen)
  {
    hide NormalSlot;
    forall j | 0 <= j < |slots| ensures p.slots[j] == NormalSlots(kind, slots, |slots|)[j] { NormalAt(kind, slots, |slots|, j); }
    forall n | 0 <= n < RequiredBefore(kind.fields, |kind.fields|) && n < MAX_REQUIRED_FIELDS ensures n in p.seen {
      var j := RequiredOrdinal(kind.fields, n, |kind.fields|);
    }
  }

  /** Decoding the encoding of a message gives it back, with what is absent at its default; it fails
      exactly if some string that is present fills its array to the end. */
  lemma MessageBack(kind: Kind, slots: seq<Slot>)
    requires kind.Message? && |slots| == |kind.fields|
    requires GoodKind(kind) && HasType(kind, Struct(slots)) && Encodable(kind, Struct(slots)) && |EncodeFields(kind, slots, 0)| < TWO_TO_THE_32
    ensures Decode(kind, EncodeFields(kind, slots, 0)) == if Terminated(kind, Struct(slots)) then Some(Normal(kind, Struct(slots))) else None
    decreases kind, 5
  {
    hide GoodKind, HasType, Encodable, EncodeFields, SlotTerminated, Reached, DecodeFields;
    StartReached(kind, slots);
    var p' := FieldsBack(kind, slots, 0, Progress(ZeroSlots(kind, |kind.fields|), {}, None));
    if TerminatedFrom(kind, slots, 0) { EndReached(kind, slots, p'); }
  }

  lemma MessageValueBack(kind: Kind, slots: seq<Slot>, rest: Bytes)
    requires kind.Message? && |slots| == |kind.fields|
    requires GoodKind(kind) && HasType(kind, Struct(slots)) && Encodable(kind, Struct(slots)) && |Encode(kind, Struct(slots))| < TWO_TO_THE_32
    ensures DecodeValue(kind, Encode(kind, Struct(slots)) + rest, Zero(kind)) ==
            if Terminated(kind, Struct(slots)) then Some((Normal(kind, Struct(slots)), rest)) else None
    decreases kind, 6
  {
    hide GoodKind, HasType, Encodable, EncodeFields, Terminated, Normal, TakeString, PutLengthPrefixed, DecodeMessage, ZeroSlots;
    var b := EncodeFields(kind, slots, 0);
    PrefixedLength(b);
    StringBack(b, rest);
    MessageBack(kind, slots);
  }

  /** What a singular field does not write was its default already. */
  lemma {:induction false} ZeroIsNormal(kind: Kind, v: Value)
    requires HasType(kind, v) && IsZero(kind, v)
    ensures Normal(kind, v) == Zero(kind)
    decreases kind, 1
  {
    match kind
    case FixedBytes(n) => assert v.bytes == Zeros(0);
    case Message(fields) => ZeroSlotsAreNormal(kind, v.slots, |fields|);
    case _ =>
  }

  lemma {:induction false} ZeroSlotsAreNormal(kind: Kind, slots: seq<Slot>, n: nat)
    requires kind.Message? && HasType(kind, Struct(slots)) && IsZero(kind, Struct(slots)) && n <= |slots|
    ensures |slots| == |kind.fields| && NormalSlots(kind, slots, n) == ZeroSlots(kind, n)
    decreases kind, 0, n
  {
    if n > 0 {
      ZeroSlotsAreNormal(kind, slots, n - 1);
      var f, slot := kind.fields[n - 1], slots[n - 1];
      assert SlotFits(f.rule, f.kind, slot) && SlotIsZero(f.rule, f.kind, slot);
      if f.rule.Singular? { ZeroIsNormal(f.kind, slot.value); }
      assert NormalSlot(f.rule, f.kind, slot) == ZeroSlot(f.rule, f.kind);
    }
  }

  // A message with one string member of two bytes.
  const TWO_CHARS: Kind := Message([Field(1, Required, CString(2))])

  lemma TwoCharsEncoding(v: Value)
    requires v == Blob([104, 105])
    ensures HasType(CString(2), v) && !Terminated(CString(2), v) && Encode(CString(2), v) == [2, 104, 105]
  {
    assert CStringOf([104, 105], 2) == [104] + CStringOf([105], 1) && CStringOf([105], 1) == [105] + CStringOf([], 0);
  }

  lemma OneFieldEncoding(f: Field, slot: Slot)
    ensures EncodeFields(Message([f]), [slot], 0) == EncodeSlot(f.tag, f.rule, f.kind, slot)
  {
    hide EncodeSlot;
    assert EncodeFields(Message([f]), [slot], 1) == [];
  }

  /** The encoder takes a string that fills its array; the decoder does not take it back. */
  lemma FullStringLost()
    ensures var m := Struct([One(true, Blob([104, 105]))]);
      && GoodKind(TWO_CHARS) && HasType(TWO_CHARS, m) && Encodable(TWO_CHARS, m)
      && Decode(TWO_CHARS, EncodeFields(TWO_CHARS, m.slots, 0)) == None
  {
    var v := Blob([104, 105]);
    var m, f := Struct([One(true, v)]), Field(1, Required, CString(2));
    assert TWO_CHARS.fields == [f] && GoodKind(CString(2));
    TwoCharsEncoding(v);
    OneFieldEncoding(f, m.slots[0]);
    hide Encode, CStringOf, EncodeFields, Decode;
    assert SlotFits(Required, CString(2), One(true, v)) && SlotEncodable(Required, CString(2), One(true, v));
    assert !SlotTerminated(f.rule, f.kind, m.slots[0]);
    assert TagBytes(1, 2) == [10];
    MessageBack(TWO_CHARS, m.slots);
  }
}
