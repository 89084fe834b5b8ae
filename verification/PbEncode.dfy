/** The encoder (nanopb/pb_encode.c). A submessage is encoded twice: into a stream that only counts, for
    its length, and then into the real one. */
module PbEncode {
  import opened Coding
  import opened PbMessages

  /** An output stream: a sizing stream has no callback and only counts. */
  class OStream {
    const sizing: bool
    const maxSize: nat
    var written: nat
    var out: Bytes

    constructor (sizing: bool, maxSize: nat, out: Bytes)
      ensures this.sizing == sizing && this.maxSize == maxSize && written == 0 && this.out == out
    {
      this.sizing, this.maxSize, written, this.out := sizing, maxSize, 0, out;
    }
  }

  // A stream and what has been written to it.
  datatype Sink = Sink(sizing: bool, maxSize: nat, written: nat, out: Bytes)

  function At(stream: OStream): Sink
    reads stream
  {
    Sink(stream.sizing, stream.maxSize, stream.written, stream.out)
  }

  predicate Room(s: Sink) {
    s.sizing || s.written <= s.maxSize
  }

  predicate Fits(s: Sink, count: nat) {
    s.sizing || s.written + count <= s.maxSize
  }

  /** The bytes b take the stream from s to t. */
  predicate Wrote(s: Sink, t: Sink, b: Bytes) {
    t.sizing == s.sizing && t.maxSize == s.maxSize && t.written == s.written + |b| && t.out == (if s.sizing then s.out else s.out + b) && Fits(s, |b|)
  }

  /** What each encoder does: it succeeds exactly if the value is encodable and its bytes fit, and then
      it has written them, or counted them. */
  predicate Did(s: Sink, t: Sink, ok: bool, encodable: bool, b: Bytes) {
    (ok <==> encodable && Fits(s, |b|)) && (ok ==> Wrote(s, t, b))
  }

  lemma Then(s: Sink, t: Sink, u: Sink, b: Bytes, c: Bytes)
    requires Wrote(s, t, b) && Wrote(t, u, c)
    ensures Wrote(s, u, b + c)
  {
  }

  /** A success after the bytes b is a success with them in front. */
  lemma DidThen(s: Sink, t: Sink, u: Sink, ok: bool, b: Bytes, encodable: bool, c: Bytes)
    requires Wrote(s, t, b) && Did(t, u, ok, encodable, c)
    ensures Did(s, u, ok, encodable, b + c)
  {
    if ok { Then(s, t, u, b, c); }
  }

  /** What failed in part fails as a whole. */
  lemma DidNot(s: Sink, t: Sink, part: bool, b: Bytes, whole: bool, c: Bytes)
    requires Did(s, t, false, part, b) && |b| <= |c| && (whole ==> part)
    ensures Did(s, t, false, whole, c)
  {
  }

  lemma DidIs(s: Sink, t: Sink, encodable: bool, b: Bytes)
    ensures Did(s, t, true, encodable, b) ==> Wrote(s, t, b) && encodable
    ensures Wrote(s, t, b) && encodable ==> Did(s, t, true, encodable, b)
    ensures Wrote(s, t, b) ==> Room(t) && t.sizing == s.sizing
    ensures !encodable ==> Did(s, t, false, encodable, b)
  {
  }

  lemma NothingWrote(s: Sink)
    requires Room(s)
    ensures Wrote(s, s, [])
  {
  }

  method Write(stream: OStream, b: Bytes) returns (ok: bool)
    modifies stream
    ensures Room(old(At(stream))) ==> Did(old(At(stream)), At(stream), ok, true, b)
  {
    if |b| > 0 && !stream.sizing {
      if stream.written + |b| > stream.maxSize {
        return false;
      }
      stream.out := stream.out + b;
    }
    stream.written := stream.written + |b|;
    ok := true;
  }

  /** pb_write without data, on a stream that only counts. */
  method Count(stream: OStream, ghost b: Bytes, count: nat)
    requires stream.sizing && count == |b|
    modifies stream
    ensures Wrote(old(At(stream)), At(stream), b)
  {
    stream.written := stream.written + count;
  }

  method EncodeVarint(stream: OStream, value: nat) returns (ok: bool)
    requires Room(At(stream))
    modifies stream
    ensures Did(old(At(stream)), At(stream), ok, true, Varint(value))
  {
    var buffer := VarintBuffer(value);
    hide *;
    ok := Write(stream, buffer);
  }

  /** Seven bits a byte, the top bit set; then the top bit of the last byte is cleared. */
  method VarintBuffer(value: nat) returns (buffer: Bytes)
    ensures buffer == Varint(value)
  {
    if value <= 0x7F {
      return [value];
    }
    buffer := [];
    var left: nat := value;
    while left != 0
      decreases left
      invariant left > 0 ==> Varint(value) == buffer + Varint(left)
      invariant left == 0 ==> buffer != [] && Varint(value) == LastCleared(buffer)
    {
      VarintStep(buffer, left);
      buffer := buffer + [left % 128 + 128];
      left := left / 128;
    }
    buffer := buffer[..|buffer| - 1] + [buffer[|buffer| - 1] % 128];
  }

  function LastCleared(b: Bytes): Bytes
    requires b != []
  {
    b[..|b| - 1] + [b[|b| - 1] % 128]
  }

  lemma VarintStep(buffer: Bytes, left: nat)
    requires left > 0
    ensures left >= 128 ==> buffer + Varint(left) == buffer + [left % 128 + 128] + Varint(left / 128)
    ensures left < 128 ==> buffer + Varint(left) == LastCleared(buffer + [left % 128 + 128])
  {
    var last: Byte := left % 128 + 128;
    var b: Bytes := buffer + [last];
    if left >= 128 {
      hide LastCleared;
      assert More(left) == last;
      assert Varint(left) == [last] + Varint(left / 128);
    } else {
      LowSeven(left);
      assert Varint(left) == [left];
      hide Varint;
      assert b[|b| - 1] == last && b[..|b| - 1] == buffer;
    }
  }

  lemma LowSeven(left: nat)
    requires left < 128
    ensures left % 128 == left && (left + 128) % 128 == left
  {
  }

  method EncodeTag(stream: OStream, wire: nat, tag: nat) returns (ok: bool)
    requires Room(At(stream))
    modifies stream
    ensures Did(old(At(stream)), At(stream), ok, true, TagBytes(tag, wire))
  {
    ok := EncodeVarint(stream, tag * 8 + wire);
  }

  method EncodeString(stream: OStream, b: Bytes) returns (ok: bool)
    requires Room(At(stream))
    modifies stream
    ensures Did(old(At(stream)), At(stream), ok, true, PutLengthPrefixed(b))
  {
    hide *;
    ghost var s := At(stream);
    ok := EncodeVarint(stream, |b|);
    LengthPrefixedIs(b);
    if !ok {
      DidNot(s, At(stream), true, Varint(|b|), true, PutLengthPrefixed(b));
      return;
    }
    ghost var t := At(stream);
    DidIs(s, t, true, Varint(|b|));
    ok := Write(stream, b);
    DidThen(s, t, At(stream), ok, Varint(|b|), true, b);
  }

  lemma LengthPrefixedIs(b: Bytes)
    ensures PutLengthPrefixed(b) == Varint(|b|) + b
    ensures |PutLengthPrefixed(b)| == |Varint(|b|)| + |b|
  {
  }

  /** The string ends at its zero byte, or with the array. */
  method EncodeCString(stream: OStream, s: Bytes, dataSize: nat) returns (ok: bool)
    requires Room(At(stream))
    modifies stream
    ensures Did(old(At(stream)), At(stream), ok, true, PutLengthPrefixed(CStringOf(s, dataSize)))
  {
    var size := StringLength(s, dataSize);
    hide *;
    ok := EncodeString(stream, s[..size]);
  }

  method StringLength(s: Bytes, dataSize: nat) returns (size: nat)
    ensures size <= |s| && s[..size] == CStringOf(s, dataSize)
  {
    hide CStringOf;
    size := 0;
    assert s[..0] == [] && s[0..] == s;
    while size < |s| && size < dataSize && s[size] != 0
      invariant size <= |s| && size <= dataSize
      invariant CStringOf(s, dataSize) == s[..size] + CStringOf(s[size..], dataSize - size)
    {
      CStringStep(s, dataSize, size);
      size := size + 1;
    }
    CStringEnd(s[size..], dataSize - size);
    assert s[..size] + [] == s[..size];
  }

  lemma CStringEnd(s: Bytes, max: nat)
    requires s == [] || max == 0 || s[0] == 0
    ensures CStringOf(s, max) == []
  {
  }

  lemma CStringStep(s: Bytes, dataSize: nat, size: nat)
    requires size < |s| && size < dataSize && s[size] != 0
    ensures s[..size] + CStringOf(s[size..], dataSize - size) == s[..size + 1] + CStringOf(s[size + 1..], dataSize - (size + 1))
  {
    hide CStringOf;
    var rest := s[size..];
    assert rest[0] == s[size] && rest[1..] == s[size + 1..];
    CStringGoesOn(rest, dataSize - size);
    var more := CStringOf(s[size + 1..], dataSize - (size + 1));
    assert s[..size + 1] == s[..size] + [s[size]];
    assert s[..size] + ([s[size]] + more) == s[..size] + [s[size]] + more;
  }

  lemma CStringGoesOn(s: Bytes, max: nat)
    requires s != [] && max > 0 && s[0] != 0
    ensures CStringOf(s, max) == [s[0]] + CStringOf(s[1..], max - 1)
  {
  }

  method EncodeValue(stream: OStream, kind: Kind, v: Value) returns (ok: bool)
    requires GoodKind(kind) && HasType(kind, v) && Room(At(stream))
    modifies stream
    ensures Did(old(At(stream)), At(stream), ok, Encodable(kind, v), Encode(kind, v))
    decreases kind, 3
  {
    hide Varint, EncodeFixed32, EncodeFixed64, EncodeFields, PutLengthPrefixed, CStringOf, OneOfExclusive;
    match kind
    case Boolean => ok := EncodeVarint(stream, if v.b then 1 else 0);
    case Signed(_) => ok := EncodeVarint(stream, TwosComplement(v.n));
    case Unsigned(_) => ok := EncodeVarint(stream, v.n);
    case ZigZag(_) => ok := EncodeVarint(stream, ZigZagOf(v.n));
    case Fixed32 =>
      FixedLengths(v.n);
      ok := Write(stream, EncodeFixed32(v.n));
    case Fixed64 =>
      FixedLengths(v.n);
      ok := Write(stream, EncodeFixed64(v.n));
    case ByteArray(dataSize) =>
      if |v.bytes| > dataSize {
        return false;
      }
      ok := EncodeString(stream, v.bytes);
    case CString(dataSize) => ok := EncodeCString(stream, v.bytes, dataSize);
    case FixedBytes(_) => ok := EncodeString(stream, v.bytes);
    case Message(fields) => ok := EncodeSubmessage(stream, kind, v.slots);
  }

  lemma FixedLengths(n: int)
    ensures 0 <= n < TWO_TO_THE_32 ==> |EncodeFixed32(n)| == 4
    ensures 0 <= n < TWO_TO_THE_64 ==> |EncodeFixed64(n)| == 8
  {
  }

  method EncodeSubmessage(stream: OStream, kind: Kind, slots: seq<Slot>) returns (ok: bool)
    requires kind.Message? && GoodKind(kind) && HasType(kind, Struct(slots)) && |slots| == |kind.fields| && Room(At(stream))
    modifies stream
    ensures Did(old(At(stream)), At(stream), ok, Encodable(kind, Struct(slots)), PutLengthPrefixed(EncodeFields(kind, slots, 0)))
    decreases kind, 2
  {
    hide Varint, EncodeFields, GoodKind, HasType, Encodable;
    // First calculate the message size with a non-writing substream.
    var substream := new OStream(true, 0, []);
    ok := EncodeMessage(substream, kind, slots);
    if !ok {
      return;
    }
    var size := substream.written;
    ok := EncodeVarint(stream, size);
    if !ok {
      return;
    }
    if stream.sizing {
      Count(stream, EncodeFields(kind, slots, 0), size);
      return;
    }
    if stream.written + size > stream.maxSize {
      return false;
    }
    substream := new OStream(false, size, stream.out);
    var status := EncodeMessage(substream, kind, slots);
    stream.written := stream.written + substream.written;
    stream.out := substream.out;
    if substream.written != size {
      // The size of a message without callbacks does not change.
      return false;
    }
    ok := status;
  }

  /** The fields before the i-th. */
  ghost function Before(kind: Kind, slots: seq<Slot>, i: nat): Bytes
    requires kind.Message? && |slots| == |kind.fields| && i <= |slots|
  {
    if i == 0 then [] else
      Before(kind, slots, i - 1) + EncodeSlot(kind.fields[i - 1].tag, kind.fields[i - 1].rule, kind.fields[i - 1].kind, slots[i - 1])
  }

  lemma {:induction false} BeforeAndAfter(kind: Kind, slots: seq<Slot>, i: nat)
    requires kind.Message? && |slots| == |kind.fields| && i <= |slots|
    ensures EncodeFields(kind, slots, 0) == Before(kind, slots, i) + EncodeFields(kind, slots, i)
  {
    hide EncodeSlot;
    if i > 0 {
      BeforeAndAfter(kind, slots, i - 1);
      var b := EncodeSlot(kind.fields[i - 1].tag, kind.fields[i - 1].rule, kind.fields[i - 1].kind, slots[i - 1]);
      assert EncodeFields(kind, slots, i - 1) == b + EncodeFields(kind, slots, i);
    }
  }

  lemma FieldOf(kind: Kind, slots: seq<Slot>, i: nat)
    requires kind.Message? && GoodKind(kind) && HasType(kind, Struct(slots)) && i < |slots|
    ensures |slots| == |kind.fields| && GoodKind(kind.fields[i].kind) && SlotFits(kind.fields[i].rule, kind.fields[i].kind, slots[i])
    ensures Encodable(kind, Struct(slots)) ==> SlotEncodable(kind.fields[i].rule, kind.fields[i].kind, slots[i])
    ensures kind.fields[i].kind < kind
  {
  }

  ghost predicate PrefixEncodable(kind: Kind, slots: seq<Slot>, n: nat)
    requires kind.Message? && |slots| == |kind.fields|
  {
    n <= |slots| && forall i :: 0 <= i < n ==> SlotEncodable(kind.fields[i].rule, kind.fields[i].kind, slots[i])
  }

  lemma NoneEncoded(kind: Kind, slots: seq<Slot>)
    requires kind.Message? && |slots| == |kind.fields|
    ensures Before(kind, slots, 0) == [] && PrefixEncodable(kind, slots, 0)
  {
  }

  lemma NoItems(tag: nat, kind: Kind, items: seq<Value>)
    ensures EncodeItems(kind, items[..0]) == [] && EncodeArray(tag, kind, items[..0]) == []
  {
  }

  lemma OneMoreEncodable(kind: Kind, slots: seq<Slot>, i: nat)
    requires kind.Message? && |slots| == |kind.fields| && i < |slots| && PrefixEncodable(kind, slots, i)
    ensures SlotEncodable(kind.fields[i].rule, kind.fields[i].kind, slots[i]) ==> PrefixEncodable(kind, slots, i + 1)
  {
  }

  lemma AllEncodable(kind: Kind, slots: seq<Slot>)
    requires kind.Message? && |slots| == |kind.fields| && PrefixEncodable(kind, slots, |slots|)
    ensures Encodable(kind, Struct(slots))
  {
  }

  method EncodeMessage(stream: OStream, kind: Kind, slots: seq<Slot>) returns (ok: bool)
    requires kind.Message? && GoodKind(kind) && HasType(kind, Struct(slots)) && |slots| == |kind.fields| && Room(At(stream))
    modifies stream
    ensures Did(old(At(stream)), At(stream), ok, Encodable(kind, Struct(slots)), EncodeFields(kind, slots, 0))
    decreases kind, 1
  {
    hide *;
    ghost var s := At(stream);
    NoneEncoded(kind, slots);
    NothingWrote(s);
    for i := 0 to |slots|
      invariant Wrote(s, At(stream), Before(kind, slots, i)) && Room(At(stream))
      invariant PrefixEncodable(kind, slots, i)
    {
      FieldOf(kind, slots, i);
      BeforeNext(kind, slots, i);
      ghost var t, f := At(stream), kind.fields[i];
      ok := EncodeBasicField(stream, kind.fields[i].tag, kind.fields[i].rule, kind.fields[i].kind, slots[i]);
      DidThen(s, t, At(stream), ok, Before(kind, slots, i), SlotEncodable(f.rule, f.kind, slots[i]), EncodeSlot(f.tag, f.rule, f.kind, slots[i]));
      if !ok {
        DidNot(s, At(stream), SlotEncodable(f.rule, f.kind, slots[i]), Before(kind, slots, i + 1), Encodable(kind, Struct(slots)), EncodeFields(kind, slots, 0));
        return;
      }
      DidIs(s, At(stream), SlotEncodable(f.rule, f.kind, slots[i]), Before(kind, slots, i + 1));
      OneMoreEncodable(kind, slots, i);
    }
    ok := true;
    BeforeAll(kind, slots);
    AllEncodable(kind, slots);
    DidIs(s, At(stream), Encodable(kind, Struct(slots)), EncodeFields(kind, slots, 0));
  }

  lemma BeforeNext(kind: Kind, slots: seq<Slot>, i: nat)
    requires kind.Message? && |slots| == |kind.fields| && i < |slots|
    ensures Before(kind, slots, i + 1) == Before(kind, slots, i) + EncodeSlot(kind.fields[i].tag, kind.fields[i].rule, kind.fields[i].kind, slots[i])
    ensures |Before(kind, slots, i + 1)| <= |EncodeFields(kind, slots, 0)|
  {
    BeforeAndAfter(kind, slots, i + 1);
  }

  lemma BeforeAll(kind: Kind, slots: seq<Slot>)
    requires kind.Message? && |slots| == |kind.fields|
    ensures Before(kind, slots, |slots|) == EncodeFields(kind, slots, 0)
  {
    BeforeAndAfter(kind, slots, |slots|);
  }

  method EncodeBasicField(stream: OStream, tag: nat, rule: Rule, kind: Kind, slot: Slot) returns (ok: bool)
    requires GoodKind(kind) && SlotFits(rule, kind, slot) && Room(At(stream))
    modifies stream
    ensures Did(old(At(stream)), At(stream), ok, SlotEncodable(rule, kind, slot), EncodeSlot(tag, rule, kind, slot))
    decreases kind, 5
  {
    hide *;
    ghost var s := At(stream);
    SlotCases(tag, rule, kind, slot);
    if slot.Many? {
      ok := EncodeRepeated(stream, tag, rule, kind, slot.items);
    } else if Present(rule, kind, slot) {
      ok := EncodeTagged(stream, tag, kind, slot.value);
    } else {
      ok := true;
      NothingWrote(s);
      DidIs(s, s, true, []);
    }
  }

  lemma SlotCases(tag: nat, rule: Rule, kind: Kind, slot: Slot)
    requires SlotFits(rule, kind, slot)
    ensures slot.Many? <==> rule.Repeated? || rule.FixedCount?
    ensures slot.Many? ==> EncodeSlot(tag, rule, kind, slot) == EncodeArray(tag, kind, slot.items) && slot == Many(slot.items)
    ensures slot.One? ==> HasType(kind, slot.value)
    ensures slot.One? && Present(rule, kind, slot) ==>
      EncodeSlot(tag, rule, kind, slot) == TagBytes(tag, WireType(kind)) + Encode(kind, slot.value) && (SlotEncodable(rule, kind, slot) <==> Encodable(kind, slot.value))
    ensures slot.One? && !Present(rule, kind, slot) ==> EncodeSlot(tag, rule, kind, slot) == [] && SlotEncodable(rule, kind, slot)
  {
    hide Encode, EncodeArray, Encodable, IsZero, HasType;
  }

  /** A tag and the data behind it. */
  method EncodeTagged(stream: OStream, tag: nat, kind: Kind, v: Value) returns (ok: bool)
    requires GoodKind(kind) && HasType(kind, v) && Room(At(stream))
    modifies stream
    ensures Did(old(At(stream)), At(stream), ok, Encodable(kind, v), TagBytes(tag, WireType(kind)) + Encode(kind, v))
    decreases kind, 4, 0
  {
    hide *;
    ghost var s, b, c := At(stream), TagBytes(tag, WireType(kind)), Encode(kind, v);
    ok := EncodeTag(stream, WireType(kind), tag);
    if !ok {
      DidNot(s, At(stream), true, b, Encodable(kind, v), b + c);
      return;
    }
    ghost var t := At(stream);
    DidIs(s, t, true, b);
    ok := EncodeValue(stream, kind, v);
    DidThen(s, t, At(stream), ok, b, Encodable(kind, v), c);
  }

  lemma {:induction false} ItemsSplit(kind: Kind, items: seq<Value>, i: nat)
    requires i <= |items|
    ensures EncodeItems(kind, items) == EncodeItems(kind, items[..i]) + EncodeItems(kind, items[i..])
  {
    hide Encode;
    if i == 0 {
      assert items[0..] == items;
    } else {
      ItemsSplit(kind, items[1..], i - 1);
      assert items[..i][1..] == items[1..][..i - 1] && items[1..][i - 1..] == items[i..];
    }
  }

  lemma ItemAdds(kind: Kind, items: seq<Value>, i: nat)
    requires i < |items|
    ensures EncodeItems(kind, items[..i + 1]) == EncodeItems(kind, items[..i]) + Encode(kind, items[i])
    ensures |EncodeItems(kind, items[..i + 1])| <= |EncodeItems(kind, items)|
  {
    ItemsSplit(kind, items[..i + 1], i);
    ItemsSplit(kind, items, i + 1);
    assert items[..i + 1][..i] == items[..i] && items[..i + 1][i..] == [items[i]];
  }

  /** The entries of a packed array, one after the other. */
  method EncodePacked(stream: OStream, kind: Kind, items: seq<Value>) returns (ok: bool)
    requires GoodKind(kind) && Packable(kind) && (forall i :: 0 <= i < |items| ==> HasType(kind, items[i])) && Room(At(stream))
    modifies stream
    ensures Did(old(At(stream)), At(stream), ok, true, EncodeItems(kind, items))
    decreases kind, 4, 0
  {
    hide *;
    ghost var s := At(stream);
    NoItems(0, kind, items);
    NothingWrote(s);
    for i := 0 to |items|
      invariant Wrote(s, At(stream), EncodeItems(kind, items[..i])) && Room(At(stream))
    {
      ItemAdds(kind, items, i);
      ghost var t := At(stream);
      ScalarEncodable(kind, items[i]);
      ok := EncodeValue(stream, kind, items[i]);
      DidThen(s, t, At(stream), ok, EncodeItems(kind, items[..i]), true, Encode(kind, items[i]));
      if !ok {
        DidNot(s, At(stream), true, EncodeItems(kind, items[..i + 1]), true, EncodeItems(kind, items));
        return;
      }
      DidIs(s, At(stream), true, EncodeItems(kind, items[..i + 1]));
    }
    assert items[..|items|] == items;
    ok := true;
    DidIs(s, At(stream), true, EncodeItems(kind, items));
  }

  lemma {:induction false} ArraySplit(tag: nat, kind: Kind, items: seq<Value>, i: nat)
    requires i <= |items| && !Packable(kind)
    ensures EncodeArray(tag, kind, items) == EncodeArray(tag, kind, items[..i]) + EncodeArray(tag, kind, items[i..])
  {
    hide Encode, TagBytes;
    if i == 0 {
      assert items[0..] == items;
    } else {
      ArraySplit(tag, kind, items[1..], i - 1);
      assert items[..i][1..] == items[1..][..i - 1] && items[1..][i - 1..] == items[i..];
    }
  }

  lemma ArrayAdds(tag: nat, kind: Kind, items: seq<Value>, i: nat)
    requires i < |items| && !Packable(kind)
    ensures EncodeArray(tag, kind, items[..i + 1]) == EncodeArray(tag, kind, items[..i]) + (TagBytes(tag, WireType(kind)) + Encode(kind, items[i]))
    ensures |EncodeArray(tag, kind, items[..i + 1])| <= |EncodeArray(tag, kind, items)|
  {
    hide Encode, TagBytes;
    ArraySplit(tag, kind, items[..i + 1], i);
    ArraySplit(tag, kind, items, i + 1);
    assert items[..i + 1][..i] == items[..i] && items[..i + 1][i..] == [items[i]];
    assert EncodeArray(tag, kind, [items[i]][1..]) == [];
  }

  method EncodeRepeated(stream: OStream, tag: nat, rule: Rule, kind: Kind, items: seq<Value>) returns (ok: bool)
    requires GoodKind(kind) && (rule.Repeated? || rule.FixedCount?) && SlotFits(rule, kind, Many(items)) && Room(At(stream))
    modifies stream
    ensures Did(old(At(stream)), At(stream), ok, SlotEncodable(rule, kind, Many(items)), EncodeArray(tag, kind, items))
    decreases kind, 4, 3
  {
    hide *;
    ghost var s := At(stream);
    ArrayCases(tag, rule, kind, items);
    if |items| == 0 {
      NothingWrote(s);
      DidIs(s, s, true, []);
      return true;
    }
    if |items| > rule.arraySize {
      DidIs(s, s, false, EncodeArray(tag, kind, items));
      return false;
    }
    if Packable(kind) {
      ok := EncodeTag(stream, WT_STRING, tag);
      ghost var b, c := TagBytes(tag, WT_STRING), PutLengthPrefixed(EncodeItems(kind, items));
      if !ok {
        DidNot(s, At(stream), true, b, true, b + c);
        return;
      }
      ghost var t := At(stream);
      DidIs(s, t, true, b);
      ok := EncodeLengthAndItems(stream, kind, items);
      DidThen(s, t, At(stream), ok, b, true, c);
    } else {
      ok := EncodeUnpacked(stream, tag, kind, items);
    }
  }

  lemma ArrayCases(tag: nat, rule: Rule, kind: Kind, items: seq<Value>)
    requires (rule.Repeated? || rule.FixedCount?) && SlotFits(rule, kind, Many(items))
    ensures forall i :: 0 <= i < |items| ==> HasType(kind, items[i])
    ensures items == [] ==> EncodeArray(tag, kind, items) == [] && SlotEncodable(rule, kind, Many(items))
    ensures |items| > rule.arraySize ==> !SlotEncodable(rule, kind, Many(items))
    ensures |items| <= rule.arraySize ==> (SlotEncodable(rule, kind, Many(items)) <==> AllItems(kind, items))
    ensures Packable(kind) ==> AllItems(kind, items)
    ensures Packable(kind) && items != [] ==> EncodeArray(tag, kind, items) == TagBytes(tag, WT_STRING) + PutLengthPrefixed(EncodeItems(kind, items))
  {
    hide Encode, EncodeItems, HasType;
  }

  /** The size of a packed array is computed, or counted by a first pass over its entries. */
  method EncodeLengthAndItems(stream: OStream, kind: Kind, items: seq<Value>) returns (ok: bool)
    requires GoodKind(kind) && Packable(kind) && (forall i :: 0 <= i < |items| ==> HasType(kind, items[i])) && Room(At(stream))
    modifies stream
    ensures Did(old(At(stream)), At(stream), ok, true, PutLengthPrefixed(EncodeItems(kind, items)))
    decreases kind, 4, 2
  {
    hide *;
    ghost var s, c := At(stream), EncodeItems(kind, items);
    LengthPrefixedIs(c);
    var size := PackedSize(kind, items);
    ok := EncodeVarint(stream, size);
    if !ok {
      DidNot(s, At(stream), true, Varint(|c|), true, PutLengthPrefixed(c));
      return;
    }
    ghost var t := At(stream);
    DidIs(s, t, true, Varint(|c|));
    if stream.sizing {
      Count(stream, c, size);
      Then(s, t, At(stream), Varint(|c|), c);
      DidIs(s, At(stream), true, PutLengthPrefixed(c));
      return;
    }
    ok := EncodePacked(stream, kind, items);
    DidThen(s, t, At(stream), ok, Varint(|c|), true, c);
  }

  method PackedSize(kind: Kind, items: seq<Value>) returns (size: nat)
    requires GoodKind(kind) && Packable(kind) && forall i :: 0 <= i < |items| ==> HasType(kind, items[i])
    ensures size == |EncodeItems(kind, items)|
    decreases kind, 4, 1
  {
    hide HasType, EncodeItems, GoodKind;
    if kind.Fixed32? {
      size := 4 * |items|;
      FixedItems(kind, items);
    } else if kind.Fixed64? {
      size := 8 * |items|;
      FixedItems(kind, items);
    } else {
      var sizestream := new OStream(true, 0, []);
      var ok := EncodePacked(sizestream, kind, items);
      size := sizestream.written;
    }
  }

  lemma {:induction false} FixedItems(kind: Kind, items: seq<Value>)
    requires (kind.Fixed32? || kind.Fixed64?) && forall i :: 0 <= i < |items| ==> HasType(kind, items[i])
    ensures |EncodeItems(kind, items)| == (if kind.Fixed32? then 4 else 8) * |items|
  {
    if items != [] {
      assert HasType(kind, items[0]);
      FixedLengths(items[0].n);
      FixedItems(kind, items[1..]);
    }
  }

  /** One tag an entry. */
  method EncodeUnpacked(stream: OStream, tag: nat, kind: Kind, items: seq<Value>) returns (ok: bool)
    requires GoodKind(kind) && !Packable(kind) && (forall i :: 0 <= i < |items| ==> HasType(kind, items[i])) && Room(At(stream))
    modifies stream
    ensures Did(old(At(stream)), At(stream), ok, AllItems(kind, items), EncodeArray(tag, kind, items))
    decreases kind, 4, 2
  {
    hide *;
    ghost var s := At(stream);
    NoItems(tag, kind, items);
    NothingWrote(s);
    for i := 0 to |items|
      invariant Wrote(s, At(stream), EncodeArray(tag, kind, items[..i])) && Room(At(stream))
      invariant forall j :: 0 <= j < i ==> Encodable(kind, items[j])
    {
      ok := EncodeEntry(stream, tag, kind, items, i, s);
      if !ok {
        EntryNot(tag, kind, items, i, s, At(stream));
        return;
      }
      DidIs(s, At(stream), Encodable(kind, items[i]), EncodeArray(tag, kind, items[..i + 1]));
    }
    assert items[..|items|] == items;
    ok := true;
    EachItem(kind, items);
    DidIs(s, At(stream), AllItems(kind, items), EncodeArray(tag, kind, items));
  }

  /** The i-th entry, after those before it. */
  method EncodeEntry(stream: OStream, tag: nat, kind: Kind, items: seq<Value>, i: nat, ghost s: Sink) returns (ok: bool)
    requires GoodKind(kind) && !Packable(kind) && i < |items| && HasType(kind, items[i]) && Room(At(stream))
    requires Wrote(s, At(stream), EncodeArray(tag, kind, items[..i]))
    modifies stream
    ensures Did(s, At(stream), ok, Encodable(kind, items[i]), EncodeArray(tag, kind, items[..i + 1]))
    decreases kind, 4, 1
  {
    hide *;
    ArrayAdds(tag, kind, items, i);
    ghost var t := At(stream);
    ok := EncodeTagged(stream, tag, kind, items[i]);
    DidThen(s, t, At(stream), ok, EncodeArray(tag, kind, items[..i]), Encodable(kind, items[i]), TagBytes(tag, WireType(kind)) + Encode(kind, items[i]));
  }

  lemma EntryNot(tag: nat, kind: Kind, items: seq<Value>, i: nat, s: Sink, t: Sink)
    requires i < |items| && !Packable(kind) && Did(s, t, false, Encodable(kind, items[i]), EncodeArray(tag, kind, items[..i + 1]))
    ensures Did(s, t, false, AllItems(kind, items), EncodeArray(tag, kind, items))
  {
    hide *;
    ArrayAdds(tag, kind, items, i);
    AllItemsAt(kind, items, i);
    DidNot(s, t, Encodable(kind, items[i]), EncodeArray(tag, kind, items[..i + 1]), AllItems(kind, items), EncodeArray(tag, kind, items));
  }

  lemma ScalarEncodable(kind: Kind, v: Value)
    ensures Packable(kind) ==> Encodable(kind, v)
  {
  }

  lemma AllItemsAt(kind: Kind, items: seq<Value>, i: nat)
    requires i < |items|
    ensures AllItems(kind, items) ==> Encodable(kind, items[i])
  {
  }

  lemma EachItem(kind: Kind, items: seq<Value>)
    requires forall i :: 0 <= i < |items| ==> Encodable(kind, items[i])
    ensures AllItems(kind, items)
  {
  }

  ghost predicate AllItems(kind: Kind, items: seq<Value>) {
    forall i :: 0 <= i < |items| ==> Encodable(kind, items[i])
  }

  /** The size that pb_get_encoded_size reports is the number of bytes that pb_encode writes. */
  method GetEncodedSize(kind: Kind, slots: seq<Slot>) returns (ok: bool, size: nat)
    requires kind.Message? && GoodKind(kind) && HasType(kind, Struct(slots)) && |slots| == |kind.fields|
    ensures ok <==> Encodable(kind, Struct(slots))
    ensures ok ==> size == |EncodeFields(kind, slots, 0)|
  {
    var stream := new OStream(true, 0, []);
    ok := EncodeMessage(stream, kind, slots);
    size := stream.written;
  }
}
