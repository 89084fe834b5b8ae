/** What decoding leaves in the struct, whatever the input (nanopb/pb_decode.c): every value fits its member,
    no array holds more than its room, one of fixed count is empty or full, and a union names at most one of
    its fields. */
module PbBounds {
  import opened Coding
  import opened PbDecode
  import opened PbMessages
  import opened PbRoundTrip
  import opened Wrappers

  /** The numbers there are in so many bytes. */
  function Power256(n: nat): (r: nat)
    ensures r > 0
  {
    if n == 0 then 1 else 256 * Power256(n - 1)
  }

  lemma ModulusIs(size: nat)
    requires IntegerSize(size)
    ensures Modulus(size) == Power256(size)
  {
    assert Power256(2) == 256 * Power256(1) && Power256(4) == 256 * (256 * Power256(2));
    assert Power256(6) == 256 * (256 * Power256(4)) && Power256(8) == 256 * (256 * Power256(6));
  }

  /** The value fits the member; a string leaves room for its zero byte. */
  ghost predicate Fits(kind: Kind, v: Value)
    decreases kind, 1
  {
    match kind
    case Boolean => v.Flag?
    case Signed(size) => v.Number? && 0 <= 2 * v.n + Power256(size) < 2 * Power256(size)
    case Unsigned(size) => v.Number? && 0 <= v.n < Power256(size)
    case ZigZag(size) => v.Number? && 0 <= 2 * v.n + Power256(size) < 2 * Power256(size)
    case Fixed32 => v.Number? && 0 <= v.n < TWO_TO_THE_32
    case Fixed64 => v.Number? && 0 <= v.n < TWO_TO_THE_64
    case ByteArray(dataSize) => v.Blob? && |v.bytes| <= dataSize
    case CString(dataSize) => v.Blob? && (|v.bytes| < dataSize || v.bytes == [])
    case FixedBytes(dataSize) => v.Blob? && |v.bytes| == dataSize
    case Message(fields) => v.Struct? && SlotsFit(kind, v.slots, None)
  }

  /** `filling` is the array of fixed count that is being filled, if any. */
  ghost predicate SlotsFit(kind: Kind, slots: seq<Slot>, filling: Option<nat>)
    requires kind.Message?
    decreases kind, 0
  {
    && |slots| == |kind.fields| && OneOfExclusive(kind.fields, slots)
    && forall i :: 0 <= i < |slots| ==> SlotHolds(kind.fields[i].rule, kind.fields[i].kind, slots[i], filling == Some(i))
  }

  ghost predicate SlotHolds(rule: Rule, kind: Kind, slot: Slot, filling: bool)
    decreases kind, 3
  {
    match rule
    case Repeated(n) => slot.Many? && ItemsFit(kind, slot.items, n)
    case FixedCount(n) => slot.Many? && ItemsFit(kind, slot.items, n) && (filling || slot.items == [] || |slot.items| == n)
    case _ => slot.One? && Fits(kind, slot.value)
  }

  ghost predicate ItemsFit(kind: Kind, items: seq<Value>, capacity: nat)
    decreases kind, 2
  {
    |items| <= capacity && forall i :: 0 <= i < |items| ==> Fits(kind, items[i])
  }

  // ------------------------------------------------------------------- defaults

  lemma {:induction false} ZeroFits(kind: Kind)
    requires GoodKind(kind)
    ensures Fits(kind, Zero(kind))
    decreases kind, 1
  {
    if kind.Message? {
      ZeroSlotsFit(kind);
    } else if kind.Signed? || kind.Unsigned? || kind.ZigZag? {
      assert Power256(kind.size) > 0;
    }
  }

  lemma {:induction false} ZeroSlotsFit(kind: Kind)
    requires kind.Message? && GoodKind(kind)
    ensures SlotsFit(kind, ZeroSlots(kind, |kind.fields|), None)
    decreases kind, 0
  {
    var slots := ZeroSlots(kind, |kind.fields|);
    forall i | 0 <= i < |slots|
      ensures SlotHolds(kind.fields[i].rule, kind.fields[i].kind, slots[i], false) && (kind.fields[i].rule.OneOf? ==> !slots[i].has)
    {
      ZeroAt(kind, |kind.fields|, i);
      ZeroFits(kind.fields[i].kind);
      hide Zero, Fits;
    }
  }

  // --------------------------------------------------------------------- slots

  lemma GoodAt(kind: Kind, i: nat)
    requires kind.Message? && GoodKind(kind) && i < |kind.fields|
    ensures GoodKind(kind.fields[i].kind)
  {
  }

  lemma SetMany(kind: Kind, slots: seq<Slot>, filling: Option<nat>, i: nat, items: seq<Value>)
    requires kind.Message? && SlotsFit(kind, slots, filling) && i < |slots|
    requires match kind.fields[i].rule
             case Repeated(n) => ItemsFit(kind.fields[i].kind, items, n)
             case FixedCount(n) => filling == Some(i) && ItemsFit(kind.fields[i].kind, items, n)
             case _ => false
    ensures SlotsFit(kind, slots[i := Many(items)], filling)
  {
    hide ItemsFit, Fits;
  }

  lemma SetOne(kind: Kind, slots: seq<Slot>, filling: Option<nat>, i: nat, v: Value)
    requires kind.Message? && SlotsFit(kind, slots, filling) && i < |slots| && Fits(kind.fields[i].kind, v)
    requires !kind.fields[i].rule.Repeated? && !kind.fields[i].rule.FixedCount? && !kind.fields[i].rule.OneOf?
    ensures SlotsFit(kind, slots[i := One(true, v)], filling)
  {
    hide ItemsFit, Fits;
  }

  lemma SetUnion(kind: Kind, slots: seq<Slot>, filling: Option<nat>, i: nat, v: Value)
    requires kind.Message? && GoodKind(kind) && SlotsFit(kind, slots, filling) && i < |slots| && Fits(kind.fields[i].kind, v)
    requires kind.fields[i].rule.OneOf?
    ensures SlotsFit(kind, UnionOf(kind.fields, slots, i, |slots|)[i := One(true, v)], filling)
  {
    hide ItemsFit, Fits, Zero;
    var r := UnionOf(kind.fields, slots, i, |slots|)[i := One(true, v)];
    forall j | 0 <= j < |r| ensures SlotHolds(kind.fields[j].rule, kind.fields[j].kind, r[j], filling == Some(j)) {
      GoodAt(kind, j);
      ZeroFits(kind.fields[j].kind);
    }
  }

  /** Once the array that was being filled is full, another may be begun. */
  lemma Filled(kind: Kind, p: Progress, next: Option<nat>)
    requires kind.Message? && SlotsFit(kind, p.slots, p.fixed) && Complete(kind.fields, p)
    ensures SlotsFit(kind, p.slots, next)
  {
    hide ItemsFit, Fits;
  }

  // ------------------------------------------------------------------- decoding

  lemma {:induction false} ValueFits(kind: Kind, s: Bytes, init: Value)
    requires GoodKind(kind) && DecodeValue(kind, s, init).Some? && (kind.Message? ==> Fits(kind, init))
    ensures Fits(kind, DecodeValue(kind, s, init).value.0)
    decreases |s|, 1
  {
    hide Varint32, GetVarint64, TakeString, DecodeFixed32, DecodeFixed64, DecodeMessage, Power256;
    if kind.Signed? || kind.Unsigned? || kind.ZigZag? { ModulusIs(kind.size); }
    if kind.Message? {
      var (b, rest) := TakeString(s).value;
      MessageFits(kind, b, init.slots);
    }
  }

  lemma {:induction false} MessageFits(kind: Kind, s: Bytes, slots: seq<Slot>)
    requires kind.Message? && GoodKind(kind) && |slots| == |kind.fields| && SlotsFit(kind, slots, None) && DecodeMessage(kind, s, slots).Some?
    ensures SlotsFit(kind, DecodeMessage(kind, s, slots).value, None)
    decreases |s|, 5
  {
    hide SlotsFit, GoodKind, DecodeFields, Complete;
    FieldsFit(kind, s, Progress(slots, {}, None));
    Filled(kind, DecodeFields(kind, s, Progress(slots, {}, None)).value, None);
  }

  lemma {:induction false} FieldsFit(kind: Kind, s: Bytes, p: Progress)
    requires kind.Message? && GoodKind(kind) && |p.slots| == |kind.fields| && SlotsFit(kind, p.slots, p.fixed)
    requires DecodeFields(kind, s, p).Some?
    ensures var q := DecodeFields(kind, s, p).value; SlotsFit(kind, q.slots, q.fixed)
    decreases |s|, 4
  {
    hide SlotsFit, GoodKind, Varint32, FindField, SkipField, DecodeField;
    if s != [] {
      var (temp, rest) := Varint32(s).value;
      if temp != 0 {
        match FindField(kind.fields, temp / 8) {
          case None => FieldsFit(kind, SkipField(rest, temp % 8).value, p);
          case Some(i) =>
            FieldFits(kind, i, temp % 8, rest, p);
            var (q, rest') := DecodeField(kind, i, temp % 8, rest, p).value;
            FieldsFit(kind, rest', q);
        }
      }
    }
  }

  lemma {:induction false} FieldFits(kind: Kind, i: nat, wire: nat, s: Bytes, p: Progress)
    requires kind.Message? && GoodKind(kind) && |p.slots| == |kind.fields| && SlotsFit(kind, p.slots, p.fixed) && i < |p.slots|
    requires DecodeField(kind, i, wire, s, p).Some?
    ensures var q := DecodeField(kind, i, wire, s, p).value.0; SlotsFit(kind, q.slots, q.fixed)
    decreases |s|, 3
  {
    hide GoodKind, DecodeValue, DecodeRepeated, Zero, RequiredBefore, Complete, Marked, Fits, SlotsFit;
    var f := kind.fields[i];
    GoodAt(kind, i);
    SlotAt(kind, p.slots, p.fixed, i);
    match f.rule
    case Repeated(n) =>
      RepeatedFits(f.kind, wire, s, ItemsOf(p.slots[i]), n);
      SetMany(kind, p.slots, p.fixed, i, DecodeRepeated(f.kind, wire, s, ItemsOf(p.slots[i]), n).value.0);
    case FixedCount(n) =>
      var before := if p.fixed == Some(i) then ItemsOf(p.slots[i]) else [];
      if p.fixed != Some(i) { MarkedComplete(kind, i, p); Filled(kind, p, Some(i)); }
      RepeatedFits(f.kind, wire, s, before, n);
      SetMany(kind, p.slots, Some(i), i, DecodeRepeated(f.kind, wire, s, before, n).value.0);
    case OneOf(_) =>
      ZeroFits(f.kind);
      ValueFits(f.kind, s, Zero(f.kind));
      SetUnion(kind, p.slots, p.fixed, i, DecodeValue(f.kind, s, Zero(f.kind)).value.0);
    case _ =>
      ValueFits(f.kind, s, ValueOf(p.slots[i]));
      SetOne(kind, p.slots, p.fixed, i, DecodeValue(f.kind, s, ValueOf(p.slots[i])).value.0);
  }

  lemma MarkedComplete(kind: Kind, i: nat, p: Progress)
    requires kind.Message? && i < |kind.fields|
    ensures Complete(kind.fields, p.(seen := Marked(kind.fields, i, p.seen))) <==> Complete(kind.fields, p)
  {
    hide RequiredBefore;
  }

  lemma SlotAt(kind: Kind, slots: seq<Slot>, filling: Option<nat>, i: nat)
    requires kind.Message? && SlotsFit(kind, slots, filling) && i < |slots|
    ensures |slots| == |kind.fields| && SlotHolds(kind.fields[i].rule, kind.fields[i].kind, slots[i], filling == Some(i))
  {
  }

  lemma {:induction false} RepeatedFits(kind: Kind, wire: nat, s: Bytes, items: seq<Value>, capacity: nat)
    requires GoodKind(kind) && ItemsFit(kind, items, capacity) && DecodeRepeated(kind, wire, s, items, capacity).Some?
    ensures ItemsFit(kind, DecodeRepeated(kind, wire, s, items, capacity).value.0, capacity)
    decreases |s|, 2
  {
    hide GoodKind, TakeString, DecodeValue, DecodePacked, Zero, Fits;
    if wire == WT_STRING && Packable(kind) {
      var (b, rest) := TakeString(s).value;
      PackedFits(kind, b, items, capacity);
    } else {
      ZeroFits(kind);
      ValueFits(kind, s, Zero(kind));
    }
  }

  lemma {:induction false} PackedFits(kind: Kind, s: Bytes, items: seq<Value>, capacity: nat)
    requires GoodKind(kind) && ItemsFit(kind, items, capacity) && DecodePacked(kind, s, items, capacity).Some?
    ensures ItemsFit(kind, DecodePacked(kind, s, items, capacity).value, capacity)
    decreases |s|, 2
  {
    hide GoodKind, DecodeValue, Zero, Fits;
    if s != [] {
      ZeroFits(kind);
      ValueFits(kind, s, Zero(kind));
      var (v, rest) := DecodeValue(kind, s, Zero(kind)).value;
      PackedFits(kind, rest, items + [v], capacity);
    }
  }

  /** MAIN: whatever the bytes, what decoding leaves fits the struct. */
  lemma DecodedFits(kind: Kind, s: Bytes)
    requires kind.Message? && GoodKind(kind) && Decode(kind, s).Some?
    ensures Fits(kind, Decode(kind, s).value)
  {
    hide DecodeMessage, SlotsFit, GoodKind, ZeroSlots;
    ZeroSlotsFit(kind);
    MessageFits(kind, s, ZeroSlots(kind, |kind.fields|));
  }
}
