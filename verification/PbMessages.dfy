/** Messages of the Protocol Buffers serialiser (nanopb: pb.h, pb_encode.c): field descriptors, the
    structs they describe, and the bytes a struct stands for. */
module PbMessages {
  import opened Coding

  // What a field holds (the LTYPE of its descriptor). Sizes are those of the struct member in bytes;
  // for a byte array it is the room for the bytes themselves.
  datatype Kind =
    | Boolean
    | Signed(size: nat)
    | Unsigned(size: nat)
    | ZigZag(size: nat)
    | Fixed32
    | Fixed64
    | ByteArray(dataSize: nat)
    | CString(dataSize: nat)
    | FixedBytes(dataSize: nat)
    | Message(fields: seq<Field>)

  // How often a field occurs (the HTYPE). A singular field has no flag: it is present unless it is zero.
  // A repeated field counts its entries; one of fixed count does not.
  datatype Rule = Required | Optional | Singular | Repeated(arraySize: nat) | FixedCount(arraySize: nat) | OneOf(group: nat)

  datatype Field = Field(tag: nat, rule: Rule, kind: Kind)

  datatype Value = Flag(b: bool) | Number(n: int) | Blob(bytes: Bytes) | Struct(slots: seq<Slot>)

  // The members of a struct that belong to one field. For a oneof, `has` says that the union's tag
  // names this field.
  datatype Slot = One(has: bool, value: Value) | Many(items: seq<Value>)

  // The wire types of the Protocol Buffers encoding.
  const WT_VARINT: nat := 0
  const WT_64BIT: nat := 1
  const WT_STRING: nat := 2
  const WT_32BIT: nat := 5

  function WireType(kind: Kind): nat {
    match kind
    case Fixed32 => WT_32BIT
    case Fixed64 => WT_64BIT
    case Boolean | Signed(_) | Unsigned(_) | ZigZag(_) => WT_VARINT
    case _ => WT_STRING
  }

  predicate Packable(kind: Kind) {
    kind.Boolean? || kind.Signed? || kind.Unsigned? || kind.ZigZag? || kind.Fixed32? || kind.Fixed64?
  }

  /** 2 to the number of bits of an integer of this size. */
  function Modulus(size: nat): nat {
    if size == 1 then 0x100 else if size == 2 then 0x1_0000 else if size == 4 then TWO_TO_THE_32 else TWO_TO_THE_64
  }

  predicate IntegerSize(size: nat) {
    size == 1 || size == 2 || size == 4 || size == 8
  }

  predicate InSigned(n: int, size: nat) {
    -(Modulus(size) / 2) <= n < Modulus(size) / 2
  }

  /** The bytes of a C string end at the first zero byte, or with the array. */
  function CStringOf(s: Bytes, max: nat): (r: Bytes)
    ensures |r| <= max && |r| <= |s|
    ensures forall i :: 0 <= i < |r| ==> r[i] == s[i] && r[i] != 0
  {
    if s == [] || max == 0 || s[0] == 0 then [] else [s[0]] + CStringOf(s[1..], max - 1)
  }

  // ------------------------------------------------------------- descriptors

  /** What the generator promises of a descriptor: tags fit the format and are distinct, and integer
      members have a size the serialiser knows. */
  ghost predicate GoodKind(kind: Kind)
    decreases kind
  {
    match kind
    case Signed(size) => IntegerSize(size)
    case Unsigned(size) => IntegerSize(size)
    case ZigZag(size) => IntegerSize(size)
    case Message(fields) =>
      && (forall i :: 0 <= i < |fields| ==> GoodKind(fields[i].kind))
      && (forall i :: 0 <= i < |fields| ==> 0 < fields[i].tag < TAG_LIMIT)
      && (forall i, j :: 0 <= i < j < |fields| ==> fields[i].tag != fields[j].tag)
    case _ => true
  }

  // A tag shares 32 bits with a wire type of three.
  const TAG_LIMIT: nat := 0x2000_0000

  /** The struct has the C types that its descriptor says. */
  ghost predicate HasType(kind: Kind, v: Value)
    decreases kind, 1
  {
    match kind
    case Boolean => v.Flag?
    case Signed(size) => v.Number? && InSigned(v.n, size)
    case Unsigned(size) => v.Number? && 0 <= v.n < Modulus(size)
    case ZigZag(size) => v.Number? && InSigned(v.n, size)
    case Fixed32 => v.Number? && 0 <= v.n < TWO_TO_THE_32
    case Fixed64 => v.Number? && 0 <= v.n < TWO_TO_THE_64
    case ByteArray(_) => v.Blob?
    case CString(dataSize) => v.Blob? && |v.bytes| <= dataSize
    case FixedBytes(dataSize) => v.Blob? && |v.bytes| == dataSize
    case Message(fields) =>
      && v.Struct? && |v.slots| == |fields|
      && (forall i :: 0 <= i < |fields| ==> SlotFits(fields[i].rule, fields[i].kind, v.slots[i]))
      && OneOfExclusive(fields, v.slots)
  }

  ghost predicate SlotFits(rule: Rule, kind: Kind, slot: Slot)
    decreases kind, 2
  {
    match rule
    case Repeated(_) => slot.Many? && forall i :: 0 <= i < |slot.items| ==> HasType(kind, slot.items[i])
    case FixedCount(n) => slot.Many? && |slot.items| == n && forall i :: 0 <= i < |slot.items| ==> HasType(kind, slot.items[i])
    case _ => slot.One? && HasType(kind, slot.value)
  }

  /** A union's tag names at most one of its fields. */
  ghost predicate OneOfExclusive(fields: seq<Field>, slots: seq<Slot>)
    requires |slots| == |fields|
  {
    forall i, j :: 0 <= i < j < |fields| && fields[i].rule.OneOf? && fields[i].rule == fields[j].rule ==>
      !(slots[i].One? && slots[i].has && slots[j].One? && slots[j].has)
  }

  // -------------------------------------------------------------- encodings

  /** A negative number is written as its 64-bit two's complement. */
  function TwosComplement(n: int): int {
    if n < 0 then n + TWO_TO_THE_64 else n
  }

  function ZigZagOf(n: int): nat {
    if n < 0 then -2 * n - 1 else 2 * n
  }

  function TagBytes(tag: nat, wire: nat): Bytes {
    Varint(tag * 8 + wire)
  }

  /** A struct member that a singular field does not encode: all zero. */
  predicate IsZero(kind: Kind, v: Value)
    decreases kind, 1
  {
    match kind
    case ByteArray(_) => v.Blob? && v.bytes == []
    case CString(dataSize) => v.Blob? && CStringOf(v.bytes, dataSize) == []
    case FixedBytes(dataSize) => dataSize == 0
    case Message(fields) =>
      v.Struct? && |v.slots| == |fields| && forall i :: 0 <= i < |fields| ==> SlotIsZero(fields[i].rule, fields[i].kind, v.slots[i])
    case Boolean => v.Flag? && !v.b
    case _ => v.Number? && v.n == 0
  }

  predicate SlotIsZero(rule: Rule, kind: Kind, slot: Slot)
    decreases kind, 2
  {
    match rule
    case Required => false
    case FixedCount(_) => false
    case Repeated(_) => slot.Many? && slot.items == []
    case Optional => slot.One? && !slot.has
    case OneOf(_) => slot.One? && !slot.has
    case Singular => slot.One? && IsZero(kind, slot.value)
  }

  /** Whether the member's data is written. A oneof is zero as a whole only if its union is empty. */
  predicate Present(rule: Rule, kind: Kind, slot: Slot) {
    slot.One? && match rule
    case Required => true
    case Singular => !IsZero(kind, slot.value)
    case _ => slot.has
  }

  function Encode(kind: Kind, v: Value): Bytes
    decreases kind, 2, 0
  {
    match kind
    case Boolean => Varint(if v.Flag? && v.b then 1 else 0)
    case Signed(_) => if v.Number? && TwosComplement(v.n) >= 0 then Varint(TwosComplement(v.n)) else []
    case Unsigned(_) => if v.Number? && v.n >= 0 then Varint(v.n) else []
    case ZigZag(_) => if v.Number? then Varint(ZigZagOf(v.n)) else []
    case Fixed32 => if v.Number? && 0 <= v.n < TWO_TO_THE_32 then EncodeFixed32(v.n) else []
    case Fixed64 => if v.Number? && 0 <= v.n < TWO_TO_THE_64 then EncodeFixed64(v.n) else []
    case ByteArray(_) => if v.Blob? then PutLengthPrefixed(v.bytes) else []
    case CString(dataSize) => if v.Blob? then PutLengthPrefixed(CStringOf(v.bytes, dataSize)) else []
    case FixedBytes(_) => if v.Blob? then PutLengthPrefixed(v.bytes) else []
    case Message(fields) => if v.Struct? && |v.slots| == |fields| then PutLengthPrefixed(EncodeFields(kind, v.slots, 0)) else []
  }

  /** The fields from the i-th on, in the order of the descriptor. */
  function EncodeFields(kind: Kind, slots: seq<Slot>, i: nat): Bytes
    requires kind.Message? && |slots| == |kind.fields| && i <= |slots|
    decreases kind, 1, |slots| - i
  {
    if i == |slots| then []
    else EncodeSlot(kind.fields[i].tag, kind.fields[i].rule, kind.fields[i].kind, slots[i]) + EncodeFields(kind, slots, i + 1)
  }

  function EncodeSlot(tag: nat, rule: Rule, kind: Kind, slot: Slot): Bytes
    decreases kind, 4, 0
  {
    if slot.Many? then EncodeArray(tag, kind, slot.items)
    else if Present(rule, kind, slot) then TagBytes(tag, WireType(kind)) + Encode(kind, slot.value)
    else []
  }

  /** Entries of a packable kind share one tag and length; others have a tag each. */
  function EncodeArray(tag: nat, kind: Kind, items: seq<Value>): Bytes
    decreases kind, 3, |items|
  {
    if items == [] then []
    else if Packable(kind) then TagBytes(tag, WT_STRING) + PutLengthPrefixed(EncodeItems(kind, items))
    else TagBytes(tag, WireType(kind)) + Encode(kind, items[0]) + EncodeArray(tag, kind, items[1..])
  }

  function EncodeItems(kind: Kind, items: seq<Value>): Bytes
    decreases kind, 2, |items|
  {
    if items == [] then [] else Encode(kind, items[0]) + EncodeItems(kind, items[1..])
  }

  /** Nothing that is present is larger than its member: the encoder refuses exactly the others. */
  ghost predicate Encodable(kind: Kind, v: Value)
    decreases kind, 2
  {
    match kind
    case ByteArray(dataSize) => v.Blob? && |v.bytes| <= dataSize
    case Message(fields) =>
      v.Struct? && |v.slots| == |fields| && forall i :: 0 <= i < |fields| ==> SlotEncodable(fields[i].rule, fields[i].kind, v.slots[i])
    case _ => true
  }

  ghost predicate SlotEncodable(rule: Rule, kind: Kind, slot: Slot)
    decreases kind, 3
  {
    match slot
    case Many(items) =>
      && (rule.Repeated? ==> |items| <= rule.arraySize)
      && forall i :: 0 <= i < |items| ==> Encodable(kind, items[i])
    case One(_, v) => Present(rule, kind, slot) ==> Encodable(kind, v)
  }
}
