/** What the decoder makes of a stream of bytes (nanopb/pb_decode.c), as functions. */
module PbDecode {
  import opened Coding
  import opened PbMessages
  import opened Wrappers

  // ------------------------------------------------------------------- wire

  /** pb_decode_varint32: 32 bits, with leading zero groups or a sign extension to 64 bits allowed. */
  function Varint32(s: Bytes): (r: Option<(nat, Bytes)>)
    ensures r.Some? ==> r.value.0 < TWO_TO_THE_32 && |r.value.1| < |s|
  {
    if s == [] then None
    else if s[0] < 128 then Some((s[0], s[1..]))
    else Varint32More(s[1..], s[0] % 128, 7)
  }

  function Varint32More(s: Bytes, result: nat, bitpos: nat): (r: Option<(nat, Bytes)>)
    requires result < TWO_TO_THE_32 && bitpos % 7 == 0
    ensures r.Some? ==> r.value.0 < TWO_TO_THE_32 && |r.value.1| < |s|
  {
    if s == [] then None
    else if bitpos >= 32 && Misplaced(s[0], result, bitpos) then None
    else
      var next := if bitpos >= 32 then result else (result + s[0] % 128 * Power128(bitpos / 7)) % TWO_TO_THE_32;
      if s[0] >= 128 then Varint32More(s[1..], next, bitpos + 7)
      else if bitpos == 28 && s[0] / 16 != 0 then None
      else Some((next, s[1..]))
  }

  /** A byte past the 32 bits that is neither zero nor part of a sign extension. */
  predicate Misplaced(b: Byte, result: nat, bitpos: nat) {
    b % 128 != 0 && (result / 0x8000_0000 == 0 || b != if bitpos < 63 then 0xFF else 0x01)
  }

  function TakeBytes(s: Bytes, n: nat): (r: Option<(Bytes, Bytes)>)
    ensures r.Some? ==> |r.value.0| == n && |r.value.0| + |r.value.1| == |s|
  {
    if n <= |s| then Some((s[..n], s[n..])) else None
  }

  /** A length and as many bytes. */
  function TakeString(s: Bytes): (r: Option<(Bytes, Bytes)>)
    ensures r.Some? ==> |r.value.0| + |r.value.1| < |s|
  {
    match Varint32(s)
    case None => None
    case Some((n, rest)) => TakeBytes(rest, n)
  }

  function SkipVarint(s: Bytes): (r: Option<Bytes>)
    ensures r.Some? ==> |r.value| < |s|
  {
    if s == [] then None else if s[0] < 128 then Some(s[1..]) else SkipVarint(s[1..])
  }

  /** A field that the message does not know. */
  function SkipField(s: Bytes, wire: nat): (r: Option<Bytes>)
    ensures r.Some? ==> |r.value| <= |s|
  {
    if wire == WT_VARINT then SkipVarint(s)
    else if wire == WT_64BIT then (if |s| >= 8 then Some(s[8..]) else None)
    else if wire == WT_STRING then (match TakeString(s) case None => None case Some((_, rest)) => Some(rest))
    else if wire == WT_32BIT then (if |s| >= 4 then Some(s[4..]) else None)
    else None
  }

  // ----------------------------------------------------------------- defaults

  /** A member that has been set to its default: zero, where the descriptor names no other default. */
  function Zero(kind: Kind): Value
    decreases kind, 1
  {
    match kind
    case Boolean => Flag(false)
    case ByteArray(_) => Blob([])
    case CString(_) => Blob([])
    case FixedBytes(n) => Blob(Zeros(n))
    case Message(fields) => Struct(ZeroSlots(kind, |fields|))
    case _ => Number(0)
  }

  function ZeroSlots(kind: Kind, n: nat): (r: seq<Slot>)
    requires kind.Message? && n <= |kind.fields|
    ensures |r| == n
    decreases kind, 0, n
  {
    if n == 0 then [] else ZeroSlots(kind, n - 1) + [ZeroSlot(kind.fields[n - 1].rule, kind.fields[n - 1].kind)]
  }

  /** Members without a flag count as present. */
  function ZeroSlot(rule: Rule, kind: Kind): Slot
    decreases kind, 2
  {
    match rule
    case Repeated(_) => Many([])
    case FixedCount(_) => Many([])
    case Optional => One(false, Zero(kind))
    case OneOf(_) => One(false, Zero(kind))
    case _ => One(true, Zero(kind))
  }

  // ------------------------------------------------------------------- fields

  /** The n-th bit of a 64-bit number, and so on, as the member of a given size has it. */
  function SignedOf(v: nat, size: nat): int {
    var m := Modulus(size);
    if v % m < m / 2 then v % m else v % m - m
  }

  function UnZigZag(v: nat): int {
    if v % 2 == 1 then -(v / 2) - 1 else v / 2
  }

  // How far a message has been decoded: its slots, the required fields seen (by their number among the
  // required ones, up to 64), and the repeated field of fixed count that is being filled.
  datatype Progress = Progress(slots: seq<Slot>, seen: set<nat>, fixed: Option<nat>)

  const MAX_REQUIRED_FIELDS: nat := 64

  function RequiredBefore(fields: seq<Field>, n: nat): nat
    requires n <= |fields|
  {
    if n == 0 then 0 else RequiredBefore(fields, n - 1) + if fields[n - 1].rule.Required? then 1 else 0
  }

  /** The field of a tag. */
  function FindField(fields: seq<Field>, tag: nat): (r: Option<nat>)
    ensures r.Some? ==> r.value < |fields| && fields[r.value].tag == tag
    ensures r.None? ==> forall i :: 0 <= i < |fields| ==> fields[i].tag != tag
  {
    if fields == [] then None
    else if fields[0].tag == tag then Some(0)
    else match FindField(fields[1..], tag)
      case None => None
      case Some(i) => Some(i + 1)
  }

  function ItemsOf(slot: Slot): seq<Value> { if slot.Many? then slot.items else [] }

  function ValueOf(slot: Slot): Value { if slot.One? then slot.value else Flag(false) }

  predicate Complete(fields: seq<Field>, p: Progress) {
    p.fixed.Some? ==>
      p.fixed.value < |fields| && p.fixed.value < |p.slots| && fields[p.fixed.value].rule.FixedCount?
      && |ItemsOf(p.slots[p.fixed.value])| == fields[p.fixed.value].rule.arraySize
  }

  function DecodeValue(kind: Kind, s: Bytes, init: Value): (r: Option<(Value, Bytes)>)
    ensures r.Some? ==> |r.value.1| < |s|
    decreases |s|, 1
  {
    match kind
    case Boolean =>
      (match Varint32(s)
      case None => None
      case Some((v, rest)) => Some((Flag(v != 0), rest)))
    case Signed(size) =>
      (match GetVarint64(s)
      case None => None
      case Some((v, rest)) =>
        // Members of up to 32 bits are read as 32 bits first.
        var n := SignedOf(v, if size == 8 then 8 else 4);
        if InSigned(n, size) then Some((Number(n), rest)) else None)
    case Unsigned(size) =>
      (match GetVarint64(s)
      case None => None
      case Some((v, rest)) => if v < Modulus(size) then Some((Number(v), rest)) else None)
    case ZigZag(size) =>
      (match GetVarint64(s)
      case None => None
      case Some((v, rest)) => if InSigned(UnZigZag(v), size) then Some((Number(UnZigZag(v)), rest)) else None)
    case Fixed32 => if |s| >= 4 then Some((Number(DecodeFixed32(s)), s[4..])) else None
    case Fixed64 => if |s| >= 8 then Some((Number(DecodeFixed64(s)), s[8..])) else None
    case ByteArray(dataSize) =>
      (match TakeString(s)
      case None => None
      case Some((b, rest)) => if |b| <= dataSize then Some((Blob(b), rest)) else None)
    case CString(dataSize) =>
      // One byte more, for the zero at the end.
      (match TakeString(s)
      case None => None
      case Some((b, rest)) => if |b| + 1 <= dataSize then Some((Blob(b), rest)) else None)
    case FixedBytes(dataSize) =>
      (match TakeString(s)
      case None => None
      case Some((b, rest)) =>
        if b == [] then Some((Blob(Zeros(dataSize)), rest))
        else if |b| == dataSize then Some((Blob(b), rest)) else None)
    case Message(fields) =>
      (match TakeString(s)
      case None => None
      case Some((b, rest)) =>
        match DecodeMessage(kind, b, if init.Struct? && |init.slots| == |fields| then init.slots else ZeroSlots(kind, |fields|))
        case None => None
        case Some(slots) => Some((Struct(slots), rest)))
  }

  /** pb_decode_noinit: into a struct that has been initialised. */
  function DecodeMessage(kind: Kind, s: Bytes, slots: seq<Slot>): (r: Option<seq<Slot>>)
    requires kind.Message? && |slots| == |kind.fields|
    ensures r.Some? ==> |r.value| == |slots|
    decreases |s|, 5
  {
    match DecodeFields(kind, s, Progress(slots, {}, None))
    case None => None
    case Some(p) => if Complete(kind.fields, p) && AllRequired(kind.fields, p.seen) then Some(p.slots) else None
  }

  /** The first 64 required fields have been seen. */
  predicate AllRequired(fields: seq<Field>, seen: set<nat>) {
    forall n :: 0 <= n < RequiredBefore(fields, |fields|) && n < MAX_REQUIRED_FIELDS ==> n in seen
  }

  function DecodeFields(kind: Kind, s: Bytes, p: Progress): (r: Option<Progress>)
    requires kind.Message? && |p.slots| == |kind.fields|
    ensures r.Some? ==> |r.value.slots| == |p.slots|
    decreases |s|, 4
  {
    if s == [] then Some(p)
    else match Varint32(s)
      case None => None
      case Some((temp, rest)) =>
        // A zero ends the message.
        if temp == 0 then Some(p)
        else match FindField(kind.fields, temp / 8)
          case None =>
            (match SkipField(rest, temp % 8)
            case None => None
            case Some(rest') => DecodeFields(kind, rest', p))
          case Some(i) =>
            (match DecodeField(kind, i, temp % 8, rest, p)
            case None => None
            case Some((p', rest')) => DecodeFields(kind, rest', p'))
  }

  /** A required field is marked, whether or not its data can be read. */
  function Marked(fields: seq<Field>, i: nat, seen: set<nat>): set<nat>
    requires i < |fields|
  {
    if fields[i].rule.Required? && RequiredBefore(fields, i) < MAX_REQUIRED_FIELDS then seen + {RequiredBefore(fields, i)} else seen
  }

  /** Naming one field of a union takes the name from the others. */
  function UnionOf(fields: seq<Field>, slots: seq<Slot>, i: nat, n: nat): (r: seq<Slot>)
    requires i < |fields| && |slots| == |fields| && n <= |fields|
    ensures |r| == n
    ensures forall j :: 0 <= j < n ==> r[j] == if j != i && fields[j].rule == fields[i].rule then One(false, Zero(fields[j].kind)) else slots[j]
  {
    if n == 0 then [] else
      UnionOf(fields, slots, i, n - 1) + [if n - 1 != i && fields[n - 1].rule == fields[i].rule then One(false, Zero(fields[n - 1].kind)) else slots[n - 1]]
  }

  function DecodeField(kind: Kind, i: nat, wire: nat, s: Bytes, p: Progress): (r: Option<(Progress, Bytes)>)
    requires kind.Message? && |p.slots| == |kind.fields| && i < |p.slots|
    ensures r.Some? ==> |r.value.1| < |s| && |r.value.0.slots| == |p.slots|
    decreases |s|, 3
  {
    var f, q := kind.fields[i], p.(seen := Marked(kind.fields, i, p.seen));
    match f.rule
    case Repeated(n) =>
      (match DecodeRepeated(f.kind, wire, s, ItemsOf(q.slots[i]), n)
      case None => None
      case Some((items, rest)) => Some((q.(slots := q.slots[i := Many(items)]), rest)))
    case FixedCount(n) =>
      // Another field of fixed count must be full before this one is begun.
      if q.fixed != Some(i) && !Complete(kind.fields, q) then None else
      (match DecodeRepeated(f.kind, wire, s, if q.fixed == Some(i) then ItemsOf(q.slots[i]) else [], n)
      case None => None
      case Some((items, rest)) => Some((q.(slots := q.slots[i := Many(items)], fixed := Some(i)), rest)))
    case OneOf(_) =>
      (match DecodeValue(f.kind, s, Zero(f.kind))
      case None => None
      case Some((v, rest)) => Some((q.(slots := UnionOf(kind.fields, q.slots, i, |q.slots|)[i := One(true, v)]), rest)))
    case _ =>
      (match DecodeValue(f.kind, s, ValueOf(q.slots[i]))
      case None => None
      case Some((v, rest)) => Some((q.(slots := q.slots[i := One(true, v)]), rest)))
  }

  function DecodeRepeated(kind: Kind, wire: nat, s: Bytes, items: seq<Value>, capacity: nat): (r: Option<(seq<Value>, Bytes)>)
    ensures r.Some? ==> |r.value.1| < |s|
    decreases |s|, 2
  {
    if wire == WT_STRING && Packable(kind) then
      match TakeString(s)
      case None => None
      case Some((b, rest)) =>
        match DecodePacked(kind, b, items, capacity)
        case None => None
        case Some(items') => Some((items', rest))
    else if |items| >= capacity then None
    else match DecodeValue(kind, s, Zero(kind))
      case None => None
      case Some((v, rest)) => Some((items + [v], rest))
  }

  function DecodePacked(kind: Kind, s: Bytes, items: seq<Value>, capacity: nat): Option<seq<Value>>
    decreases |s|, 2
  {
    if s == [] then Some(items)
    else if |items| >= capacity then None
    else match DecodeValue(kind, s, Zero(kind))
      case None => None
      case Some((v, rest)) => DecodePacked(kind, rest, items + [v], capacity)
  }

  /** pb_decode: the struct is set to its defaults first. */
  function Decode(kind: Kind, s: Bytes): Option<Value>
    requires kind.Message?
  {
    match DecodeMessage(kind, s, ZeroSlots(kind, |kind.fields|))
    case None => None
    case Some(slots) => Some(Struct(slots))
  }
}
