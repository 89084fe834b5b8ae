/** The decoder (nanopb/pb_decode.c, pb_common.c): it consumes a stream, opens substreams for nested
    messages, looks fields up with an iterator that goes round, and marks the required ones in a bit set.
    What it makes of a stream is what the functions of PbDecode say. */
module PbDecoder {
  import opened Coding
  import opened PbDecode
  import opened PbFieldIter
  import opened PbMessages
  import opened Wrappers

  /** An input stream: a position in a buffer and the number of bytes that may still be read. */
  class IStream {
    const buffer: Bytes
    var pos: nat
    var left: nat

    predicate Valid()
      reads this
    {
      pos + left <= |buffer|
    }

    function Rest(): Bytes
      requires Valid()
      reads this
    {
      buffer[pos..pos + left]
    }

    constructor (buffer: Bytes, pos: nat, left: nat)
      requires pos + left <= |buffer|
      ensures Valid() && this.buffer == buffer && this.pos == pos && this.left == left
    {
      this.buffer, this.pos, this.left := buffer, pos, left;
    }
  }

  /** A read ends where it was bound to end, or fails on the way. */
  twostate predicate Kept(stream: IStream, ok: bool)
    reads stream
  {
    stream.Valid() && stream.pos + stream.left <= old(stream.pos + stream.left) && (ok ==> stream.pos + stream.left == old(stream.pos + stream.left))
  }

  method ReadByte(stream: IStream) returns (ok: bool, b: Byte)
    requires stream.Valid()
    modifies stream
    ensures Kept(stream, ok) && ok == (old(stream.Rest()) != [])
    ensures ok ==> old(stream.Rest()) == [b] + stream.Rest()
    ensures !ok ==> stream.left == 0
  {
    if stream.left == 0 {
      return false, 0;
    }
    ok, b := true, stream.buffer[stream.pos];
    stream.pos, stream.left := stream.pos + 1, stream.left - 1;
  }

  method Read(stream: IStream, count: nat) returns (ok: bool, b: Bytes)
    requires stream.Valid()
    modifies stream
    ensures Kept(stream, ok) && ok == (count <= |old(stream.Rest())|)
    ensures ok ==> b == old(stream.Rest())[..count] && stream.Rest() == old(stream.Rest())[count..]
  {
    if stream.left < count {
      return false, [];
    }
    ok, b := true, stream.buffer[stream.pos..stream.pos + count];
    stream.pos, stream.left := stream.pos + count, stream.left - count;
  }

  method ReadVarint32(stream: IStream) returns (r: Option<nat>)
    requires stream.Valid()
    modifies stream
    ensures Kept(stream, r.Some?)
    ensures match Varint32(old(stream.Rest())) { case None => r == None case Some((v, rest)) => r == Some(v) && stream.Rest() == rest }
  {
    ghost var s := stream.Rest();
    var ok, b := ReadByte(stream);
    if !ok {
      return None;
    }
    if b < 128 {
      return Some(b);
    }
    var bitpos, result: nat := 7, b % 128;
    while b >= 128
      invariant Kept(stream, true) && bitpos % 7 == 0 && bitpos > 0 && result < TWO_TO_THE_32
      invariant b >= 128 ==> Varint32(s) == Varint32More(stream.Rest(), result, bitpos)
      invariant b < 128 ==> Varint32(s) == if bitpos == 35 && b / 16 != 0 then None else Some((result, stream.Rest()))
      decreases stream.left, b
    {
      ok, b := ReadByte(stream);
      if !ok {
        return None;
      }
      if bitpos >= 32 {
        if b % 128 != 0 && (result / 0x8000_0000 == 0 || b != if bitpos < 63 then 0xFF else 0x01) {
          return None;
        }
      } else {
        result := (result + b % 128 * Power128(bitpos / 7)) % TWO_TO_THE_32;
      }
      bitpos := bitpos + 7;
    }
    if bitpos == 35 && b / 16 != 0 {
      return None;
    }
    r := Some(result);
  }

  lemma GroupRead(s: Bytes, prefix: Bytes, b: Byte, rest: Bytes)
    requires s == prefix + ([b] + rest) && |prefix| < 10 && forall j :: 0 <= j < |prefix| ==> prefix[j] >= 128
    ensures (Groups(prefix) % TWO_TO_THE_64 + b % 128 * Power128(|prefix|)) % TWO_TO_THE_64 == Groups(prefix + [b]) % TWO_TO_THE_64
    ensures b < 128 ==> GetVarint64(s) == Some((Groups(prefix + [b]) % TWO_TO_THE_64, rest))
    ensures s == (prefix + [b]) + rest
  {
    hide Groups, Power128;
    GroupsAppend(prefix, b);
    ModuloSum(Groups(prefix), b % 128 * Power128(|prefix|), TWO_TO_THE_64);
    if b < 128 { LastGroup(s, prefix, b, rest); }
  }

  lemma LastGroup(s: Bytes, prefix: Bytes, b: Byte, rest: Bytes)
    requires s == prefix + ([b] + rest) && |prefix| < 10 && b < 128 && forall j :: 0 <= j < |prefix| ==> prefix[j] >= 128
    ensures GetVarint64(s) == Some((Groups(prefix + [b]) % TWO_TO_THE_64, rest))
  {
    hide Groups;
    assert s[|prefix|] == b && forall j :: 0 <= j < |prefix| ==> s[j] == prefix[j];
    TerminatorIs(s, 10, |prefix|);
    assert s[..|prefix| + 1] == prefix + [b] && s[|prefix| + 1..] == rest;
  }

  lemma {:induction false} TerminatorIs(s: Bytes, limit: nat, k: nat)
    requires k < limit && k < |s| && s[k] < 128 && forall j :: 0 <= j < k ==> s[j] >= 128
    ensures Terminator(s, limit) == Some(k)
  {
    if k > 0 { TerminatorIs(s[1..], limit - 1, k - 1); }
  }

  lemma NoTerminator(s: Bytes, prefix: Bytes, rest: Bytes)
    requires s == prefix + rest && (|prefix| == 10 || rest == []) && forall j :: 0 <= j < |prefix| ==> prefix[j] >= 128
    ensures GetVarint64(s) == None
  {
    assert forall j :: 0 <= j < |prefix| ==> s[j] == prefix[j];
  }

  method ReadVarint64(stream: IStream) returns (r: Option<nat>)
    requires stream.Valid()
    modifies stream
    ensures Kept(stream, r.Some?)
    ensures match GetVarint64(old(stream.Rest())) { case None => r == None case Some((v, rest)) => r == Some(v) && stream.Rest() == rest }
  {
    assert Groups([]) == 0;
    hide GetVarint64, Groups, Power128;
    ghost var s := stream.Rest();
    ghost var prefix: Bytes := [];
    var bitpos: nat, result: nat := 0, 0;
    while true
      invariant Kept(stream, true) && bitpos == 7 * |prefix| && |prefix| <= 10
      invariant s == prefix + stream.Rest() && (forall j :: 0 <= j < |prefix| ==> prefix[j] >= 128)
      invariant result == Groups(prefix) % TWO_TO_THE_64
      decreases stream.left
    {
      if bitpos >= 64 {
        NoTerminator(s, prefix, stream.Rest());
        return None;
      }
      ghost var was := stream.Rest();
      var ok, b := ReadByte(stream);
      if !ok {
        NoTerminator(s, prefix, was);
        return None;
      }
      GroupRead(s, prefix, b, stream.Rest());
      assert bitpos / 7 == |prefix|;
      result := (result + b % 128 * Power128(bitpos / 7)) % TWO_TO_THE_64;
      prefix := prefix + [b];
      bitpos := bitpos + 7;
      if b < 128 {
        return Some(result);
      }
    }
  }

  method ReadString(stream: IStream, max: nat) returns (r: Option<Bytes>)
    requires stream.Valid()
    modifies stream
    ensures Kept(stream, r.Some?)
    ensures match TakeString(old(stream.Rest()))
      case None => r == None
      case Some((b, rest)) => if |b| <= max then r == Some(b) && stream.Rest() == rest else r == None
  {
    var size := ReadVarint32(stream);
    if size == None || size.value > max {
      return None;
    }
    var ok, b := Read(stream, size.value);
    r := if ok then Some(b) else None;
  }

  method Skip(stream: IStream, wire: nat) returns (ok: bool)
    requires stream.Valid()
    modifies stream
    ensures Kept(stream, ok)
    ensures match SkipField(old(stream.Rest()), wire) { case None => !ok case Some(rest) => ok && stream.Rest() == rest }
  {
    hide Varint32;
    ghost var s := stream.Rest();
    var b: Bytes;
    if wire == WT_VARINT {
      var byte := 128;
      ok := true;
      while byte >= 128
        invariant Kept(stream, true) && ok
        invariant SkipVarint(s) == if byte >= 128 then SkipVarint(stream.Rest()) else Some(stream.Rest())
        decreases stream.left, byte
      {
        ok, byte := ReadByte(stream);
        if !ok {
          return;
        }
      }
    } else if wire == WT_64BIT {
      ok, b := Read(stream, 8);
    } else if wire == WT_STRING {
      var size := ReadVarint32(stream);
      if size == None {
        return false;
      }
      ok, b := Read(stream, size.value);
    } else if wire == WT_32BIT {
      ok, b := Read(stream, 4);
    } else {
      ok := false;
    }
  }

  /** A stream over the next length-prefixed bytes; the parent's position follows when it is closed. */
  method OpenSubstream(stream: IStream) returns (sub: IStream?)
    requires stream.Valid()
    modifies stream
    ensures stream.Valid() && stream.pos + stream.left <= old(stream.pos + stream.left)
    ensures sub == null <==> TakeString(old(stream.Rest())) == None
    ensures sub != null ==> fresh(sub) && sub.Valid() && sub.buffer == stream.buffer && sub.pos + sub.left + stream.left == old(stream.pos + stream.left)
    ensures sub != null ==> match TakeString(old(stream.Rest()))
      case None => false
      case Some((b, rest)) => b == sub.Rest() && rest == stream.buffer[sub.pos + sub.left..sub.pos + sub.left + stream.left]
  {
    hide Varint32;
    var size := ReadVarint32(stream);
    if size == None || stream.left < size.value {
      return null;
    }
    sub := new IStream(stream.buffer, stream.pos, size.value);
    stream.left := stream.left - size.value;
  }

  method CloseSubstream(stream: IStream, sub: IStream)
    requires stream != sub && sub.Valid() && stream.Valid() && stream.buffer == sub.buffer && sub.pos + sub.left + stream.left <= |sub.buffer|
    modifies stream, sub
    ensures stream.Valid() && stream.left == old(stream.left) && stream.pos == old(sub.pos + sub.left)
    ensures stream.Rest() == stream.buffer[stream.pos..stream.pos + stream.left]
  {
    if sub.left != 0 {
      var ok, b := Read(sub, sub.left);
    }
    stream.pos := sub.pos;
  }

  // ------------------------------------------------------------------ values

  /** What a decoder does to its stream and its result, next to what the function says. */
  ghost predicate Agrees<T>(r: Option<T>, after: Bytes, spec: Option<(T, Bytes)>) {
    match spec
    case None => r == None
    case Some((v, rest)) => r == Some(v) && after == rest
  }

  method DecodeScalar(stream: IStream, kind: Kind, init: Value) returns (r: Option<Value>)
    requires stream.Valid() && !kind.Message? && GoodKind(kind)
    modifies stream
    ensures Kept(stream, r.Some?) && Agrees(r, stream.Rest(), DecodeValue(kind, old(stream.Rest()), init))
  {
    hide Varint32, GetVarint64, TakeString, DecodeFixed32, DecodeFixed64;
    match kind
    case Boolean =>
      var v := ReadVarint32(stream);
      r := if v == None then None else Some(Flag(v.value != 0));
    case Signed(size) =>
      var v := ReadVarint64(stream);
      if v == None {
        return None;
      }
      var n := SignedOf(v.value, if size == 8 then 8 else 4);
      // The cast to the member's size must not change the value.
      var clamped := SignedOf(if n < 0 then n + TWO_TO_THE_64 else n, size);
      ClampIs(n, size, if size == 8 then 8 else 4, v.value);
      r := if clamped == n then Some(Number(n)) else None;
    case Unsigned(size) =>
      var v := ReadVarint64(stream);
      if v == None {
        return None;
      }
      var clamped := v.value % Modulus(size);
      UnsignedClamp(v.value, size);
      r := if clamped == v.value then Some(Number(v.value)) else None;
    case ZigZag(size) =>
      var v := ReadVarint64(stream);
      if v == None {
        return None;
      }
      var n := UnZigZag(v.value);
      r := if InSigned(n, size) then Some(Number(n)) else None;
    case Fixed32 =>
      FixedPrefix(stream.Rest());
      var ok, b := Read(stream, 4);
      r := if ok then Some(Number(DecodeFixed32(b))) else None;
    case Fixed64 =>
      FixedPrefix(stream.Rest());
      var ok, b := Read(stream, 8);
      r := if ok then Some(Number(DecodeFixed64(b))) else None;
    case ByteArray(dataSize) =>
      var b := ReadString(stream, dataSize);
      r := if b == None then None else Some(Blob(b.value));
    case CString(dataSize) =>
      // Space for the zero at the end.
      if dataSize == 0 {
        return None;
      }
      var b := ReadString(stream, dataSize - 1);
      r := if b == None then None else Some(Blob(b.value));
    case FixedBytes(dataSize) =>
      var b := ReadString(stream, dataSize);
      if b == None || (b.value != [] && |b.value| != dataSize) {
        return None;
      }
      r := Some(Blob(if b.value == [] then Zeros(dataSize) else b.value));
  }

  lemma ClampIs(n: int, size: nat, width: nat, v: nat)
    requires IntegerSize(size) && width == (if size == 8 then 8 else 4) && n == SignedOf(v, width)
    ensures (if n < 0 then n + TWO_TO_THE_64 else n) >= 0
    ensures SignedOf(if n < 0 then n + TWO_TO_THE_64 else n, size) == n <==> InSigned(n, size)
  {
    ResidueRange(v, Modulus(width));
    var u: nat := if n < 0 then n + TWO_TO_THE_64 else n;
    if InSigned(n, size) { ResidueIs(n, u, Modulus(size), size); }
    ResidueRange(u, Modulus(size));
  }

  lemma ResidueRange(v: nat, m: nat)
    requires m > 0
    ensures 0 <= v % m < m
  {
  }

  lemma ResidueIs(n: int, u: nat, m: nat, size: nat)
    requires IntegerSize(size) && m == Modulus(size) && InSigned(n, size) && u == if n < 0 then n + TWO_TO_THE_64 else n
    ensures u % m == if n < 0 then n + m else n
  {
    if n < 0 {
      assert TWO_TO_THE_64 % m == 0;
    }
  }

  lemma UnsignedClamp(v: nat, size: nat)
    ensures v % Modulus(size) == v <==> v < Modulus(size)
  {
    ResidueRange(v, Modulus(size));
  }

  lemma FixedPrefix(s: Bytes)
    ensures |s| >= 4 ==> DecodeFixed32(s[..4]) == DecodeFixed32(s)
    ensures |s| >= 8 ==> DecodeFixed64(s[..8]) == DecodeFixed64(s)
  {
    if |s| >= 8 {
      assert s[..8][4..] == s[4..8] && s[4..][..4] == s[4..8];
    }
  }

  // ---------------------------------------------------------------- messages

  method DecodeAny(stream: IStream, kind: Kind, init: Value) returns (r: Option<Value>)
    requires stream.Valid() && GoodKind(kind)
    modifies stream
    ensures Kept(stream, r.Some?) && Agrees(r, stream.Rest(), DecodeValue(kind, old(stream.Rest()), init))
    decreases stream.left, 1
  {
    if !kind.Message? {
      r := DecodeScalar(stream, kind, init);
      return;
    }
    hide TakeString, DecodeMessage, GoodKind, ZeroSlots;
    ghost var s := stream.Rest();
    var sub := OpenSubstream(stream);
    if sub == null {
      return None;
    }
    var slots := DecodeMessageInto(sub, kind, if init.Struct? && |init.slots| == |kind.fields| then init.slots else ZeroSlots(kind, |kind.fields|));
    CloseSubstream(stream, sub);
    r := if slots == None then None else Some(Struct(slots.value));
  }

  /** The first 64 bits only are kept, for the first 64 required fields. */
  ghost predicate Bounded(fields: seq<Field>, seen: set<nat>) {
    forall n :: n in seen ==> n < RequiredBefore(fields, |fields|) && n < MAX_REQUIRED_FIELDS
  }

  lemma {:induction false} RequiredGrows(fields: seq<Field>, i: nat, n: nat)
    requires i < n <= |fields|
    ensures RequiredBefore(fields, i) + (if fields[i].rule.Required? then 1 else 0) <= RequiredBefore(fields, n)
  {
    if i < n - 1 { RequiredGrows(fields, i, n - 1); }
  }

  lemma MarkedBounded(fields: seq<Field>, i: nat, seen: set<nat>)
    requires Bounded(fields, seen) && i < |fields|
    ensures Bounded(fields, Marked(fields, i, seen))
  {
    hide RequiredBefore;
    RequiredGrows(fields, i, |fields|);
  }

  /** The fields that a message has after one that is known, unknown or the last. */
  lemma FieldsUnfold(kind: Kind, s: Bytes, p: Progress)
    requires kind.Message? && |p.slots| == |kind.fields| && s != []
    ensures match Varint32(s)
      case None => DecodeFields(kind, s, p) == None
      case Some((temp, rest)) =>
        if temp == 0 then DecodeFields(kind, s, p) == Some(p)
        else match FindField(kind.fields, temp / 8)
          case None => DecodeFields(kind, s, p) == (match SkipField(rest, temp % 8) case None => None case Some(rest') => DecodeFields(kind, rest', p))
          case Some(i) => DecodeFields(kind, s, p) == (match DecodeField(kind, i, temp % 8, rest, p) case None => None case Some((p', rest')) => DecodeFields(kind, rest', p'))
  {
    hide Varint32, FindField, SkipField, DecodeField;
  }

  lemma FieldsEnd(kind: Kind, s: Bytes, p: Progress)
    requires kind.Message? && |p.slots| == |kind.fields|
    ensures s == [] ==> DecodeFields(kind, s, p) == Some(p)
  {
  }

  lemma CompleteIs(fields: seq<Field>, slots: seq<Slot>, seen: set<nat>, fixed: Option<nat>)
    ensures Complete(fields, Progress(slots, seen, fixed)) <==> IsComplete(fields, slots, fixed)
  {
  }

  lemma DistinctTags(kind: Kind)
    requires kind.Message? && GoodKind(kind)
    ensures forall i, j :: 0 <= i < j < |kind.fields| ==> kind.fields[i].tag != kind.fields[j].tag
    ensures forall i :: 0 <= i < |kind.fields| ==> GoodKind(kind.fields[i].kind)
  {
  }

  /** pb_decode_noinit. */
  method DecodeMessageInto(stream: IStream, kind: Kind, init: seq<Slot>) returns (r: Option<seq<Slot>>)
    requires stream.Valid() && kind.Message? && GoodKind(kind) && |init| == |kind.fields|
    modifies stream
    ensures Kept(stream, r.Some?) && r == DecodeMessage(kind, old(stream.Rest()), init)
    decreases stream.left, 5
  {
    hide Varint32, DecodeField, DecodeFields, FindField, SkipField, GoodKind, RequiredBefore, Marks, Complete;
    ghost var spec := DecodeFields(kind, stream.Rest(), Progress(init, {}, None));
    ghost var seen: set<nat> := {};
    var words: seq<nat> := [0, 0];
    NothingMarked();
    DistinctTags(kind);
    var fixed: Option<nat> := None;
    var slots := init;
    var iter := new FieldIter(kind.fields);
    while stream.left > 0
      invariant fresh(iter) && iter.Valid() && iter.fields == kind.fields && Kept(stream, true) && stream.left <= old(stream.left)
      invariant |slots| == |kind.fields| && Marks(words, seen) && Bounded(kind.fields, seen)
      invariant DecodeFields(kind, stream.Rest(), Progress(slots, seen, fixed)) == spec
      decreases stream.left
    {
      FieldsUnfold(kind, stream.Rest(), Progress(slots, seen, fixed));
      var temp := ReadVarint32(stream);
      if temp == None {
        return None;
      }
      if temp.value == 0 {
        // A zero ends the message.
        assert spec == Some(Progress(slots, seen, fixed));
        break;
      }
      var found := iter.Find(temp.value / 8);
      if !found {
        var ok := Skip(stream, temp.value % 8);
        if !ok {
          return None;
        }
      } else {
        var i := iter.pos;
        if kind.fields[i].rule.Required? && iter.required < MAX_REQUIRED_FIELDS {
          words := Mark(words, iter.required, seen);
        }
        MarkedBounded(kind.fields, i, seen);
        var result := DecodeFieldInto(stream, kind, i, temp.value % 8, slots, fixed, seen);
        if result == None {
          return None;
        }
        slots, fixed := result.value.0, result.value.1;
        seen := Marked(kind.fields, i, seen);
      }
    }
    FieldsEnd(kind, stream.Rest(), Progress(slots, seen, fixed));
    assert spec == Some(Progress(slots, seen, fixed));
    CompleteIs(kind.fields, slots, seen, fixed);
    if !IsComplete(kind.fields, slots, fixed) {
      return None;
    }
    var count := iter.CountRequired();
    if count > MAX_REQUIRED_FIELDS {
      count := MAX_REQUIRED_FIELDS;
    }
    var ok := CheckRequired(words, count, seen);
    r := if ok then Some(slots) else None;
  }

  /** The fixed count field has all its entries. */
  predicate IsComplete(fields: seq<Field>, slots: seq<Slot>, fixed: Option<nat>) {
    fixed.Some? ==>
      fixed.value < |fields| && fixed.value < |slots| && fields[fixed.value].rule.FixedCount?
      && |ItemsOf(slots[fixed.value])| == fields[fixed.value].rule.arraySize
  }

  method DecodeFieldInto(stream: IStream, kind: Kind, i: nat, wire: nat, slots: seq<Slot>, fixed: Option<nat>, ghost seen: set<nat>)
    returns (r: Option<(seq<Slot>, Option<nat>)>)
    requires stream.Valid() && kind.Message? && GoodKind(kind) && |slots| == |kind.fields| && i < |slots|
    modifies stream
    ensures Kept(stream, r.Some?)
    ensures match DecodeField(kind, i, wire, old(stream.Rest()), Progress(slots, seen, fixed))
      case None => r == None
      case Some((p, rest)) => r == Some((p.slots, p.fixed)) && p.seen == Marked(kind.fields, i, seen) && stream.Rest() == rest && |rest| < |old(stream.Rest())|
    decreases stream.left, 3
  {
    hide DecodeValue, DecodeRepeated, GoodKind, Marked, UnionOf;
    assert GoodKind(kind.fields[i].kind) by { DistinctTags(kind); }
    var f := kind.fields[i];
    match f.rule
    case Repeated(n) =>
      var items := DecodeRepeatedInto(stream, f.kind, wire, ItemsOf(slots[i]), n);
      r := if items == None then None else Some((slots[i := Many(items.value)], fixed));
    case FixedCount(n) =>
      if fixed != Some(i) && !IsComplete(kind.fields, slots, fixed) {
        return None;
      }
      var items := DecodeRepeatedInto(stream, f.kind, wire, if fixed == Some(i) then ItemsOf(slots[i]) else [], n);
      r := if items == None then None else Some((slots[i := Many(items.value)], Some(i)));
    case OneOf(_) =>
      var v := DecodeAny(stream, f.kind, Zero(f.kind));
      r := if v == None then None else Some((UnionOf(kind.fields, slots, i, |slots|)[i := One(true, v.value)], fixed));
    case _ =>
      var v := DecodeAny(stream, f.kind, ValueOf(slots[i]));
      r := if v == None then None else Some((slots[i := One(true, v.value)], fixed));
  }

  method DecodeRepeatedInto(stream: IStream, kind: Kind, wire: nat, items: seq<Value>, capacity: nat) returns (r: Option<seq<Value>>)
    requires stream.Valid() && GoodKind(kind)
    modifies stream
    ensures Kept(stream, r.Some?) && Agrees(r, stream.Rest(), DecodeRepeated(kind, wire, old(stream.Rest()), items, capacity))
    decreases stream.left, 2
  {
    hide DecodeValue, DecodePacked, TakeString, GoodKind;
    if wire == WT_STRING && Packable(kind) {
      var sub := OpenSubstream(stream);
      if sub == null {
        return None;
      }
      r := DecodePackedInto(sub, kind, items, capacity);
      if r == None {
        return;
      }
      CloseSubstream(stream, sub);
    } else {
      if |items| >= capacity {
        return None;
      }
      var v := DecodeAny(stream, kind, Zero(kind));
      r := if v == None then None else Some(items + [v.value]);
    }
  }

  /** Entries until the substream is empty or the array is full. */
  method DecodePackedInto(sub: IStream, kind: Kind, before: seq<Value>, capacity: nat) returns (r: Option<seq<Value>>)
    requires sub.Valid() && GoodKind(kind) && Packable(kind)
    modifies sub
    ensures Kept(sub, r.Some?) && r == DecodePacked(kind, old(sub.Rest()), before, capacity)
  {
    hide DecodeValue, GoodKind;
    ghost var spec := DecodePacked(kind, sub.Rest(), before, capacity);
    var items := before;
    while sub.left > 0 && |items| < capacity
      invariant Kept(sub, true) && DecodePacked(kind, sub.Rest(), items, capacity) == spec
      decreases sub.left
    {
      ghost var was := sub.Rest();
      var v := DecodeScalar(sub, kind, Zero(kind));
      if v == None {
        return None;
      }
      ValueShrinks(kind, was, Zero(kind));
      items := items + [v.value];
    }
    if sub.left != 0 {
      return None;
    }
    r := Some(items);
  }

  lemma ValueShrinks(kind: Kind, s: Bytes, init: Value)
    ensures DecodeValue(kind, s, init).Some? ==> |DecodeValue(kind, s, init).value.1| < |s|
  {
  }
}
