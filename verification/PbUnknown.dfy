/** Fields that a message does not know (pb_skip_field in nanopb/pb_decode.c): wherever one stands between two
    fields, whatever its wire type, decoding gives what it gives without it. */
module PbUnknown {
  import opened Coding
  import opened PbDecode
  import opened PbMessages
  import opened PbRoundTrip
  import opened Wrappers

  // --------------------------------------------------- what was read stays read

  lemma {:induction false} MoreVarint32More(s: Bytes, result: nat, bitpos: nat, t: Bytes)
    requires result < TWO_TO_THE_32 && bitpos % 7 == 0 && Varint32More(s, result, bitpos).Some?
    ensures var (v, rest) := Varint32More(s, result, bitpos).value; Varint32More(s + t, result, bitpos) == Some((v, rest + t))
  {
    hide Misplaced, Power128;
    assert (s + t)[0] == s[0] && (s + t)[1..] == s[1..] + t;
    if s[0] >= 128 {
      var next := if bitpos >= 32 then result else (result + s[0] % 128 * Power128(bitpos / 7)) % TWO_TO_THE_32;
      MoreVarint32More(s[1..], next, bitpos + 7, t);
    }
  }

  lemma MoreVarint32(s: Bytes, t: Bytes)
    requires Varint32(s).Some?
    ensures var (v, rest) := Varint32(s).value; Varint32(s + t) == Some((v, rest + t))
  {
    assert (s + t)[0] == s[0] && (s + t)[1..] == s[1..] + t;
    if s[0] >= 128 { MoreVarint32More(s[1..], s[0] % 128, 7, t); }
  }

  lemma {:induction false} MoreTerminator(s: Bytes, limit: nat, t: Bytes)
    requires Terminator(s, limit).Some?
    ensures Terminator(s + t, limit) == Terminator(s, limit)
  {
    assert (s + t)[0] == s[0] && (s + t)[1..] == s[1..] + t;
    if s[0] >= 128 { MoreTerminator(s[1..], limit - 1, t); }
  }

  lemma MoreVarint64(s: Bytes, t: Bytes)
    requires GetVarint64(s).Some?
    ensures var (v, rest) := GetVarint64(s).value; GetVarint64(s + t) == Some((v, rest + t))
  {
    MoreTerminator(s, 10, t);
    var k := Terminator(s, 10).value;
    assert (s + t)[..k + 1] == s[..k + 1] && (s + t)[k + 1..] == s[k + 1..] + t;
  }

  lemma MoreString(s: Bytes, t: Bytes)
    requires TakeString(s).Some?
    ensures var (b, rest) := TakeString(s).value; TakeString(s + t) == Some((b, rest + t))
  {
    hide Varint32;
    MoreVarint32(s, t);
    var (n, rest) := Varint32(s).value;
    assert (rest + t)[..n] == rest[..n] && (rest + t)[n..] == rest[n..] + t;
  }

  lemma MoreFixed(s: Bytes, t: Bytes)
    ensures |s| >= 4 ==> DecodeFixed32(s + t) == DecodeFixed32(s) && (s + t)[4..] == s[4..] + t
    ensures |s| >= 8 ==> DecodeFixed64(s + t) == DecodeFixed64(s) && (s + t)[8..] == s[8..] + t
  {
    if |s| >= 8 {
      assert (s + t)[4..] == s[4..] + t;
    }
  }

  lemma MoreValue(kind: Kind, s: Bytes, init: Value, t: Bytes)
    requires DecodeValue(kind, s, init).Some?
    ensures var (v, rest) := DecodeValue(kind, s, init).value; DecodeValue(kind, s + t, init) == Some((v, rest + t))
  {
    hide Varint32, GetVarint64, TakeString, DecodeFixed32, DecodeFixed64, DecodeMessage, ZeroSlots;
    match kind
    case Boolean => MoreVarint32(s, t);
    case Signed(_) => MoreVarint64(s, t);
    case Unsigned(_) => MoreVarint64(s, t);
    case ZigZag(_) => MoreVarint64(s, t);
    case Fixed32 => MoreFixed(s, t);
    case Fixed64 => MoreFixed(s, t);
    case ByteArray(_) => MoreString(s, t);
    case CString(_) => MoreString(s, t);
    case FixedBytes(_) => MoreString(s, t);
    case Message(_) => MoreString(s, t);
  }

  lemma MoreRepeated(kind: Kind, wire: nat, s: Bytes, items: seq<Value>, capacity: nat, t: Bytes)
    requires DecodeRepeated(kind, wire, s, items, capacity).Some?
    ensures var (r, rest) := DecodeRepeated(kind, wire, s, items, capacity).value; DecodeRepeated(kind, wire, s + t, items, capacity) == Some((r, rest + t))
  {
    hide TakeString, DecodeValue, DecodePacked, Zero;
    if wire == WT_STRING && Packable(kind) {
      MoreString(s, t);
    } else {
      MoreValue(kind, s, Zero(kind), t);
    }
  }

  lemma MoreField(kind: Kind, i: nat, wire: nat, s: Bytes, p: Progress, t: Bytes)
    requires kind.Message? && |p.slots| == |kind.fields| && i < |p.slots| && DecodeField(kind, i, wire, s, p).Some?
    ensures var (q, rest) := DecodeField(kind, i, wire, s, p).value; DecodeField(kind, i, wire, s + t, p) == Some((q, rest + t))
  {
    hide DecodeValue, DecodeRepeated, Zero, RequiredBefore, UnionOf, Complete, Marked;
    var f, q := kind.fields[i], p.(seen := Marked(kind.fields, i, p.seen));
    match f.rule
    case Repeated(n) => MoreRepeated(f.kind, wire, s, ItemsOf(q.slots[i]), n, t);
    case FixedCount(n) => MoreRepeated(f.kind, wire, s, if q.fixed == Some(i) then ItemsOf(q.slots[i]) else [], n, t);
    case OneOf(_) => MoreValue(f.kind, s, Zero(f.kind), t);
    case _ => MoreValue(f.kind, s, ValueOf(q.slots[i]), t);
  }

  lemma {:induction false} MoreSkipVarint(s: Bytes, t: Bytes)
    requires SkipVarint(s).Some?
    ensures SkipVarint(s + t) == Some(SkipVarint(s).value + t)
  {
    assert (s + t)[0] == s[0] && (s + t)[1..] == s[1..] + t;
    if s[0] >= 128 { MoreSkipVarint(s[1..], t); }
  }

  lemma MoreSkip(s: Bytes, wire: nat, t: Bytes)
    requires SkipField(s, wire).Some?
    ensures SkipField(s + t, wire) == Some(SkipField(s, wire).value + t)
  {
    hide SkipVarint, TakeString;
    if wire == WT_VARINT {
      MoreSkipVarint(s, t);
    } else if wire == WT_STRING {
      MoreString(s, t);
    } else if wire == WT_64BIT {
      assert (s + t)[8..] == s[8..] + t;
    } else {
      assert (s + t)[4..] == s[4..] + t;
    }
  }

  // ------------------------------------------------------------ between two fields

  /** Wherever decoding stands, it makes the same of both. */
  ghost predicate SameFields(kind: Kind, t: Bytes, t': Bytes)
    requires kind.Message?
  {
    forall p: Progress :: |p.slots| == |kind.fields| ==> DecodeFields(kind, t, p) == DecodeFields(kind, t', p)
  }

  /** What follows some whole fields matters only by what decoding makes of it. */
  lemma {:induction false} FieldsThen(kind: Kind, a: Bytes, t: Bytes, t': Bytes, p: Progress)
    requires kind.Message? && |p.slots| == |kind.fields| && DecodeFields(kind, a, p).Some? && SameFields(kind, t, t')
    ensures DecodeFields(kind, a + t, p) == DecodeFields(kind, a + t', p)
    decreases |a|
  {
    hide Varint32, FindField, SkipField, DecodeField, SameFields;
    if a == [] {
      assert a + t == t && a + t' == t';
      SameAt(kind, t, t', p);
    } else {
      MoreVarint32(a, t);
      MoreVarint32(a, t');
      var (temp, rest) := Varint32(a).value;
      if temp != 0 {
        match FindField(kind.fields, temp / 8) {
          case None =>
            MoreSkip(rest, temp % 8, t);
            MoreSkip(rest, temp % 8, t');
            FieldsThen(kind, SkipField(rest, temp % 8).value, t, t', p);
          case Some(i) =>
            MoreField(kind, i, temp % 8, rest, p, t);
            MoreField(kind, i, temp % 8, rest, p, t');
            var (q, rest') := DecodeField(kind, i, temp % 8, rest, p).value;
            FieldsThen(kind, rest', t, t', q);
        }
      }
    }
  }

  lemma SameAt(kind: Kind, t: Bytes, t': Bytes, p: Progress)
    requires kind.Message? && |p.slots| == |kind.fields| && SameFields(kind, t, t')
    ensures DecodeFields(kind, t, p) == DecodeFields(kind, t', p)
  {
  }

  // -------------------------------------------------------------- unknown fields

  predicate Unknown(kind: Kind, tag: nat)
    requires kind.Message?
  {
    forall i :: 0 <= i < |kind.fields| ==> kind.fields[i].tag != tag
  }

  /** The data of one field: a number in groups of seven bits, eight bytes, a length and as many bytes, or
      four bytes. */
  ghost predicate IsData(wire: nat, data: Bytes) {
    match wire
    case 0 => data != [] && data[|data| - 1] < 128 && forall i :: 0 <= i < |data| - 1 ==> data[i] >= 128
    case 1 => |data| == 8
    case 2 => exists b: Bytes :: |b| < TWO_TO_THE_32 && data == Varint(|b|) + b
    case 5 => |data| == 4
    case _ => false
  }

  /** Data that ends too early, or of a wire type that is none. */
  ghost predicate IsNoData(wire: nat, data: Bytes) {
    match wire
    case 0 => forall i :: 0 <= i < |data| ==> data[i] >= 128
    case 1 => |data| < 8
    case 2 => (forall i :: 0 <= i < |data| ==> data[i] >= 128) || exists n, b: Bytes :: |b| < n < TWO_TO_THE_32 && data == Varint(n) + b
    case 5 => |data| < 4
    case _ => true
  }

  lemma {:induction false} SkipsGroups(data: Bytes, rest: Bytes)
    requires data != [] && data[|data| - 1] < 128 && forall i :: 0 <= i < |data| - 1 ==> data[i] >= 128
    ensures SkipVarint(data + rest) == Some(rest)
  {
    assert (data + rest)[0] == data[0] && (data + rest)[1..] == data[1..] + rest;
    if |data| > 1 {
      SkipsGroups(data[1..], rest);
    } else {
      assert data[1..] + rest == rest;
    }
  }

  lemma SkipsData(wire: nat, data: Bytes, rest: Bytes)
    requires IsData(wire, data)
    ensures SkipField(data + rest, wire) == Some(rest)
  {
    hide SkipVarint, TakeString;
    if wire == 0 {
      SkipsGroups(data, rest);
    } else if wire == 2 {
      var b: Bytes :| |b| < TWO_TO_THE_32 && data == Varint(|b|) + b;
      StringBack(b, rest);
      assert PutLengthPrefixed(b) + rest == data + rest;
    } else {
      assert (data + rest)[|data|..] == rest;
    }
  }

  lemma {:induction false} NoGroups(data: Bytes)
    requires forall i :: 0 <= i < |data| ==> data[i] >= 128
    ensures SkipVarint(data) == None
  {
    if data != [] { NoGroups(data[1..]); }
  }

  lemma {:induction false} NoLengthMore(data: Bytes, result: nat, bitpos: nat)
    requires result < TWO_TO_THE_32 && bitpos % 7 == 0 && forall i :: 0 <= i < |data| ==> data[i] >= 128
    ensures Varint32More(data, result, bitpos) == None
  {
    hide Misplaced, Power128;
    if data != [] {
      NoLengthMore(data[1..], if bitpos >= 32 then result else (result + data[0] % 128 * Power128(bitpos / 7)) % TWO_TO_THE_32, bitpos + 7);
    }
  }

  lemma NothingToSkip(wire: nat, data: Bytes)
    requires IsNoData(wire, data)
    ensures SkipField(data, wire) == None
  {
    hide SkipVarint;
    if wire == 0 {
      NoGroups(data);
    } else if wire == 2 && forall i :: 0 <= i < |data| ==> data[i] >= 128 {
      if data != [] { NoLengthMore(data[1..], data[0] % 128, 7); }
    } else if wire == 2 {
      var n, b: Bytes :| |b| < n < TWO_TO_THE_32 && data == Varint(n) + b;
      Varint32Back(n, b);
    }
  }

  lemma UnknownStep(kind: Kind, tag: nat, wire: nat, body: Bytes, p: Progress)
    requires kind.Message? && |p.slots| == |kind.fields| && Unknown(kind, tag) && 0 < tag < TAG_LIMIT && wire < 8
    ensures DecodeFields(kind, Varint(8 * tag + wire) + body, p) ==
            match SkipField(body, wire) case None => None case Some(rest) => DecodeFields(kind, rest, p)
  {
    hide Varint, Varint32, FindField, SkipField;
    Varint32Back(8 * tag + wire, body);
    assert (8 * tag + wire) / 8 == tag && (8 * tag + wire) % 8 == wire;
    assert Varint(8 * tag + wire) + body != [];
    assert FindField(kind.fields, tag) == None;
  }

  /** MAIN: an unknown field of any of the four wire types, put after some whole fields, changes nothing. */
  lemma UnknownFieldPasses(kind: Kind, a: Bytes, tag: nat, wire: nat, data: Bytes, b: Bytes, p: Progress)
    requires kind.Message? && |p.slots| == |kind.fields| && Unknown(kind, tag) && 0 < tag < TAG_LIMIT
    requires IsData(wire, data) && DecodeFields(kind, a, p).Some?
    ensures DecodeFields(kind, a + (Varint(8 * tag + wire) + data) + b, p) == DecodeFields(kind, a + b, p)
  {
    hide Varint, SkipField, DecodeFields, IsData, Unknown;
    var u := Varint(8 * tag + wire) + data;
    WireIs(wire, data);
    forall q: Progress | |q.slots| == |kind.fields| ensures DecodeFields(kind, u + b, q) == DecodeFields(kind, b, q) {
      UnknownStep(kind, tag, wire, data + b, q);
      SkipsData(wire, data, b);
      assert u + b == Varint(8 * tag + wire) + (data + b);
    }
    FieldsThen(kind, a, u + b, b, p);
    assert a + u + b == a + (u + b);
  }

  lemma WireIs(wire: nat, data: Bytes)
    requires IsData(wire, data)
    ensures wire < 8
  {
  }

  /** The same of a whole message. */
  lemma MessagePasses(kind: Kind, a: Bytes, tag: nat, wire: nat, data: Bytes, b: Bytes)
    requires kind.Message? && Unknown(kind, tag) && 0 < tag < TAG_LIMIT && IsData(wire, data)
    requires DecodeFields(kind, a, Progress(ZeroSlots(kind, |kind.fields|), {}, None)).Some?
    ensures Decode(kind, a + (Varint(8 * tag + wire) + data) + b) == Decode(kind, a + b)
  {
    hide Varint, DecodeFields, IsData, Unknown, ZeroSlots;
    UnknownFieldPasses(kind, a, tag, wire, data, b, Progress(ZeroSlots(kind, |kind.fields|), {}, None));
  }

  /** One that is cut short, or of another wire type, fails the decoding. */
  lemma UnknownFieldFails(kind: Kind, tag: nat, wire: nat, data: Bytes, p: Progress)
    requires kind.Message? && |p.slots| == |kind.fields| && Unknown(kind, tag) && 0 < tag < TAG_LIMIT && wire < 8 && IsNoData(wire, data)
    ensures DecodeFields(kind, Varint(8 * tag + wire) + data, p) == None
  {
    hide Varint, SkipField, DecodeFields, IsNoData, Unknown;
    UnknownStep(kind, tag, wire, data, p);
    NothingToSkip(wire, data);
  }
}
