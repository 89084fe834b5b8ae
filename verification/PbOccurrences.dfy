/** A field that comes more than once (decode_static_field in nanopb/pb_decode.c): the last value of a field
    that holds one counts, and the entries of an array may come packed or one by one. */
module PbOccurrences {
  import opened Coding
  import opened PbDecode
  import opened PbMessages
  import opened PbRoundTrip
  import opened PbUnknown
  import opened Wrappers

  /** The bytes of one whole value, and nothing after it. */
  ghost predicate IsValue(kind: Kind, e: Bytes) {
    DecodeValue(kind, e, Zero(kind)).Some? && DecodeValue(kind, e, Zero(kind)).value.1 == []
  }

  predicate HoldsOne(rule: Rule) {
    rule.Required? || rule.Optional? || rule.Singular?
  }

  lemma AnyInit(kind: Kind, s: Bytes, init: Value, init': Value)
    requires !kind.Message?
    ensures DecodeValue(kind, s, init) == DecodeValue(kind, s, init')
  {
    hide Varint32, GetVarint64, TakeString, DecodeFixed32, DecodeFixed64;
  }

  /** One value with its tag sets its slot. */
  lemma OneSet(kind: Kind, i: nat, wire: nat, e: Bytes, rest: Bytes, p: Progress) returns (v: Value)
    requires kind.Message? && GoodKind(kind) && |p.slots| == |kind.fields| && i < |kind.fields| && wire < 8
    requires HoldsOne(kind.fields[i].rule) && !kind.fields[i].kind.Message? && IsValue(kind.fields[i].kind, e)
    ensures DecodeValue(kind.fields[i].kind, e, Zero(kind.fields[i].kind)) == Some((v, []))
    ensures DecodeFields(kind, TagBytes(kind.fields[i].tag, wire) + (e + rest), p) ==
            DecodeFields(kind, rest, p.(slots := p.slots[i := One(true, v)], seen := Marked(kind.fields, i, p.seen)))
  {
    hide GoodKind, TagBytes, DecodeFields, DecodeValue, Zero, Marked;
    var f := kind.fields[i];
    v := DecodeValue(f.kind, e, Zero(f.kind)).value.0;
    FieldStep(kind, i, wire, e + rest, p);
    AnyInit(f.kind, e, Zero(f.kind), ValueOf(p.slots[i]));
    MoreValue(f.kind, e, ValueOf(p.slots[i]), rest);
    assert [] + rest == rest;
  }

  lemma MarkedTwice(fields: seq<Field>, i: nat, seen: set<nat>)
    requires i < |fields|
    ensures Marked(fields, i, Marked(fields, i, seen)) == Marked(fields, i, seen)
  {
    hide RequiredBefore;
  }

  /** MAIN: of two values for one field the later one counts. */
  lemma LastValueCounts(kind: Kind, i: nat, wire: nat, e: Bytes, wire': nat, e': Bytes, rest: Bytes, p: Progress)
    requires kind.Message? && GoodKind(kind) && |p.slots| == |kind.fields| && i < |kind.fields| && wire < 8 && wire' < 8
    requires HoldsOne(kind.fields[i].rule) && !kind.fields[i].kind.Message?
    requires IsValue(kind.fields[i].kind, e) && IsValue(kind.fields[i].kind, e')
    ensures var tag := kind.fields[i].tag;
      DecodeFields(kind, TagBytes(tag, wire) + (e + (TagBytes(tag, wire') + (e' + rest))), p) == DecodeFields(kind, TagBytes(tag, wire') + (e' + rest), p)
  {
    hide GoodKind, TagBytes, DecodeFields, IsValue, Marked;
    var second := TagBytes(kind.fields[i].tag, wire') + (e' + rest);
    var v := OneSet(kind, i, wire, e, second, p);
    var q := p.(slots := p.slots[i := One(true, v)], seen := Marked(kind.fields, i, p.seen));
    var v' := OneSet(kind, i, wire', e', rest, q);
    var v'' := OneSet(kind, i, wire', e', rest, p);
    MarkedTwice(kind.fields, i, p.seen);
    assert q.slots[i := One(true, v')] == p.slots[i := One(true, v'')];
  }

  // -------------------------------------------------------------------- arrays

  function Concat(es: seq<Bytes>): Bytes {
    if es == [] then [] else es[0] + Concat(es[1..])
  }

  /** Each entry with its own tag. */
  function Tagged(tag: nat, wire: nat, es: seq<Bytes>): Bytes {
    if es == [] then [] else TagBytes(tag, wire) + (es[0] + Tagged(tag, wire, es[1..]))
  }

  ghost predicate AllValues(kind: Kind, es: seq<Bytes>) {
    forall i :: 0 <= i < |es| ==> IsValue(kind, es[i])
  }

  lemma FirstPacked(kind: Kind, e: Bytes, more: Bytes, items: seq<Value>, capacity: nat)
    requires IsValue(kind, e)
    ensures DecodeValue(kind, e, Zero(kind)).Some?
    ensures DecodePacked(kind, e + more, items, capacity) ==
            if |items| >= capacity then None else DecodePacked(kind, more, items + [DecodeValue(kind, e, Zero(kind)).value.0], capacity)
  {
    hide DecodeValue;
    MoreValue(kind, e, Zero(kind), more);
    NoneRead(kind);
    assert [] + more == more;
  }

  lemma FirstTagged(kind: Kind, i: nat, wire: nat, e: Bytes, more: Bytes, p: Progress, items: seq<Value>)
    requires kind.Message? && GoodKind(kind) && |p.slots| == |kind.fields| && i < |kind.fields| && wire < 8 && wire != 2
    requires kind.fields[i].rule.Repeated? && p.slots[i] == Many(items) && IsValue(kind.fields[i].kind, e)
    ensures var f := kind.fields[i];
      DecodeFields(kind, TagBytes(f.tag, wire) + (e + more), p) ==
      if |items| >= f.rule.arraySize then None
      else DecodeFields(kind, more, p.(slots := p.slots[i := Many(items + [DecodeValue(f.kind, e, Zero(f.kind)).value.0])]))
  {
    hide GoodKind, TagBytes, DecodeFields, DecodeValue, RequiredBefore;
    var f := kind.fields[i];
    FieldStep(kind, i, wire, e + more, p);
    MoreValue(f.kind, e, Zero(f.kind), more);
    assert [] + more == more;
  }

  lemma {:induction false} TaggedIsPacked(kind: Kind, i: nat, wire: nat, es: seq<Bytes>, rest: Bytes, p: Progress, items: seq<Value>)
    requires kind.Message? && GoodKind(kind) && |p.slots| == |kind.fields| && i < |kind.fields| && wire < 8 && wire != 2
    requires kind.fields[i].rule.Repeated? && p.slots[i] == Many(items) && AllValues(kind.fields[i].kind, es)
    ensures var f := kind.fields[i];
      DecodeFields(kind, Tagged(f.tag, wire, es) + rest, p) ==
      match DecodePacked(f.kind, Concat(es), items, f.rule.arraySize)
      case None => None
      case Some(items') => DecodeFields(kind, rest, p.(slots := p.slots[i := Many(items')]))
    decreases |es|
  {
    hide GoodKind, TagBytes, DecodeFields, IsValue;
    var f := kind.fields[i];
    if es == [] {
      assert Tagged(f.tag, wire, es) + rest == rest && p.slots[i := Many(items)] == p.slots;
    } else {
      var more := Tagged(f.tag, wire, es[1..]);
      assert Tagged(f.tag, wire, es) + rest == TagBytes(f.tag, wire) + (es[0] + (more + rest));
      FirstTagged(kind, i, wire, es[0], more + rest, p, items);
      FirstPacked(f.kind, es[0], Concat(es[1..]), items, f.rule.arraySize);
      if |items| < f.rule.arraySize {
        var items' := items + [DecodeValue(f.kind, es[0], Zero(f.kind)).value.0];
        var q := p.(slots := p.slots[i := Many(items')]);
        TaggedIsPacked(kind, i, wire, es[1..], rest, q, items');
        var r := DecodePacked(f.kind, Concat(es[1..]), items', f.rule.arraySize);
        if r.Some? { assert q.slots[i := Many(r.value)] == p.slots[i := Many(r.value)]; }
      }
    }
  }

  /** MAIN: entries that come packed, under one tag, do what they do one by one. */
  lemma PackedOrNot(kind: Kind, i: nat, wire: nat, es: seq<Bytes>, rest: Bytes, p: Progress, items: seq<Value>)
    requires kind.Message? && GoodKind(kind) && |p.slots| == |kind.fields| && i < |kind.fields| && wire < 8 && wire != 2
    requires kind.fields[i].rule.Repeated? && Packable(kind.fields[i].kind) && p.slots[i] == Many(items)
    requires AllValues(kind.fields[i].kind, es) && |Concat(es)| < TWO_TO_THE_32
    ensures var tag := kind.fields[i].tag;
      DecodeFields(kind, TagBytes(tag, 2) + (Varint(|Concat(es)|) + Concat(es) + rest), p) == DecodeFields(kind, Tagged(tag, wire, es) + rest, p)
  {
    hide GoodKind, TagBytes, DecodeFields, AllValues, Concat, Tagged, TakeString, DecodePacked, RequiredBefore;
    var f, b := kind.fields[i], Concat(es);
    TaggedIsPacked(kind, i, wire, es, rest, p, items);
    FieldStep(kind, i, 2, Varint(|b|) + b + rest, p);
    StringBack(b, rest);
  }
}
