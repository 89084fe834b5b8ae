/** A message is accepted only if its required fields were in it, as far as there is a bit for each. */
module PbRequired {
  import opened Coding
  import opened PbDecode
  import opened PbMessages
  import opened Wrappers

  /** Some field that the decoder reads at the top level has this tag. */
  ghost predicate ReadsTag(kind: Kind, s: Bytes, p: Progress, tag: nat)
    requires kind.Message? && |p.slots| == |kind.fields|
    decreases |s|
  {
    s != [] && match Varint32(s)
    case None => false
    case Some((temp, rest)) =>
      temp != 0 && (temp / 8 == tag || match FindField(kind.fields, temp / 8)
      case None =>
        (match SkipField(rest, temp % 8)
        case None => false
        case Some(rest') => ReadsTag(kind, rest', p, tag))
      case Some(i) =>
        (match DecodeField(kind, i, temp % 8, rest, p)
        case None => false
        case Some((p', rest')) => ReadsTag(kind, rest', p', tag)))
  }

  lemma FieldMarks(kind: Kind, i: nat, wire: nat, s: Bytes, p: Progress)
    requires kind.Message? && |p.slots| == |kind.fields| && i < |p.slots|
    ensures var r := DecodeField(kind, i, wire, s, p); r.Some? ==> r.value.0.seen == Marked(kind.fields, i, p.seen)
  {
    hide DecodeValue, DecodeRepeated, Marked, UnionOf;
  }

  lemma {:induction false} SeenWasRead(kind: Kind, s: Bytes, p: Progress, n: nat) returns (i: nat)
    requires kind.Message? && |p.slots| == |kind.fields|
    requires DecodeFields(kind, s, p).Some? && n in DecodeFields(kind, s, p).value.seen && n !in p.seen
    ensures i < |kind.fields| && kind.fields[i].rule.Required? && RequiredBefore(kind.fields, i) == n && ReadsTag(kind, s, p, kind.fields[i].tag)
    decreases |s|
  {
    hide Varint32, SkipField, DecodeField, RequiredBefore;
    var (temp, rest) := Varint32(s).value;
    match FindField(kind.fields, temp / 8)
    case None =>
      i := SeenWasRead(kind, SkipField(rest, temp % 8).value, p, n);
    case Some(j) =>
      var (p', rest') := DecodeField(kind, j, temp % 8, rest, p).value;
      FieldMarks(kind, j, temp % 8, rest, p);
      if n in p'.seen {
        i := j;
      } else {
        i := SeenWasRead(kind, rest', p', n);
      }
  }

  lemma {:induction false} Ordinals(fields: seq<Field>, i: nat, j: nat)
    requires i < j <= |fields| && fields[i].rule.Required?
    ensures RequiredBefore(fields, i) < RequiredBefore(fields, j)
  {
    if i < j - 1 { Ordinals(fields, i, j - 1); }
  }

  /** Decoding succeeds only if each of the first 64 required fields was read. */
  lemma RequiredWereRead(kind: Kind, s: Bytes, slots: seq<Slot>, i: nat)
    requires kind.Message? && |slots| == |kind.fields| && DecodeMessage(kind, s, slots).Some?
    requires i < |kind.fields| && kind.fields[i].rule.Required? && RequiredBefore(kind.fields, i) < 64
    ensures ReadsTag(kind, s, Progress(slots, {}, None), kind.fields[i].tag)
  {
    hide DecodeFields, ReadsTag, Complete, RequiredBefore;
    Ordinals(kind.fields, i, |kind.fields|);
    var j := SeenWasRead(kind, s, Progress(slots, {}, None), RequiredBefore(kind.fields, i));
    if i < j { Ordinals(kind.fields, i, j); }
    if j < i { Ordinals(kind.fields, j, i); }
  }
}
