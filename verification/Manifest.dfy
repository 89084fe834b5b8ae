/** The manifest (db/version_edit.cc, VersionSet::Recover in db/version_set.cc): a log of version
    edits, each a list of tagged fields, replayed to find the current version. */
module Manifest {
  import opened Wrappers
  import opened Coding
  import DbFormat
  import Versions
  import VersionBuilder
  import Log

  datatype FileMeta = FileMeta(number: nat, size: nat, smallest: Bytes, largest: Bytes)

  datatype Edit = Edit(comparator: Option<Bytes>, logNumber: Option<nat>, prevLogNumber: Option<nat>, nextFileNumber: Option<nat>,
                       lastSequence: Option<nat>, compactPointers: seq<(nat, Bytes)>, deleted: seq<(nat, nat)>, added: seq<(nat, FileMeta)>)

  const CLEARED: Edit := Edit(None, None, None, None, None, [], [], [])

  // One tagged field of an encoded edit.
  datatype Field =
    | ComparatorName(name: Bytes)
    | LogNumber(number: nat)
    | PrevLogNumber(number: nat)
    | NextFileNumber(number: nat)
    | LastSequence(number: nat)
    | CompactPointer(level: nat, key: Bytes)
    | DeletedFile(level: nat, number: nat)
    | NewFile(level: nat, file: FileMeta)

  predicate Short(s: Bytes) { |s| < TWO_TO_THE_32 }

  predicate EncodableField(f: Field) {
    match f
    case ComparatorName(name) => Short(name)
    case LogNumber(n) => n < TWO_TO_THE_64
    case PrevLogNumber(n) => n < TWO_TO_THE_64
    case NextFileNumber(n) => n < TWO_TO_THE_64
    case LastSequence(n) => n < TWO_TO_THE_64
    case CompactPointer(level, key) => level < DbFormat.NUM_LEVELS && Short(key)
    case DeletedFile(level, n) => level < DbFormat.NUM_LEVELS && n < TWO_TO_THE_64
    case NewFile(level, f) =>
      level < DbFormat.NUM_LEVELS && f.number < TWO_TO_THE_64 && f.size < TWO_TO_THE_64 && Short(f.smallest) && Short(f.largest)
  }

  function FieldBytes(f: Field): (r: Bytes)
    ensures r != []
  {
    match f
    case ComparatorName(name) => Varint(1) + PutLengthPrefixed(name)
    case LogNumber(n) => Varint(2) + Varint(n)
    case PrevLogNumber(n) => Varint(9) + Varint(n)
    case NextFileNumber(n) => Varint(3) + Varint(n)
    case LastSequence(n) => Varint(4) + Varint(n)
    case CompactPointer(level, key) => Varint(5) + Varint(level) + PutLengthPrefixed(key)
    case DeletedFile(level, n) => Varint(6) + Varint(level) + Varint(n)
    case NewFile(level, f) =>
      Varint(7) + Varint(level) + Varint(f.number) + Varint(f.size) + PutLengthPrefixed(f.smallest) + PutLengthPrefixed(f.largest)
  }

  function GetLevel(input: Bytes): (r: Option<(nat, Bytes)>)
    ensures r.Some? ==> |r.value.1| < |input|
  {
    match GetVarint32(input)
    case None => None
    case Some((v, rest)) => if v < DbFormat.NUM_LEVELS then Some((v, rest)) else None
  }

  function NumberField(tag: nat, n: nat): Field {
    if tag == 2 then LogNumber(n) else if tag == 9 then PrevLogNumber(n)
    else if tag == 3 then NextFileNumber(n) else LastSequence(n)
  }

  function GetNumber(tag: nat, input: Bytes): (r: Option<(Field, Bytes)>)
    ensures r.Some? ==> |r.value.1| < |input|
  {
    match GetVarint64(input)
    case None => None
    case Some((n, rest)) => Some((NumberField(tag, n), rest))
  }

  function GetNewFile(input: Bytes): (r: Option<(Field, Bytes)>)
    ensures r.Some? ==> |r.value.1| < |input|
  {
    match GetLevel(input)
    case None => None
    case Some((level, s1)) =>
      match GetVarint64(s1)
      case None => None
      case Some((number, s2)) =>
        match GetVarint64(s2)
        case None => None
        case Some((size, s3)) =>
          match GetLengthPrefixed(s3)
          case None => None
          case Some((smallest, s4)) =>
            match GetLengthPrefixed(s4)
            case None => None
            case Some((largest, rest)) => Some((NewFile(level, FileMeta(number, size, smallest, largest)), rest))
  }

  function GetDeletedFile(input: Bytes): (r: Option<(Field, Bytes)>)
    ensures r.Some? ==> |r.value.1| < |input|
  {
    match GetLevel(input)
    case None => None
    case Some((level, s1)) =>
      match GetVarint64(s1)
      case None => None
      case Some((number, rest)) => Some((DeletedFile(level, number), rest))
  }

  function GetCompactPointer(input: Bytes): (r: Option<(Field, Bytes)>)
    ensures r.Some? ==> |r.value.1| < |input|
  {
    match GetLevel(input)
    case None => None
    case Some((level, s1)) =>
      match GetLengthPrefixed(s1)
      case None => None
      case Some((key, rest)) => Some((CompactPointer(level, key), rest))
  }

  function GetComparator(input: Bytes): (r: Option<(Field, Bytes)>)
    ensures r.Some? ==> |r.value.1| < |input|
  {
    match GetLengthPrefixed(input)
    case None => None
    case Some((name, rest)) => Some((ComparatorName(name), rest))
  }

  /** What follows a tag; an unknown tag has nothing. */
  function GetField(tag: nat, input: Bytes): (r: Option<(Field, Bytes)>)
    ensures r.Some? ==> |r.value.1| < |input|
  {
    if tag == 1 then GetComparator(input)
    else if tag == 2 || tag == 9 || tag == 3 || tag == 4 then GetNumber(tag, input)
    else if tag == 5 then GetCompactPointer(input)
    else if tag == 6 then GetDeletedFile(input)
    else if tag == 7 then GetNewFile(input)
    else None
  }

  function ParseField(input: Bytes): (r: Option<(Field, Bytes)>)
    ensures r.Some? ==> |r.value.1| < |input|
  {
    match GetVarint32(input)
    case None => None
    case Some((tag, rest)) => GetField(tag, rest)
  }

  lemma TagParses(tag: nat, payload: Bytes, rest: Bytes)
    requires tag < 128
    ensures ParseField(Varint(tag) + payload + rest) == GetField(tag, payload + rest)
  {
    hide GetField, GetVarint32, Varint;
    assert Varint(tag) + payload + rest == Varint(tag) + (payload + rest);
    Varint32RoundTrip(tag, payload + rest);
  }

  lemma NewFileParses(level: nat, f: FileMeta, rest: Bytes)
    requires EncodableField(NewFile(level, f))
    ensures ParseField(FieldBytes(NewFile(level, f)) + rest) == Some((NewFile(level, f), rest))
  {
    hide GetVarint32, GetVarint64, GetLengthPrefixed, PutLengthPrefixed, Varint, ParseField;
    var s4 := PutLengthPrefixed(f.largest) + rest;
    var s3 := PutLengthPrefixed(f.smallest) + s4;
    var s2 := Varint(f.size) + s3;
    var s1 := Varint(f.number) + s2;
    var payload := Varint(level) + Varint(f.number) + Varint(f.size) + PutLengthPrefixed(f.smallest) + PutLengthPrefixed(f.largest);
    assert FieldBytes(NewFile(level, f)) == Varint(7) + payload;
    TagParses(7, payload, rest);
    assert payload + rest == Varint(level) + s1;
    Varint32RoundTrip(level, s1);
    Varint64RoundTrip(f.number, s2);
    Varint64RoundTrip(f.size, s3);
    LengthPrefixedRoundTrip(f.smallest, s4);
    LengthPrefixedRoundTrip(f.largest, rest);
  }

  lemma NumberParses(tag: nat, n: nat, rest: Bytes)
    requires n < TWO_TO_THE_64 && (tag == 2 || tag == 9 || tag == 3 || tag == 4)
    ensures ParseField(Varint(tag) + Varint(n) + rest) == Some((NumberField(tag, n), rest))
  {
    hide GetVarint32, GetVarint64, Varint, ParseField;
    TagParses(tag, Varint(n), rest);
    Varint64RoundTrip(n, rest);
  }

  lemma NameParses(name: Bytes, rest: Bytes)
    requires Short(name)
    ensures ParseField(Varint(1) + PutLengthPrefixed(name) + rest) == Some((ComparatorName(name), rest))
  {
    hide GetVarint32, GetLengthPrefixed, PutLengthPrefixed, Varint, ParseField;
    TagParses(1, PutLengthPrefixed(name), rest);
    LengthPrefixedRoundTrip(name, rest);
  }

  lemma PointerParses(level: nat, key: Bytes, rest: Bytes)
    requires level < DbFormat.NUM_LEVELS && Short(key)
    ensures ParseField(Varint(5) + Varint(level) + PutLengthPrefixed(key) + rest) == Some((CompactPointer(level, key), rest))
  {
    hide GetVarint32, GetLengthPrefixed, PutLengthPrefixed, Varint, ParseField;
    var payload := Varint(level) + PutLengthPrefixed(key);
    assert Varint(5) + Varint(level) + PutLengthPrefixed(key) == Varint(5) + payload;
    TagParses(5, payload, rest);
    assert payload + rest == Varint(level) + (PutLengthPrefixed(key) + rest);
    Varint32RoundTrip(level, PutLengthPrefixed(key) + rest);
    LengthPrefixedRoundTrip(key, rest);
  }

  lemma DeletedParses(level: nat, n: nat, rest: Bytes)
    requires level < DbFormat.NUM_LEVELS && n < TWO_TO_THE_64
    ensures ParseField(Varint(6) + Varint(level) + Varint(n) + rest) == Some((DeletedFile(level, n), rest))
  {
    hide GetVarint32, GetVarint64, Varint, ParseField;
    var payload := Varint(level) + Varint(n);
    assert Varint(6) + Varint(level) + Varint(n) == Varint(6) + payload;
    TagParses(6, payload, rest);
    assert payload + rest == Varint(level) + (Varint(n) + rest);
    Varint32RoundTrip(level, Varint(n) + rest);
    Varint64RoundTrip(n, rest);
  }

  lemma FieldParses(f: Field, rest: Bytes)
    requires EncodableField(f)
    ensures ParseField(FieldBytes(f) + rest) == Some((f, rest))
  {
    hide PutLengthPrefixed, Varint, ParseField;
    match f {
      case ComparatorName(name) => NameParses(name, rest);
      case LogNumber(n) => NumberParses(2, n, rest);
      case PrevLogNumber(n) => NumberParses(9, n, rest);
      case NextFileNumber(n) => NumberParses(3, n, rest);
      case LastSequence(n) => NumberParses(4, n, rest);
      case CompactPointer(level, key) => PointerParses(level, key, rest);
      case DeletedFile(level, n) => DeletedParses(level, n, rest);
      case NewFile(level, file) => NewFileParses(level, file, rest);
    }
  }

  // The deleted files are an ordered set of pairs.
  predicate PairBefore(a: (nat, nat), b: (nat, nat)) {
    a.0 < b.0 || (a.0 == b.0 && a.1 < b.1)
  }

  ghost predicate AscendingPairs(ps: seq<(nat, nat)>) {
    forall i, j :: 0 <= i < j < |ps| ==> PairBefore(ps[i], ps[j])
  }

  function InsertPair(ps: seq<(nat, nat)>, p: (nat, nat)): seq<(nat, nat)> {
    if ps == [] then [p]
    else if PairBefore(ps[|ps| - 1], p) then ps + [p]
    else if ps[|ps| - 1] == p then ps
    else InsertPair(ps[..|ps| - 1], p) + [ps[|ps| - 1]]
  }

  /** Decoding a field changes the edit so far. */
  function Take(e: Edit, f: Field): Edit {
    match f
    case ComparatorName(name) => e.(comparator := Some(name))
    case LogNumber(n) => e.(logNumber := Some(n))
    case PrevLogNumber(n) => e.(prevLogNumber := Some(n))
    case NextFileNumber(n) => e.(nextFileNumber := Some(n))
    case LastSequence(n) => e.(lastSequence := Some(n))
    case CompactPointer(level, key) => e.(compactPointers := e.compactPointers + [(level, key)])
    case DeletedFile(level, n) => e.(deleted := InsertPair(e.deleted, (level, n)))
    case NewFile(level, f) => e.(added := e.added + [(level, f)])
  }

  function TakeAll(e: Edit, fs: seq<Field>): Edit {
    if fs == [] then e else Take(TakeAll(e, fs[..|fs| - 1]), fs[|fs| - 1])
  }

  /** DecodeFrom: the fields one after the other; anything left over is an error. */
  function DecodeFields(input: Bytes, e: Edit): Option<Edit>
    decreases |input|
  {
    match ParseField(input)
    case None => if input == [] then Some(e) else None
    case Some((f, rest)) => DecodeFields(rest, Take(e, f))
  }

  method DecodeFrom(src: Bytes) returns (r: Option<Edit>)
    ensures r == DecodeFields(src, CLEARED)
  {
    hide ParseField, Take;
    var edit, input := CLEARED, src;
    while true
      invariant DecodeFields(src, CLEARED) == DecodeFields(input, edit)
      decreases |input|
    {
      var field := ParseField(input);
      if field.None? { break; }
      edit, input := Take(edit, field.value.0), field.value.1;
    }
    r := if input == [] then Some(edit) else None;
  }

  function FieldsBytes(fs: seq<Field>): Bytes {
    if fs == [] then [] else FieldsBytes(fs[..|fs| - 1]) + FieldBytes(fs[|fs| - 1])
  }

  lemma {:induction false} FieldsAppend(a: seq<Field>, b: seq<Field>)
    ensures FieldsBytes(a + b) == FieldsBytes(a) + FieldsBytes(b)
  {
    hide FieldBytes;
    if b == [] {
      assert a + b == a;
    } else {
      var front, last := b[..|b| - 1], b[|b| - 1];
      FieldsAppend(a, front);
      var all := a + b;
      assert all[..|all| - 1] == a + front && all[|all| - 1] == last;
    }
  }

  lemma {:induction false} TakeAppend(e: Edit, a: seq<Field>, b: seq<Field>)
    ensures TakeAll(e, a + b) == TakeAll(TakeAll(e, a), b)
  {
    hide Take;
    if b == [] {
      assert a + b == a;
    } else {
      var front, last := b[..|b| - 1], b[|b| - 1];
      TakeAppend(e, a, front);
      var all := a + b;
      assert all[..|all| - 1] == a + front && all[|all| - 1] == last;
    }
  }

  lemma OneField(f: Field, e: Edit)
    ensures FieldsBytes([f]) == FieldBytes(f)
    ensures TakeAll(e, [f]) == Take(e, f)
  {
    hide FieldBytes, Take;
    assert [f][..0] == [];
  }

  /** Fields decode to what they do to the edit, one after the other. */
  lemma {:induction false} FieldsDecode(fs: seq<Field>, e: Edit)
    requires forall f :: f in fs ==> EncodableField(f)
    ensures DecodeFields(FieldsBytes(fs), e) == Some(TakeAll(e, fs))
    decreases |fs|
  {
    if fs == [] {
      assert GetVarint32([]) == None;
    } else {
      var first, rest := fs[0], fs[1..];
      assert fs == [first] + rest && first in fs;
      FieldsAppend([first], rest);
      TakeAppend(e, [first], rest);
      OneField(first, e);
      FieldParses(first, FieldsBytes(rest));
      hide FieldBytes, Take, ParseField, FieldsBytes, EncodableField;
      FieldsDecode(rest, Take(e, first));
    }
  }

  function OptionalField(n: Option<nat>, tag: nat): seq<Field> {
    if n.Some? then [NumberField(tag, n.value)] else []
  }

  function PointerFields(ps: seq<(nat, Bytes)>): (r: seq<Field>)
    ensures |r| == |ps|
  {
    seq(|ps|, i requires 0 <= i < |ps| => CompactPointer(ps[i].0, ps[i].1))
  }

  function DeletedFields(ps: seq<(nat, nat)>): (r: seq<Field>)
    ensures |r| == |ps|
  {
    seq(|ps|, i requires 0 <= i < |ps| => DeletedFile(ps[i].0, ps[i].1))
  }

  function AddedFields(ps: seq<(nat, FileMeta)>): (r: seq<Field>)
    ensures |r| == |ps|
  {
    seq(|ps|, i requires 0 <= i < |ps| => NewFile(ps[i].0, ps[i].1))
  }

  function ScalarFields(e: Edit): seq<Field> {
    (if e.comparator.Some? then [ComparatorName(e.comparator.value)] else []) + OptionalField(e.logNumber, 2) +
    OptionalField(e.prevLogNumber, 9) + OptionalField(e.nextFileNumber, 3) + OptionalField(e.lastSequence, 4)
  }

  /** The fields of an edit in the order they are written. */
  function Fields(e: Edit): seq<Field> {
    ScalarFields(e) + (PointerFields(e.compactPointers) + (DeletedFields(e.deleted) + AddedFields(e.added)))
  }

  ghost predicate Encodable(e: Edit) {
    (forall f :: f in Fields(e) ==> EncodableField(f)) && AscendingPairs(e.deleted)
  }

  function Encode(e: Edit): Bytes {
    FieldsBytes(Fields(e))
  }

  lemma {:induction false} TakePointers(e: Edit, ps: seq<(nat, Bytes)>)
    requires e.compactPointers == []
    ensures TakeAll(e, PointerFields(ps)) == e.(compactPointers := ps)
  {
    if ps != [] {
      var front, last := ps[..|ps| - 1], ps[|ps| - 1];
      TakePointers(e, front);
      assert PointerFields(ps)[..|ps| - 1] == PointerFields(front);
      assert ps == front + [last] && last == (last.0, last.1);
    }
  }

  lemma {:induction false} TakeAdded(e: Edit, ps: seq<(nat, FileMeta)>)
    requires e.added == []
    ensures TakeAll(e, AddedFields(ps)) == e.(added := ps)
  {
    if ps != [] {
      var front, last := ps[..|ps| - 1], ps[|ps| - 1];
      TakeAdded(e, front);
      assert AddedFields(ps)[..|ps| - 1] == AddedFields(front);
      assert ps == front + [last] && last == (last.0, last.1);
    }
  }

  lemma {:induction false} TakeDeleted(e: Edit, ps: seq<(nat, nat)>)
    requires AscendingPairs(ps) && e.deleted == []
    ensures TakeAll(e, DeletedFields(ps)) == e.(deleted := ps)
  {
    if ps != [] {
      var front, last := ps[..|ps| - 1], ps[|ps| - 1];
      TakeDeleted(e, front);
      assert DeletedFields(ps)[..|ps| - 1] == DeletedFields(front);
      assert ps == front + [last] && last == (last.0, last.1);
      assert |front| > 0 ==> PairBefore(front[|front| - 1], last);
    }
  }

  function TakeNumber(e: Edit, n: Option<nat>, tag: nat): Edit {
    if n.Some? then Take(e, NumberField(tag, n.value)) else e
  }

  lemma TakeOptional(e: Edit, fs: seq<Field>, n: Option<nat>, tag: nat)
    ensures TakeAll(e, fs + OptionalField(n, tag)) == TakeNumber(TakeAll(e, fs), n, tag)
  {
    TakeAppend(e, fs, OptionalField(n, tag));
    if n.Some? { OneField(NumberField(tag, n.value), TakeAll(e, fs)); }
  }

  lemma TakeScalars(e: Edit)
    ensures TakeAll(CLEARED, ScalarFields(e)) == e.(compactPointers := [], deleted := [], added := [])
  {
    var f0 := if e.comparator.Some? then [ComparatorName(e.comparator.value)] else [];
    if e.comparator.Some? { OneField(ComparatorName(e.comparator.value), CLEARED); }
    assert TakeAll(CLEARED, f0) == CLEARED.(comparator := e.comparator);
    hide TakeAll;
    TakeOptional(CLEARED, f0, e.logNumber, 2);
    TakeOptional(CLEARED, f0 + OptionalField(e.logNumber, 2), e.prevLogNumber, 9);
    var f2 := f0 + OptionalField(e.logNumber, 2) + OptionalField(e.prevLogNumber, 9);
    TakeOptional(CLEARED, f2, e.nextFileNumber, 3);
    TakeOptional(CLEARED, f2 + OptionalField(e.nextFileNumber, 3), e.lastSequence, 4);
  }

  /** MAIN: an encoded edit decodes to itself. */
  lemma EditRoundTrip(e: Edit)
    requires Encodable(e)
    ensures DecodeFields(Encode(e), CLEARED) == Some(e)
  {
    hide TakeAll, ScalarFields, PointerFields, DeletedFields, AddedFields, DecodeFields, FieldsBytes;
    var scalars, pointers, deleted, added := ScalarFields(e), PointerFields(e.compactPointers), DeletedFields(e.deleted), AddedFields(e.added);
    FieldsDecode(Fields(e), CLEARED);
    TakeScalars(e);
    var e0 := TakeAll(CLEARED, scalars);
    TakeAppend(CLEARED, scalars, pointers + (deleted + added));
    TakeAppend(e0, pointers, deleted + added);
    TakePointers(e0, e.compactPointers);
    var e1 := TakeAll(e0, pointers);
    TakeAppend(e1, deleted, added);
    TakeDeleted(e1, e.deleted);
    TakeAdded(TakeAll(e1, deleted), e.added);
  }

  lemma FieldsNext(fs: seq<Field>, f: Field)
    ensures FieldsBytes(fs + [f]) == FieldsBytes(fs) + FieldBytes(f)
  {
    assert (fs + [f])[..|fs|] == fs;
  }

  method PutOptional(dst: Bytes, tag: nat, n: Option<nat>, ghost done: seq<Field>) returns (r: Bytes)
    requires dst == FieldsBytes(done) && (tag == 2 || tag == 9 || tag == 3 || tag == 4)
    ensures r == FieldsBytes(done + OptionalField(n, tag))
  {
    if n.Some? {
      FieldsNext(done, NumberField(tag, n.value));
      r := dst + (Varint(tag) + Varint(n.value));
    } else {
      assert done + [] == done;
      r := dst;
    }
  }

  /** VersionEdit::EncodeTo. */
  method EncodeTo(e: Edit) returns (dst: Bytes)
    ensures dst == Encode(e)
  {
    hide FieldsBytes, FieldBytes, OptionalField;
    dst := EncodeScalars(e);
    ghost var done := ScalarFields(e);
    for i := 0 to |e.compactPointers|
      invariant done == ScalarFields(e) + PointerFields(e.compactPointers[..i]) && dst == FieldsBytes(done)
    {
      FieldsNext(done, CompactPointer(e.compactPointers[i].0, e.compactPointers[i].1));
      dst := dst + FieldBytes(CompactPointer(e.compactPointers[i].0, e.compactPointers[i].1));
      done := done + [CompactPointer(e.compactPointers[i].0, e.compactPointers[i].1)];
    }
    assert e.compactPointers[..|e.compactPointers|] == e.compactPointers;
    ghost var before := done;
    for i := 0 to |e.deleted|
      invariant done == before + DeletedFields(e.deleted[..i]) && dst == FieldsBytes(done)
    {
      FieldsNext(done, DeletedFile(e.deleted[i].0, e.deleted[i].1));
      dst := dst + FieldBytes(DeletedFile(e.deleted[i].0, e.deleted[i].1));
      done := done + [DeletedFile(e.deleted[i].0, e.deleted[i].1)];
    }
    assert e.deleted[..|e.deleted|] == e.deleted;
    ghost var before' := done;
    for i := 0 to |e.added|
      invariant done == before' + AddedFields(e.added[..i]) && dst == FieldsBytes(done)
    {
      FieldsNext(done, NewFile(e.added[i].0, e.added[i].1));
      dst := dst + FieldBytes(NewFile(e.added[i].0, e.added[i].1));
      done := done + [NewFile(e.added[i].0, e.added[i].1)];
    }
    assert e.added[..|e.added|] == e.added;
    assert done == Fields(e);
  }

  method EncodeScalars(e: Edit) returns (dst: Bytes)
    ensures dst == FieldsBytes(ScalarFields(e))
  {
    dst := [];
    if e.comparator.Some? {
      OneField(ComparatorName(e.comparator.value), CLEARED);
      dst := Varint(1) + PutLengthPrefixed(e.comparator.value);
    }
    ghost var f0 := if e.comparator.Some? then [ComparatorName(e.comparator.value)] else [];
    assert dst == FieldsBytes(f0);
    hide FieldsBytes, OptionalField;
    dst := PutOptional(dst, 2, e.logNumber, f0);
    dst := PutOptional(dst, 9, e.prevLogNumber, f0 + OptionalField(e.logNumber, 2));
    ghost var f2 := f0 + OptionalField(e.logNumber, 2) + OptionalField(e.prevLogNumber, 9);
    dst := PutOptional(dst, 3, e.nextFileNumber, f2);
    dst := PutOptional(dst, 4, e.lastSequence, f2 + OptionalField(e.nextFileNumber, 3));
  }

  // The table a stored file description names; the model leaves open how it is found.
  type Resolver = FileMeta -> Versions.File

  /** The edit as the builder of versions takes it. */
  function Resolved(e: Edit, resolve: Resolver): VersionBuilder.VersionEdit {
    VersionBuilder.VersionEdit(e.deleted, seq(|e.added|, i requires 0 <= i < |e.added| => (e.added[i].0, resolve(e.added[i].1))))
  }

  function ResolvedAll(edits: seq<Edit>, resolve: Resolver): (r: seq<VersionBuilder.VersionEdit>)
    ensures |r| == |edits| && forall i :: 0 <= i < |r| ==> r[i] == Resolved(edits[i], resolve)
  {
    seq(|edits|, i requires 0 <= i < |edits| => Resolved(edits[i], resolve))
  }

  function Encodings(edits: seq<Edit>): (r: seq<Bytes>)
    ensures |r| == |edits| && forall i :: 0 <= i < |r| ==> r[i] == Encode(edits[i])
  {
    seq(|edits|, i requires 0 <= i < |edits| => Encode(edits[i]))
  }

  ghost predicate LevelsOk(e: VersionBuilder.VersionEdit) {
    (forall p :: p in e.deleted ==> p.0 < DbFormat.NUM_LEVELS) && (forall p :: p in e.added ==> p.0 < DbFormat.NUM_LEVELS)
  }

  /** The numbers of a level's files, those it started with and those added since. */
  ghost function NumbersAfter(base: seq<Versions.File>, edits: seq<VersionBuilder.VersionEdit>, level: nat): set<nat> {
    if edits == [] then VersionBuilder.Numbers(base)
    else NumbersAfter(base, edits[..|edits| - 1], level) +
         set p | p in edits[|edits| - 1].added && p.0 == level :: p.1.number
  }

  /** Edits a store writes: decodable, and with new file numbers per level. */
  ghost predicate GoodEdits(base: seq<seq<Versions.File>>, edits: seq<Edit>, resolve: Resolver, comparator: Bytes) {
    && |base| == DbFormat.NUM_LEVELS
    && (forall i :: 0 <= i < |edits| ==> Encodable(edits[i]) && LevelsOk(Resolved(edits[i], resolve)))
    && (forall i :: 0 <= i < |edits| ==> edits[i].comparator.None? || edits[i].comparator.value == comparator)
    && (forall i, l :: 0 <= i < |edits| && 0 <= l < DbFormat.NUM_LEVELS ==>
          VersionBuilder.Fresh(NumbersAfter(base[l], ResolvedAll(edits[..i], resolve), l), Resolved(edits[i], resolve).added, l))
  }

  // What recovery takes over from the manifest.
  datatype Recovered = Recovered(levels: seq<seq<Versions.File>>, nextFile: nat, lastSequence: nat, logNumber: nat, prevLogNumber: nat)

  // The scalar settings so far; each edit overrides those it sets.
  datatype Settings = Settings(logNumber: Option<nat>, prevLogNumber: Option<nat>, nextFile: Option<nat>, lastSequence: Option<nat>)

  function Over(a: Option<nat>, b: Option<nat>): Option<nat> { if b.Some? then b else a }

  function Set(s: Settings, e: Edit): Settings {
    Settings(Over(s.logNumber, e.logNumber), Over(s.prevLogNumber, e.prevLogNumber), Over(s.nextFile, e.nextFileNumber), Over(s.lastSequence, e.lastSequence))
  }

  function SettingsOf(edits: seq<Edit>): Settings {
    if edits == [] then Settings(None, None, None, None) else Set(SettingsOf(edits[..|edits| - 1]), edits[|edits| - 1])
  }

  function Finish(s: Settings, levels: seq<seq<Versions.File>>): Option<Recovered> {
    if s.nextFile.None? || s.logNumber.None? || s.lastSequence.None? then None
    else Some(Recovered(levels, s.nextFile.value + 1, s.lastSequence.value, s.logNumber.value, if s.prevLogNumber.Some? then s.prevLogNumber.value else 0))
  }

  ghost predicate Replayed(levels: seq<seq<Versions.File>>, base: seq<seq<Versions.File>>, edits: seq<VersionBuilder.VersionEdit>) {
    && |levels| == |base| == DbFormat.NUM_LEVELS
    && (forall l :: 0 <= l < DbFormat.NUM_LEVELS ==> VersionBuilder.Ordered(levels[l]))
    && (forall l :: 0 <= l < DbFormat.NUM_LEVELS ==>
          VersionBuilder.Members(levels[l]) == VersionBuilder.Replay(VersionBuilder.Members(base[l]), edits, l))
  }

  lemma NextEdit(base: seq<seq<Versions.File>>, edits: seq<Edit>, resolve: Resolver, comparator: Bytes, i: nat)
    requires GoodEdits(base, edits, resolve, comparator) && i < |edits|
    ensures DecodeFields(Encode(edits[i]), CLEARED) == Some(edits[i]) && LevelsOk(Resolved(edits[i], resolve))
    ensures edits[i].comparator.None? || edits[i].comparator.value == comparator
    ensures ResolvedAll(edits[..i + 1], resolve) == ResolvedAll(edits[..i], resolve) + [Resolved(edits[i], resolve)]
    ensures SettingsOf(edits[..i + 1]) == Set(SettingsOf(edits[..i]), edits[i])
    ensures forall l :: 0 <= l < DbFormat.NUM_LEVELS ==>
      VersionBuilder.Fresh(NumbersAfter(base[l], ResolvedAll(edits[..i], resolve), l), Resolved(edits[i], resolve).added, l)
    ensures forall l :: 0 <= l < DbFormat.NUM_LEVELS ==>
      NumbersAfter(base[l], ResolvedAll(edits[..i + 1], resolve), l) == NumbersAfter(base[l], ResolvedAll(edits[..i], resolve), l) +
        (set p | p in Resolved(edits[i], resolve).added && p.0 == l :: p.1.number)
  {
    hide DecodeFields, Encode, Encodable, Resolved;
    EditRoundTrip(edits[i]);
    assert edits[..i + 1][..i] == edits[..i];
    var all := ResolvedAll(edits[..i + 1], resolve);
    assert all[..i] == ResolvedAll(edits[..i], resolve) && all[i] == Resolved(edits[i], resolve);
  }

  lemma NoEdits(base: seq<seq<Versions.File>>, edits: seq<Edit>, resolve: Resolver)
    requires |base| == DbFormat.NUM_LEVELS
    ensures ResolvedAll(edits[..0], resolve) == [] && SettingsOf(edits[..0]) == Settings(None, None, None, None)
    ensures forall l :: 0 <= l < DbFormat.NUM_LEVELS ==> NumbersAfter(base[l], [], l) == VersionBuilder.Numbers(base[l])
  {
  }

  /** VersionSet::Recover on the log of some edits, cut anywhere: the version is what replaying the
      edits that are whole, one by one, gives. */
  method Recover(crc: Checksum, file: Bytes, comparator: Bytes, base: seq<seq<Versions.File>>, resolve: Resolver, ghost edits: seq<Edit>)
    returns (r: Option<Recovered>)
    requires |base| == DbFormat.NUM_LEVELS && forall l :: 0 <= l < DbFormat.NUM_LEVELS ==> VersionBuilder.Ordered(base[l])
    requires GoodEdits(base, edits, resolve, comparator)
    requires file <= Log.Layout(crc, 0, Encodings(edits))
    ensures var whole := edits[..Log.WholeRecords(crc, 0, Encodings(edits), |file|)];
      exists levels :: r == Finish(SettingsOf(whole), levels) && Replayed(levels, base, ResolvedAll(whole, resolve))
  {
    hide GoodEdits, DecodeFields, Encode, LevelsOk, Set, SettingsOf, NumbersAfter, VersionBuilder.Fresh, VersionBuilder.Replay,
         Log.Layout, Log.WholeRecords, ResolvedAll, Resolved, VersionBuilder.Numbers, VersionBuilder.Members, VersionBuilder.Ordered;
    var records, _ := Log.ReadAll(crc, file, Encodings(edits));
    ghost var n := Log.WholeRecords(crc, 0, Encodings(edits), |file|);
    var builder := new VersionBuilder.Builder(base);
    var settings := Settings(None, None, None, None);
    NoEdits(base, edits, resolve);
    for i := 0 to |records|
      invariant builder.Valid() && builder.base == base && builder.edits == ResolvedAll(edits[..i], resolve)
      invariant settings == SettingsOf(edits[..i])
      invariant forall l :: 0 <= l < DbFormat.NUM_LEVELS ==> builder.Known(l) == NumbersAfter(base[l], ResolvedAll(edits[..i], resolve), l)
    {
      NextEdit(base, edits, resolve, comparator, i);
      var edit := DecodeFrom(records[i]);
      if edit.None? { return None; }
      if edit.value.comparator.Some? && edit.value.comparator.value != comparator { return None; }
      LevelsAre(Resolved(edit.value, resolve));
      builder.Apply(Resolved(edit.value, resolve));
      settings := Set(settings, edit.value);
    }
    var levels := builder.SaveTo();
    assert Replayed(levels, base, ResolvedAll(edits[..n], resolve));
    r := Finish(settings, levels);
  }

  lemma LevelsAre(e: VersionBuilder.VersionEdit)
    requires LevelsOk(e)
    ensures (forall p :: p in e.deleted ==> p.0 < DbFormat.NUM_LEVELS) && (forall p :: p in e.added ==> p.0 < DbFormat.NUM_LEVELS)
  {
  }
}
