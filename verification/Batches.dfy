/** Write batches (db/write_batch.cc): operations in one byte string, numbered when they are applied. */
module Batches {
  import opened Wrappers
  import opened Coding

  const HEADER := 12
  const MAX_COUNT: nat := 0x8000_0000

  datatype Operation = Put(key: Bytes, value: Bytes) | Delete(key: Bytes)

  predicate Encodable(op: Operation) {
    |op.key| < TWO_TO_THE_32 && (op.Put? ==> |op.value| < TWO_TO_THE_32)
  }

  function OperationBytes(op: Operation): (r: Bytes)
    ensures r != []
  {
    match op
    case Put(key, value) => [1] + PutLengthPrefixed(key) + PutLengthPrefixed(value)
    case Delete(key) => [0] + PutLengthPrefixed(key)
  }

  function Body(ops: seq<Operation>): Bytes {
    if ops == [] then [] else Body(ops[..|ops| - 1]) + OperationBytes(ops[|ops| - 1])
  }

  lemma {:induction false} BodyAppend(a: seq<Operation>, b: seq<Operation>)
    ensures Body(a + b) == Body(a) + Body(b)
  {
    hide OperationBytes;
    if b == [] {
      assert a + b == a;
    } else {
      var front, last := b[..|b| - 1], b[|b| - 1];
      BodyAppend(a, front);
      var all := a + b;
      assert all[..|all| - 1] == a + front && all[|all| - 1] == last;
      assert Body(all) == Body(a + front) + OperationBytes(last) && Body(b) == Body(front) + OperationBytes(last);
      hide Body;
      assert Body(a) + (Body(front) + OperationBytes(last)) == Body(a) + Body(front) + OperationBytes(last);
    }
  }

  /** One operation from the front of the input. */
  function ParseOperation(input: Bytes): (r: Option<(Operation, Bytes)>)
    requires input != []
    ensures r.Some? ==> |r.value.1| < |input|
  {
    if input[0] == 1 then
      match GetLengthPrefixed(input[1..])
      case None => None
      case Some((key, rest)) =>
        (match GetLengthPrefixed(rest)
         case None => None
         case Some((value, rest')) => Some((Put(key, value), rest')))
    else if input[0] == 0 then
      match GetLengthPrefixed(input[1..])
      case None => None
      case Some((key, rest)) => Some((Delete(key), rest))
    else None
  }

  lemma OperationParses(op: Operation, rest: Bytes)
    requires Encodable(op)
    ensures ParseOperation(OperationBytes(op) + rest) == Some((op, rest))
  {
    hide PutLengthPrefixed, GetLengthPrefixed;
    match op {
      case Put(key, value) =>
        var after := PutLengthPrefixed(value) + rest;
        LengthPrefixedRoundTrip(key, after);
        LengthPrefixedRoundTrip(value, rest);
        assert (OperationBytes(op) + rest)[1..] == PutLengthPrefixed(key) + after;
      case Delete(key) =>
        LengthPrefixedRoundTrip(key, rest);
        assert (OperationBytes(op) + rest)[1..] == PutLengthPrefixed(key) + rest;
    }
  }

  /** The operations up to the end, or up to the first that makes no sense. */
  function ParseBody(input: Bytes): (seq<Operation>, bool)
    decreases |input|
  {
    if input == [] then ([], true)
    else
      match ParseOperation(input)
      case None => ([], false)
      case Some((op, rest)) => var (ops, clean) := ParseBody(rest); ([op] + ops, clean)
  }

  /** MAIN: a body parses back to its operations. */
  lemma {:induction false} BodyParses(ops: seq<Operation>)
    requires forall op :: op in ops ==> Encodable(op)
    ensures ParseBody(Body(ops)) == (ops, true)
  {
    if ops != [] {
      var first, rest := ops[0], ops[1..];
      BodyAppend([first], rest);
      assert [first] + rest == ops && [first][..0] == [];
      assert Body([first]) == OperationBytes(first);
      OperationParses(first, Body(rest));
      BodyParses(rest);
      hide OperationBytes, ParseOperation, Body;
      assert OperationBytes(first) + Body(rest) != [];
    }
  }

  /** Operations numbered from `first`, as MemTableInserter adds them. */
  function Numbered(ops: seq<Operation>, first: nat): (r: seq<(nat, Operation)>)
    ensures |r| == |ops|
  {
    seq(|ops|, i requires 0 <= i < |ops| => (first + i, ops[i]))
  }

  class WriteBatch {
    var rep: Bytes
    ghost var ops: seq<Operation>

    ghost predicate Valid()
      reads this
    {
      && |ops| < MAX_COUNT
      && (forall op :: op in ops ==> Encodable(op))
      && |rep| >= HEADER && DecodeFixed32(rep[8..]) == |ops|
      && rep[HEADER..] == Body(ops)
    }

    constructor ()
      ensures Valid() && ops == []
    {
      rep, ops := Zeros(HEADER), [];
    }

    method Clear()
      modifies this
      ensures Valid() && ops == []
    {
      rep, ops := Zeros(HEADER), [];
    }

    method Count() returns (count: nat)
      requires |rep| >= HEADER
      ensures count == DecodeFixed32(rep[8..])
    {
      count := DecodeFixed32(rep[8..]);
    }

    method SetCount(n: nat)
      requires n < TWO_TO_THE_32 && |rep| >= HEADER
      modifies `rep
      ensures |rep| == |old(rep)| && DecodeFixed32(rep[8..]) == n && rep[HEADER..] == old(rep[HEADER..]) && rep[..8] == old(rep[..8])
    {
      hide EncodeFixed32, DecodeFixed32;
      ghost var was := rep;
      Fixed32RoundTrip(n, rep[HEADER..]);
      rep := rep[..8] + EncodeFixed32(n) + rep[HEADER..];
      assert rep[8..] == EncodeFixed32(n) + was[HEADER..];
    }

    method SetSequence(sequence: nat)
      requires sequence < TWO_TO_THE_64 && Valid()
      modifies `rep
      ensures Valid() && DecodeFixed64(rep) == sequence && |rep| == |old(rep)|
    {
      hide EncodeFixed64, DecodeFixed64, DecodeFixed32, Body;
      ghost var was := rep;
      Fixed64RoundTrip(sequence, rep[8..]);
      rep := EncodeFixed64(sequence) + rep[8..];
      assert rep[8..] == was[8..] && rep[HEADER..] == was[HEADER..];
    }

    method Put(key: Bytes, value: Bytes)
      requires Valid() && |ops| + 1 < MAX_COUNT && |key| < TWO_TO_THE_32 && |value| < TWO_TO_THE_32
      modifies this
      ensures Valid() && ops == old(ops) + [Operation.Put(key, value)]
    {
      Add(Operation.Put(key, value));
    }

    method Delete(key: Bytes)
      requires Valid() && |ops| + 1 < MAX_COUNT && |key| < TWO_TO_THE_32
      modifies this
      ensures Valid() && ops == old(ops) + [Operation.Delete(key)]
    {
      Add(Operation.Delete(key));
    }

    method Add(op: Operation)
      requires Valid() && |ops| + 1 < MAX_COUNT && Encodable(op)
      modifies this
      ensures Valid() && ops == old(ops) + [op]
    {
      hide Body, OperationBytes, DecodeFixed32;
      ghost var body := rep[HEADER..];
      BodyAppend(ops, [op]);
      OneBody(op);
      var count := Count();
      SetCount(count + 1);
      ghost var was := rep;
      rep := rep + OperationBytes(op);
      assert rep[HEADER..] == body + OperationBytes(op) && rep[8..] == was[8..] + OperationBytes(op);
      CountKept(was[8..], OperationBytes(op));
      ops := ops + [op];
    }

    /** WriteBatchInternal::Append: the source's operations go after this batch's own. */
    method Append(source: WriteBatch)
      requires Valid() && source.Valid() && source != this && |ops| + |source.ops| < MAX_COUNT
      modifies this
      ensures Valid() && ops == old(ops) + source.ops && |rep| == |old(rep)| + |source.rep| - HEADER
    {
      hide Body, DecodeFixed32;
      BodyAppend(ops, source.ops);
      ghost var body := rep[HEADER..];
      var count := Count();
      var more := source.Count();
      SetCount(count + more);
      ghost var was := rep;
      rep := rep + source.rep[HEADER..];
      assert rep[HEADER..] == body + source.rep[HEADER..] && rep[8..] == was[8..] + source.rep[HEADER..];
      CountKept(was[8..], source.rep[HEADER..]);
      ops := ops + source.ops;
    }

    /** WriteBatchInternal::InsertInto: the operations reach the memtable numbered from the batch's
        sequence; a malformed batch stops at its first bad record. */
    method InsertInto(mem: seq<(nat, Operation)>) returns (ok: bool, mem': seq<(nat, Operation)>)
      requires |rep| >= HEADER
      ensures var (parsed, clean) := ParseBody(rep[HEADER..]);
        && mem' == mem + Numbered(parsed, DecodeFixed64(rep))
        && (ok <==> clean && |parsed| == DecodeFixed32(rep[8..]))
      ensures Valid() ==> ok && mem' == mem + Numbered(ops, DecodeFixed64(rep))
    {
      if Valid() { BodyParses(ops); }
      hide DecodeFixed64, DecodeFixed32, ParseBody, Body;
      var clean, found;
      clean, found, mem' := Iterate(rep[HEADER..], mem, DecodeFixed64(rep));
      var count := Count();
      ok := clean && found == count;
    }
  }

  /** WriteBatch::Iterate over the records, handing each operation to the inserter. */
  method Iterate(body: Bytes, mem: seq<(nat, Operation)>, first: nat) returns (clean: bool, found: nat, mem': seq<(nat, Operation)>)
    ensures var (parsed, whole) := ParseBody(body);
      mem' == mem + Numbered(parsed, first) && clean == whole && found == |parsed|
  {
    hide ParseOperation, Applying;
    var input := body;
    ghost var done: seq<Operation> := [];
    found := 0;
    mem' := mem;
    ApplyStart(body, mem, first);
    while input != []
      invariant found == |done| && Applying(body, mem, first, done, input, mem')
      decreases |input|
    {
      var parsed := ParseOperation(input);
      ApplyNext(body, mem, first, done, input, mem');
      if parsed.None? {
        return false, found, mem';
      }
      mem' := mem' + [(first + found, parsed.value.0)];
      done := done + [parsed.value.0];
      input := parsed.value.1;
      found := found + 1;
    }
    ApplyEnd(body, mem, first, done, mem');
    clean := true;
  }

  /** Having applied `done`, the rest of the operations is what `input` still holds. */
  ghost predicate Applying(body: Bytes, mem: seq<(nat, Operation)>, first: nat, done: seq<Operation>, input: Bytes, mem': seq<(nat, Operation)>) {
    mem' == mem + Numbered(done, first) && ParseBody(body) == (done + ParseBody(input).0, ParseBody(input).1)
  }

  lemma ApplyStart(body: Bytes, mem: seq<(nat, Operation)>, first: nat)
    ensures Applying(body, mem, first, [], body, mem)
  {
    assert [] + ParseBody(body).0 == ParseBody(body).0 && mem + Numbered([], first) == mem;
  }

  lemma ApplyNext(body: Bytes, mem: seq<(nat, Operation)>, first: nat, done: seq<Operation>, input: Bytes, mem': seq<(nat, Operation)>)
    requires Applying(body, mem, first, done, input, mem') && input != []
    ensures match ParseOperation(input)
      case None => ParseBody(body) == (done, false) && mem' == mem + Numbered(done, first)
      case Some((op, rest)) => Applying(body, mem, first, done + [op], rest, mem' + [(first + |done|, op)])
  {
    hide ParseOperation;
    match ParseOperation(input) {
      case None =>
        assert done + [] == done;
      case Some((op, rest)) =>
        assert done + ([op] + ParseBody(rest).0) == done + [op] + ParseBody(rest).0;
        assert Numbered(done + [op], first) == Numbered(done, first) + [(first + |done|, op)];
    }
  }

  lemma ApplyEnd(body: Bytes, mem: seq<(nat, Operation)>, first: nat, done: seq<Operation>, mem': seq<(nat, Operation)>)
    requires Applying(body, mem, first, done, [], mem')
    ensures ParseBody(body) == (done, true) && mem' == mem + Numbered(done, first)
  {
    assert done + [] == done;
  }

  lemma OneBody(op: Operation)
    ensures Body([op]) == OperationBytes(op)
  {
    assert [op][..0] == [];
  }

  lemma CountKept(s: Bytes, more: Bytes)
    requires |s| >= 4
    ensures DecodeFixed32(s + more) == DecodeFixed32(s)
  {
  }
}
