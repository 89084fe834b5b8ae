/** The write-ahead log (db/log_writer.cc, db/log_reader.cc): records are cut into fragments that
    never cross a block; a reader of a log cut anywhere finds every record that was whole. */
module Log {
  import opened Wrappers
  import opened Coding

  const BLOCK_SIZE := 32768
  const HEADER_SIZE := 7

  const ZERO_TYPE: nat := 0
  const FULL_TYPE: nat := 1
  const FIRST_TYPE: nat := 2
  const MIDDLE_TYPE: nat := 3
  const LAST_TYPE: nat := 4
  const END_OF_FILE: nat := 5
  const BAD_RECORD: nat := 6

  function Leftover(p: nat): nat { BLOCK_SIZE - p % BLOCK_SIZE }

  /** The trailer of a block that cannot hold a header. */
  function Padding(p: nat): nat { if Leftover(p) < HEADER_SIZE then Leftover(p) else 0 }

  /** Payload bytes that fit in the block of the next physical record. */
  function Available(p: nat): nat {
    if Leftover(p) < HEADER_SIZE then BLOCK_SIZE - HEADER_SIZE else Leftover(p) - HEADER_SIZE
  }

  function FragmentType(begin: bool, end: bool): Byte {
    if begin && end then FULL_TYPE else if begin then FIRST_TYPE else if end then LAST_TYPE else MIDDLE_TYPE
  }

  function Header(crc: Checksum, t: Byte, payload: Bytes): (r: Bytes)
    requires |payload| <= 0xffff
    ensures |r| == HEADER_SIZE
  {
    EncodeFixed32(Mask(crc([t] + payload)) as nat) + [|payload| % 256, |payload| / 256, t]
  }

  function Physical(crc: Checksum, t: Byte, payload: Bytes): (r: Bytes)
    requires |payload| <= 0xffff
    ensures |r| == HEADER_SIZE + |payload|
  {
    Header(crc, t, payload) + payload
  }

  /** A physical record after the trailer before it. */
  function Chunk(crc: Checksum, p: nat, t: Byte, payload: Bytes): (r: Bytes)
    requires |payload| <= Available(p)
    ensures |r| == Padding(p) + HEADER_SIZE + |payload|
  {
    Zeros(Padding(p)) + Physical(crc, t, payload)
  }

  function Taken(p: nat, data: Bytes): nat {
    if |data| < Available(p) then |data| else Available(p)
  }

  function FirstChunk(crc: Checksum, p: nat, data: Bytes, begin: bool): (r: Bytes)
    ensures |r| == Padding(p) + HEADER_SIZE + Taken(p, data)
  {
    Chunk(crc, p, FragmentType(begin, Taken(p, data) == |data|), data[..Taken(p, data)])
  }

  /** The bytes of a record, or of the rest of one, written from position `p` on. */
  function Fragments(crc: Checksum, p: nat, data: Bytes, begin: bool): (r: Bytes)
    ensures r != []
    decreases |data|, if Available(p) == 0 then 1 else 0
  {
    var n := Taken(p, data);
    var chunk := FirstChunk(crc, p, data, begin);
    if n == |data| then chunk else chunk + Fragments(crc, p + |chunk|, data[n..], false)
  }

  /** The bytes of a run of records written from position `p` on. */
  function Layout(crc: Checksum, p: nat, records: seq<Bytes>): Bytes
    decreases |records|
  {
    if records == [] then []
    else
      var bytes := Fragments(crc, p, records[0], true);
      bytes + Layout(crc, p + |bytes|, records[1..])
  }

  lemma {:induction false} LayoutSplit(crc: Checksum, p: nat, a: seq<Bytes>, b: seq<Bytes>)
    ensures Layout(crc, p, a + b) == Layout(crc, p, a) + Layout(crc, p + |Layout(crc, p, a)|, b)
    decreases |a|
  {
    hide Fragments;
    if a == [] {
      assert a + b == b;
    } else {
      var bytes := Fragments(crc, p, a[0], true);
      LayoutSplit(crc, p + |bytes|, a[1..], b);
      assert (a + b)[1..] == a[1..] + b && (a + b)[0] == a[0];
    }
  }

  lemma FragmentsStep(crc: Checksum, p: nat, data: Bytes, begin: bool)
    ensures var chunk := FirstChunk(crc, p, data, begin);
      Fragments(crc, p, data, begin) ==
        if Taken(p, data) == |data| then chunk else chunk + Fragments(crc, p + |chunk|, data[Taken(p, data)..], false)
  {
    hide FirstChunk, Taken;
  }

  lemma Continue(crc: Checksum, dest: Bytes, left: Bytes, begin: bool)
    requires Taken(|dest|, left) < |left|
    ensures var chunk := FirstChunk(crc, |dest|, left, begin);
      dest + Fragments(crc, |dest|, left, begin) ==
        dest + chunk + Fragments(crc, |dest + chunk|, left[Taken(|dest|, left)..], false)
  {
    hide FirstChunk, Taken;
    FragmentsStep(crc, |dest|, left, begin);
  }

  class Writer {
    const crc: Checksum
    var dest: Bytes
    var blockOffset: nat

    ghost predicate Valid()
      reads this
    {
      blockOffset <= BLOCK_SIZE && blockOffset % BLOCK_SIZE == |dest| % BLOCK_SIZE
    }

    /** A new log, or one continued after the bytes it already has. */
    constructor (crc: Checksum, dest: Bytes)
      ensures Valid() && this.crc == crc && this.dest == dest
    {
      this.crc, this.dest := crc, dest;
      blockOffset := |dest| % BLOCK_SIZE;
    }

    method AddRecord(slice: Bytes)
      requires Valid()
      modifies this
      ensures Valid() && dest == old(dest) + Fragments(crc, |old(dest)|, slice, true)
    {
      hide Fragments, FirstChunk;
      var left := slice;
      var begin := true;
      while true
        invariant Valid() && dest + Fragments(crc, |dest|, left, begin) == old(dest) + Fragments(crc, |old(dest)|, slice, true)
        decreases |left|, if Available(|dest|) == 0 then 1 else 0
      {
        ghost var was := dest;
        var length := AddFragment(left, begin);
        FragmentsStep(crc, |was|, left, begin);
        if length == |left| { break; }
        Continue(crc, was, left, begin);
        left, begin := left[length..], false;
      }
    }

    method AddFragment(left: Bytes, begin: bool) returns (length: nat)
      requires Valid()
      modifies this
      ensures Valid() && dest == old(dest) + FirstChunk(crc, |old(dest)|, left, begin)
      ensures length == Taken(|old(dest)|, left)
    {
      SwitchBlock();
      var avail := BLOCK_SIZE - blockOffset - HEADER_SIZE;
      length := if |left| < avail then |left| else avail;
      var end := |left| == length;
      EmitPhysicalRecord(FragmentType(begin, end), left[..length]);
    }

    /** Fill the trailer of a block that has no room for a header. */
    method SwitchBlock()
      requires Valid()
      modifies this
      ensures Valid() && dest == old(dest) + Zeros(Padding(|old(dest)|))
      ensures BLOCK_SIZE - blockOffset - HEADER_SIZE == Available(|old(dest)|)
    {
      var leftover := BLOCK_SIZE - blockOffset;
      if leftover < HEADER_SIZE {
        if leftover > 0 {
          dest := dest + Zeros(leftover);
        }
        blockOffset := 0;
      }
    }

    method EmitPhysicalRecord(t: Byte, payload: Bytes)
      requires Valid() && blockOffset + HEADER_SIZE + |payload| <= BLOCK_SIZE
      modifies this
      ensures Valid() && dest == old(dest) + Physical(crc, t, payload)
    {
      hide Header;
      dest := dest + Header(crc, t, payload);
      dest := dest + payload;
      blockOffset := blockOffset + HEADER_SIZE + |payload|;
    }
  }

  // What the reader makes of the bytes in its buffer.
  datatype Parse = TooLong | Preallocated | Mismatch | Fragment(kind: Byte, length: nat)

  function LengthField(buffer: Bytes): nat
    requires |buffer| >= HEADER_SIZE
  {
    var a: int, b: int := buffer[4], buffer[5];
    a + 256 * b
  }

  function ParseHeader(crc: Checksum, buffer: Bytes): (r: Parse)
    requires |buffer| >= HEADER_SIZE
    ensures r.Fragment? ==> HEADER_SIZE + r.length <= |buffer|
  {
    var length := LengthField(buffer);
    if HEADER_SIZE + length > |buffer| then TooLong
    else if buffer[6] == ZERO_TYPE && length == 0 then Preallocated
    else if crc(buffer[6..7 + length]) != Unmask(DecodeFixed32(buffer) as bv32) then Mismatch
    else Fragment(buffer[6], length)
  }

  lemma HeaderFields(crc: Checksum, t: Byte, payload: Bytes, rest: Bytes)
    requires |payload| <= 0xffff
    ensures var r := Header(crc, t, payload) + rest; LengthField(r) == |payload| && r[6] == t
    ensures Unmask(DecodeFixed32(Header(crc, t, payload) + rest) as bv32) == crc([t] + payload)
  {
    hide EncodeFixed32, DecodeFixed32, Mask, Unmask;
    var sum, fields: Bytes := EncodeFixed32(Mask(crc([t] + payload)) as nat), [|payload| % 256, |payload| / 256, t];
    assert Header(crc, t, payload) + rest == sum + (fields + rest);
    StoredChecksum(crc([t] + payload), fields + rest);
    assert (sum + (fields + rest))[4..] == fields + rest;
  }

  /** A physical record that is whole in the buffer parses back. */
  lemma WholeParses(crc: Checksum, t: Byte, payload: Bytes, buffer: Bytes)
    requires t != ZERO_TYPE && |payload| <= 0xffff && Physical(crc, t, payload) <= buffer
    ensures ParseHeader(crc, buffer) == Fragment(t, |payload|) && buffer[HEADER_SIZE..HEADER_SIZE + |payload|] == payload
  {
    var rest := buffer[HEADER_SIZE..];
    assert buffer == Header(crc, t, payload) + rest && payload <= rest;
    HeaderFields(crc, t, payload, rest);
    hide Header, DecodeFixed32, Unmask;
    assert buffer[6..7 + |payload|] == [t] + payload;
  }

  /** One that is cut after its header is seen to be too long. */
  lemma CutParses(crc: Checksum, t: Byte, payload: Bytes, buffer: Bytes)
    requires |payload| <= 0xffff && HEADER_SIZE <= |buffer| && buffer < Physical(crc, t, payload)
    ensures ParseHeader(crc, buffer) == TooLong
  {
    var rest := buffer[HEADER_SIZE..];
    assert buffer == Header(crc, t, payload) + rest;
    HeaderFields(crc, t, payload, rest);
  }

  lemma ChunkSplits(crc: Checksum, p: nat, t: Byte, payload: Bytes, rest: Bytes)
    requires |payload| <= Available(p)
    ensures HEADER_SIZE + |payload| <= Leftover(p + Padding(p))
    ensures Whole(Chunk(crc, p, t, payload), rest) ==> Padding(p) <= |rest| && Whole(Physical(crc, t, payload), rest[Padding(p)..])
    ensures Cut(Chunk(crc, p, t, payload), rest) && Padding(p) <= |rest| ==> Cut(Physical(crc, t, payload), rest[Padding(p)..])
  {
  }

  lemma InBlock(p: nat, block: int)
    requires block * BLOCK_SIZE <= p < (block + 1) * BLOCK_SIZE
    ensures Leftover(p) == (block + 1) * BLOCK_SIZE - p
  {
  }

  // Bytes written at the start of what is left of a file: all there, or cut by its end.
  ghost predicate Whole(bytes: Bytes, rest: Bytes) { bytes <= rest }

  ghost predicate Cut(bytes: Bytes, rest: Bytes) { rest < bytes }

  ghost function After(bytes: Bytes, rest: Bytes): Bytes {
    if |bytes| <= |rest| then rest[|bytes|..] else []
  }

  class Reader {
    const crc: Checksum
    const file: Bytes
    var filePosition: nat       // how much of the file has been read
    var buffer: Bytes
    var eof: bool               // the last read came back short
    var endOfBufferOffset: nat
    var lastRecordOffset: nat
    var drops: seq<nat>         // sizes reported as corrupt
    ghost var block: int        // number of the block the buffer comes from

    /** The buffer is the unread part of one block, or of what the file has of it. */
    ghost predicate Valid()
      reads `block, `endOfBufferOffset, `filePosition, `buffer, `eof
    {
      && endOfBufferOffset == filePosition <= |file|
      && |buffer| <= filePosition && block * BLOCK_SIZE <= filePosition - |buffer|
      && buffer == file[filePosition - |buffer|..filePosition]
      && (if eof then filePosition == |file| < (block + 1) * BLOCK_SIZE else filePosition == (block + 1) * BLOCK_SIZE)
    }

    /** The bytes still to be consumed. */
    ghost function Rest(): Bytes
      reads `filePosition, `buffer
    {
      buffer + if filePosition <= |file| then file[filePosition..] else []
    }

    /** Where the next physical record starts, or the trailer before it. */
    ghost function Position(): nat
      reads `filePosition, `buffer
    {
      if |Rest()| <= |file| then |file| - |Rest()| else 0
    }

    constructor (crc: Checksum, file: Bytes)
      ensures Valid() && Rest() == file && drops == []
      ensures this.crc == crc && this.file == file
    {
      this.crc, this.file := crc, file;
      filePosition, buffer, eof, endOfBufferOffset, lastRecordOffset, drops := 0, [], false, 0, 0, [];
      block := -1;
    }

    /** The next block of the file, or what there is of it. */
    method Refill()
      requires Valid() && !eof && |buffer| < HEADER_SIZE
      modifies this
      ensures Valid() && drops == old(drops) && lastRecordOffset == old(lastRecordOffset)
      ensures Padding(old(Position())) <= |old(Rest())| && Rest() == old(Rest())[Padding(old(Position()))..]
      ensures filePosition > old(filePosition) || eof
    {
      TrailerLeft();
      hide Padding, Leftover;
      block := block + 1;
      var count := if |file| - filePosition < BLOCK_SIZE then |file| - filePosition else BLOCK_SIZE;
      buffer := file[filePosition..filePosition + count];
      filePosition := filePosition + count;
      endOfBufferOffset := endOfBufferOffset + |buffer|;
      if |buffer| < BLOCK_SIZE {
        eof := true;
      }
    }

    lemma TrailerLeft()
      requires Valid() && !eof && |buffer| < HEADER_SIZE
      ensures Padding(Position()) == |buffer| && Rest()[|buffer|..] == file[filePosition..]
    {
      InBlock(Position(), if buffer == [] then block + 1 else block);
    }

    /** Reads on until a header is buffered, past the trailer if there is one, or to the end. */
    method FillHeader() returns (ok: bool)
      requires Valid()
      modifies this
      ensures Valid() && lastRecordOffset == old(lastRecordOffset) && drops == old(drops)
      ensures ok ==> HEADER_SIZE <= |buffer| && Padding(old(Position())) <= |old(Rest())|
                     && Rest() == old(Rest())[Padding(old(Position()))..]
      ensures !ok ==> |old(Rest())| < Padding(old(Position())) + HEADER_SIZE
    {
      ghost var p, rest := Position(), Rest();
      while |buffer| < HEADER_SIZE
        invariant Valid() && lastRecordOffset == old(lastRecordOffset) && drops == old(drops)
        invariant Rest() == rest || (Padding(p) <= |rest| && Rest() == rest[Padding(p)..] && Padding(Position()) == 0)
        decreases !eof, |file| - filePosition
      {
        if eof {
          buffer := [];
          return false;
        }
        NoTwoTrailers(p);
        Refill();
      }
      FullHeader();
      return true;
    }

    lemma FullHeader()
      requires Valid() && HEADER_SIZE <= |buffer|
      ensures Padding(Position()) == 0
    {
      InBlock(Position(), block);
    }

    /** The next physical record. Whatever the file holds, the reader moves on or ends; over a
        written chunk it returns its fragment, over a cut one it ends without a report. */
    method ReadPhysicalRecord(ghost t: Byte, ghost payload: Bytes) returns (kind: nat, fragment: Bytes)
      requires Valid() && FULL_TYPE <= t <= LAST_TYPE && |payload| <= Available(Position())
      modifies this
      ensures Valid() && lastRecordOffset == old(lastRecordOffset)
      ensures kind != END_OF_FILE ==> |Rest()| + HEADER_SIZE + |fragment| <= |old(Rest())|
      ensures Whole(Chunk(crc, old(Position()), t, payload), old(Rest())) ==>
        && kind == t && fragment == payload && drops == old(drops)
        && Rest() == After(Chunk(crc, old(Position()), t, payload), old(Rest()))
      ensures Cut(Chunk(crc, old(Position()), t, payload), old(Rest())) ==> kind == END_OF_FILE && drops == old(drops)
    {
      ChunkSplits(crc, Position(), t, payload, Rest());
      ghost var p, rest := Position(), Rest();
      RestLength();
      hide Chunk, Physical, Padding, Leftover, Available, Valid;
      var ok := FillHeader();
      if !ok {
        return END_OF_FILE, [];
      }
      RestLength();
      assert Position() == p + Padding(p);
      kind, fragment := ParseRecord(t, payload);
    }

    lemma RestLength()
      requires Valid()
      ensures Position() == |file| - |Rest()| == filePosition - |buffer| == endOfBufferOffset - |buffer|
    {
    }

    method ParseRecord(ghost t: Byte, ghost payload: Bytes) returns (kind: nat, fragment: Bytes)
      requires Valid() && HEADER_SIZE <= |buffer| && FULL_TYPE <= t <= LAST_TYPE
      requires HEADER_SIZE + |payload| <= Leftover(Position())
      modifies this
      ensures Valid() && lastRecordOffset == old(lastRecordOffset)
      ensures kind != END_OF_FILE ==> |Rest()| + HEADER_SIZE + |fragment| <= |old(Rest())|
      ensures Whole(Physical(crc, t, payload), old(Rest())) ==>
        kind == t && fragment == payload && drops == old(drops) && Rest() == After(Physical(crc, t, payload), old(Rest()))
      ensures Cut(Physical(crc, t, payload), old(Rest())) ==> kind == END_OF_FILE && drops == old(drops)
    {
      hide Physical, Leftover, Whole, Cut, After;
      Parses(t, payload);
      var dropSize := |buffer|;
      match ParseHeader(crc, buffer) {
        case TooLong =>
          buffer := [];
          if !eof {
            drops := drops + [dropSize];
            return BAD_RECORD, [];
          }
          return END_OF_FILE, [];
        case Preallocated =>
          buffer := [];
          return BAD_RECORD, [];
        case Mismatch =>
          buffer := [];
          drops := drops + [dropSize];
          return BAD_RECORD, [];
        case Fragment(t', length) =>
          kind, fragment := t', buffer[HEADER_SIZE..HEADER_SIZE + length];
          buffer := buffer[HEADER_SIZE + length..];
      }
    }

    /** What is parsed where a physical record was written, whole or cut by the end of the file. */
    lemma Parses(t: Byte, payload: Bytes)
      requires Valid() && HEADER_SIZE <= |buffer| && FULL_TYPE <= t && HEADER_SIZE + |payload| <= Leftover(Position())
      ensures Whole(Physical(crc, t, payload), Rest()) ==>
        ParseHeader(crc, buffer) == Fragment(t, |payload|) && buffer[HEADER_SIZE..HEADER_SIZE + |payload|] == payload &&
        After(Physical(crc, t, payload), Rest()) == buffer[HEADER_SIZE + |payload|..] + file[filePosition..]
      ensures Cut(Physical(crc, t, payload), Rest()) ==> ParseHeader(crc, buffer) == TooLong && eof
    {
      var r := Physical(crc, t, payload);
      BufferHolds(r);
      hide Physical, ParseHeader, Leftover;
      if r <= Rest() { WholeParses(crc, t, payload, buffer); }
      if Rest() < r { CutParses(crc, t, payload, buffer); }
    }

    lemma BufferHolds(r: Bytes)
      requires Valid() && buffer != [] && |r| <= Leftover(Position())
      ensures r <= Rest() ==> r <= buffer
      ensures Rest() < r ==> buffer == Rest() && eof
    {
    }

    /** What ReadRecord does with one physical record: `done` ends the call. */
    method Accept(kind: nat, fragment: Bytes, partial: Partial) returns (done: bool, record: Option<Bytes>, partial': Partial)
      requires Valid()
      requires kind != END_OF_FILE ==> HEADER_SIZE + |fragment| <= Position()
      modifies `drops, `lastRecordOffset
      ensures record.Some? ==> done
      ensures record.Some? ==> kind != END_OF_FILE
      ensures !done ==> kind != END_OF_FILE
      ensures kind == END_OF_FILE ==> drops == old(drops)
      ensures FULL_TYPE <= kind <= LAST_TYPE && partial.inside == (kind == MIDDLE_TYPE || kind == LAST_TYPE) ==>
        && drops == old(drops)
        && done == record.Some? == (kind == FULL_TYPE || kind == LAST_TYPE)
        && TakesIn(partial, fragment, Position() - HEADER_SIZE - |fragment|, record, partial', lastRecordOffset)
    {
      RestLength();
      hide Valid, Rest;
      done, record, partial' := false, None, partial;
      var inside, scratch := partial.inside, partial.scratch;
      if kind == FULL_TYPE {
        if inside && scratch != [] { drops := drops + [|scratch|]; }
        lastRecordOffset := endOfBufferOffset - |buffer| - HEADER_SIZE - |fragment|;
        done, record := true, Some(fragment);
      } else if kind == FIRST_TYPE {
        if inside && scratch != [] { drops := drops + [|scratch|]; }
        partial' := Partial(true, fragment, endOfBufferOffset - |buffer| - HEADER_SIZE - |fragment|);
      } else if kind == MIDDLE_TYPE {
        if !inside {
          drops := drops + [|fragment|];
        } else {
          partial' := Partial(true, scratch + fragment, partial.offset);
        }
      } else if kind == LAST_TYPE {
        if !inside {
          drops := drops + [|fragment|];
        } else {
          lastRecordOffset := partial.offset;
          done, record := true, Some(scratch + fragment);
        }
      } else if kind == END_OF_FILE {
        done := true;
      } else if kind == BAD_RECORD {
        if inside {
          drops := drops + [|scratch|];
          partial' := Partial(false, [], partial.offset);
        }
      } else {
        drops := drops + [|fragment| + if inside then |scratch| else 0];
        partial' := Partial(false, [], partial.offset);
      }
    }

    /** One round of ReadRecord: over a chunk of the record it expects, it takes the fragment in. */
    method ReadFragment(ghost begin: bool, ghost end: bool, ghost payload: Bytes, ghost chunk: Bytes, partial: Partial)
      returns (done: bool, record: Option<Bytes>, partial': Partial)
      requires Valid() && |payload| <= Available(Position())
      requires chunk == Chunk(crc, Position(), FragmentType(begin, end), payload)
      modifies this
      ensures Valid() && (!done || record.Some? ==> |Rest()| < |old(Rest())|)
      ensures Whole(chunk, old(Rest())) ==> Position() == old(Position()) + |chunk|
      ensures FragmentRead(chunk, old(Rest()), begin, end, payload, partial, old(Position()) + Padding(old(Position())),
                           done, record, partial', Rest(), lastRecordOffset)
      ensures (Whole(chunk, old(Rest())) && partial.inside == !begin) || Cut(chunk, old(Rest())) ==> drops == old(drops)
    {
      RestLength();
      assert |chunk| == Padding(Position()) + HEADER_SIZE + |payload|;
      hide Chunk, Physical, Padding, Leftover, Available, Valid, Rest, Position;
      var kind, fragment := ReadPhysicalRecord(FragmentType(begin, end), payload);
      RestLength();
      done, record, partial' := Accept(kind, fragment, partial);
    }

    /** The next record put together from its fragments. A record written here is returned whole if
        the file has all of it, and passed over without a report if the file ends inside it. */
    method ReadRecord(ghost expected: Bytes) returns (record: Option<Bytes>)
      requires Valid()
      modifies this
      ensures Valid()
      ensures Whole(Fragments(crc, old(Position()), expected, true), old(Rest())) ==>
        && record == Some(expected) && drops == old(drops)
        && Rest() == After(Fragments(crc, old(Position()), expected, true), old(Rest()))
        && lastRecordOffset == old(Position()) + Padding(old(Position()))
      ensures Cut(Fragments(crc, old(Position()), expected, true), old(Rest())) ==> record == None && drops == old(drops)
      ensures record.Some? ==> |Rest()| < |old(Rest())|
    {
      hide Fragments, Going, FragmentRead, Valid, Rest, Position, Padding, Available, Chunk, Taken, FragmentType, Whole, Cut, After, Written;
      ghost var rest0, all, offset0 := Rest(), Fragments(crc, Position(), expected, true), Position() + Padding(Position());
      ghost var current, left, begin := all, expected, true;
      var partial, done := Partial(false, [], 0), false;
      record := None;
      Start(all, rest0, expected, partial, offset0, lastRecordOffset);
      while !done
        invariant Valid() && (!done ==> |Rest()| <= |rest0|) && (record.Some? ==> |Rest()| < |rest0|)
        invariant begin ==> Position() + Padding(Position()) == offset0
        invariant !done && Written(all, rest0) ==> current == Fragments(crc, Position(), left, begin)
        invariant Written(all, rest0) ==> drops == old(drops)
        invariant Going(all, rest0, current, Rest(), expected, left, begin, partial, offset0, done, record, lastRecordOffset)
        decreases !done, |Rest()|
      {
        ghost var p, n, rest, was, was' := Position(), Taken(Position(), left), Rest(), (partial, record), lastRecordOffset;
        ghost var chunk, following := FragmentsSplit(crc, p, left, begin);
        done, record, partial := ReadFragment(begin, n == |left|, left[..n], chunk, partial);
        Round(all, rest0, current, chunk, following, rest, expected, left, begin, was.0, offset0, was.1, was', n,
              p + Padding(p), done, record, partial, Rest(), lastRecordOffset);
        current, left, begin := following, left[n..], false;
      }
      Finish(all, rest0, current, Rest(), expected, left, begin, partial, offset0, record, lastRecordOffset);
    }
  }

  ghost predicate FragmentRead(chunk: Bytes, rest: Bytes, begin: bool, end: bool, payload: Bytes, partial: Partial, position: nat,
                               done: bool, record: Option<Bytes>, partial': Partial, rest': Bytes, recordOffset: nat)
  {
    && (Whole(chunk, rest) ==> rest' == After(chunk, rest))
    && (Whole(chunk, rest) && partial.inside == !begin ==>
          done == record.Some? == end && TakesIn(partial, payload, position, record, partial', recordOffset))
    && (Cut(chunk, rest) ==> done && record == None)
  }

  /** A fragment taken in: it starts a record or goes on with one, and the last completes it. */
  ghost predicate TakesIn(partial: Partial, fragment: Bytes, position: nat, record: Option<Bytes>, partial': Partial, recordOffset: nat) {
    var bytes := if partial.inside then partial.scratch + fragment else fragment;
    var offset := if partial.inside then partial.offset else position;
    if record.Some? then record.value == bytes && recordOffset == offset else partial' == Partial(true, bytes, offset)
  }

  ghost predicate Written(all: Bytes, rest0: Bytes) {
    Whole(all, rest0) || Cut(all, rest0)
  }

  lemma TakenFits(p: nat, left: Bytes)
    ensures Taken(p, left) <= |left| && Taken(p, left) <= Available(p)
  {
  }

  /** A record is its first chunk and what follows it. */
  lemma FragmentsSplit(crc: Checksum, p: nat, left: Bytes, begin: bool) returns (chunk: Bytes, following: Bytes)
    ensures Taken(p, left) <= |left| && Taken(p, left) <= Available(p)
    ensures chunk == Chunk(crc, p, FragmentType(begin, Taken(p, left) == |left|), left[..Taken(p, left)])
    ensures |chunk| == Padding(p) + HEADER_SIZE + Taken(p, left)
    ensures Fragments(crc, p, left, begin) == chunk + following
    ensures Taken(p, left) == |left| ==> following == []
    ensures Taken(p, left) < |left| ==> following != [] && following == Fragments(crc, p + |chunk|, left[Taken(p, left)..], false)
  {
    hide Fragments, Chunk, Taken, Padding, Available;
    var n := Taken(p, left);
    TakenFits(p, left);
    chunk := FirstChunk(crc, p, left, begin);
    FragmentsStep(crc, p, left, begin);
    following := if n == |left| then [] else Fragments(crc, p + |chunk|, left[n..], false);
    assert Fragments(crc, p + |chunk|, left[n..], false) != [];
  }

  /** Reading `expected`, written as `all`, from the first of `rest0`, the reader has come to `rest`
      of the file; `current` is written of the record from there, `left` is its part of `expected`. */
  ghost predicate Midway(all: Bytes, rest0: Bytes, current: Bytes, rest: Bytes, expected: Bytes,
                         left: Bytes, begin: bool, partial: Partial, offset0: nat)
  {
    && Follows(all, rest0, current, rest)
    && Assembles(partial, expected, left, begin)
    && (begin ==> rest == rest0)
    && (!begin ==> partial.offset == offset0)
  }

  /** Between two rounds of ReadRecord, or after the last. */
  ghost predicate Going(all: Bytes, rest0: Bytes, current: Bytes, rest: Bytes, expected: Bytes, left: Bytes, begin: bool,
                        partial: Partial, offset0: nat, done: bool, record: Option<Bytes>, recordOffset: nat)
  {
    Written(all, rest0) ==>
      && (!done ==> Midway(all, rest0, current, rest, expected, left, begin, partial, offset0))
      && (done && Whole(all, rest0) ==> record == Some(expected) && rest == After(all, rest0) && recordOffset == offset0)
      && (done && Cut(all, rest0) ==> record == None)
  }

  lemma Start(all: Bytes, rest0: Bytes, expected: Bytes, partial: Partial, offset0: nat, recordOffset: nat)
    requires !partial.inside
    ensures Going(all, rest0, all, rest0, expected, expected, true, partial, offset0, false, None, recordOffset)
  {
  }

  lemma Finish(all: Bytes, rest0: Bytes, current: Bytes, rest: Bytes, expected: Bytes, left: Bytes, begin: bool,
               partial: Partial, offset0: nat, record: Option<Bytes>, recordOffset: nat)
    requires Going(all, rest0, current, rest, expected, left, begin, partial, offset0, true, record, recordOffset)
    ensures Whole(all, rest0) ==> record == Some(expected) && rest == After(all, rest0) && recordOffset == offset0
    ensures Cut(all, rest0) ==> record == None
    ensures Whole(all, rest0) || Cut(all, rest0) ==> Written(all, rest0)
  {
  }

  lemma Round(all: Bytes, rest0: Bytes, current: Bytes, chunk: Bytes, following: Bytes, rest: Bytes, expected: Bytes,
              left: Bytes, begin: bool, partial: Partial, offset0: nat, record0: Option<Bytes>, recordOffset0: nat,
              n: nat, position: nat, done: bool, record: Option<Bytes>, partial': Partial, rest': Bytes, recordOffset: nat)
    requires n <= |left| && (following == [] <==> n == |left|) && (begin ==> position == offset0)
    requires Written(all, rest0) ==> current == chunk + following
    requires Going(all, rest0, current, rest, expected, left, begin, partial, offset0, false, record0, recordOffset0)
    requires FragmentRead(chunk, rest, begin, n == |left|, left[..n], partial, position, done, record, partial', rest', recordOffset)
    ensures Going(all, rest0, following, rest', expected, left[n..], false, partial', offset0, done, record, recordOffset)
    ensures Written(all, rest0) ==> (Whole(chunk, rest) && partial.inside == !begin) || Cut(chunk, rest)
    ensures Written(all, rest0) && !done ==> Whole(chunk, rest) && n < |left|
  {
    if Written(all, rest0) {
      Split(all, rest0, chunk, following, rest);
      Assembled(partial, expected, left, begin, n, offset0);
    }
  }

  // The fragments of a record so far: whether inside one, its bytes and its offset in the file.
  datatype Partial = Partial(inside: bool, scratch: Bytes, offset: nat)

  ghost predicate Assembles(partial: Partial, expected: Bytes, left: Bytes, begin: bool) {
    && partial.inside == !begin
    && (begin ==> left == expected)
    && (!begin ==> partial.scratch + left == expected)
  }

  lemma Assembled(partial: Partial, expected: Bytes, left: Bytes, begin: bool, n: nat, offset: nat)
    requires n <= |left|
    ensures Assembles(partial, expected, left, begin) ==>
      var bytes := if begin then left[..n] else partial.scratch + left[..n];
      if n == |left| then bytes == expected else Assembles(Partial(true, bytes, offset), expected, left[n..], false)
  {
    if Assembles(partial, expected, left, begin) {
      assert left[..n] + left[n..] == left;
    }
  }

  lemma NoTwoTrailers(p: nat)
    ensures Padding(p + Padding(p)) == 0
  {
  }

  /** How what is left of a record lies in what is left of the file. */
  ghost predicate Follows(all: Bytes, rest0: Bytes, left: Bytes, rest: Bytes) {
    && (all <= rest0 ==> left <= rest && |rest0| - |rest| == |all| - |left| && rest[|left|..] == rest0[|all|..])
    && (rest0 < all ==> rest < left)
  }

  lemma Split(all: Bytes, rest0: Bytes, chunk: Bytes, following: Bytes, rest: Bytes)
    requires Follows(all, rest0, chunk + following, rest)
    ensures all <= rest0 ==> chunk <= rest && Follows(all, rest0, following, rest[|chunk|..])
    ensures rest0 < all ==> rest < chunk || (following != [] && chunk <= rest && Follows(all, rest0, following, rest[|chunk|..]))
  {
  }

  /** How many of the records end within the first `size` bytes. */
  function WholeRecords(crc: Checksum, p: nat, records: seq<Bytes>, size: nat): (count: nat)
    ensures count <= |records|
    decreases |records|
  {
    if records == [] then 0
    else
      var end := p + |Fragments(crc, p, records[0], true)|;
      if end > size then 0 else 1 + WholeRecords(crc, end, records[1..], size)
  }

  /** They are exactly the records whose last fragment lies inside. */
  lemma {:induction false} WholeRecordsAre(crc: Checksum, p: nat, records: seq<Bytes>, size: nat, k: nat)
    requires k < |records|
    ensures k < WholeRecords(crc, p, records, size) <==> p + |Layout(crc, p, records[..k + 1])| <= size
    decreases |records|
  {
    hide Fragments;
    var bytes := Fragments(crc, p, records[0], true);
    assert records[..k + 1] == [records[0]] + records[1..][..k];
    LayoutSplit(crc, p, [records[0]], records[1..][..k]);
    assert Layout(crc, p, [records[0]]) == bytes;
    if k > 0 && p + |bytes| <= size {
      WholeRecordsAre(crc, p + |bytes|, records[1..], size, k - 1);
    }
  }

  /** A log that is not cut holds all its records. */
  lemma AllRecordsWhole(crc: Checksum, records: seq<Bytes>)
    ensures WholeRecords(crc, 0, records, |Layout(crc, 0, records)|) == |records|
  {
    var n := WholeRecords(crc, 0, records, |Layout(crc, 0, records)|);
    assert records[..|records|] == records;
    if n < |records| {
      WholeRecordsAre(crc, 0, records, |Layout(crc, 0, records)|, |records| - 1);
    }
  }

  lemma NextOfLayout(crc: Checksum, p: nat, records: seq<Bytes>, rest: Bytes)
    requires rest <= Layout(crc, p, records)
    ensures rest == [] || records != []
    ensures var next := if records == [] then [] else records[0];
      var bytes := Fragments(crc, p, next, true);
      if records != [] && p + |bytes| <= p + |rest| then Whole(bytes, rest) && After(bytes, rest) <= Layout(crc, p + |bytes|, records[1..])
      else Cut(bytes, rest)
  {
    hide Fragments;
    if records != [] {
      var bytes := Fragments(crc, p, records[0], true);
      var after := Layout(crc, p + |bytes|, records[1..]);
      assert Layout(crc, p, records) == bytes + after;
      if |bytes| <= |rest| {
        assert rest[|bytes|..] == (bytes + after)[|bytes|..|rest|] == after[..|rest| - |bytes|];
      }
    } else {
      assert Fragments(crc, p, [], true) != [];
    }
  }

  /** Recovery has read `found` and has `rest` of the file, the start of what `left` was written as. */
  ghost predicate Recovering(crc: Checksum, size: nat, records: seq<Bytes>, found: seq<Bytes>, left: seq<Bytes>,
                             p: nat, rest: Bytes, more: bool)
  {
    && found + left == records
    && (more ==> rest <= Layout(crc, p, left))
    && |found| + (if more then WholeRecords(crc, p, left, size) else 0) == WholeRecords(crc, 0, records, size)
  }

  function FirstOf(records: seq<Bytes>): Bytes {
    if records == [] then [] else records[0]
  }

  function RestOf(records: seq<Bytes>): seq<Bytes> {
    if records == [] then [] else records[1..]
  }

  lemma RecoverStep(crc: Checksum, size: nat, records: seq<Bytes>, found: seq<Bytes>, left: seq<Bytes>, p: nat, rest: Bytes)
    requires Recovering(crc, size, records, found, left, p, rest, true) && p + |rest| == size
    ensures var bytes := Fragments(crc, p, FirstOf(left), true);
      if Whole(bytes, rest)
      then Recovering(crc, size, records, found + [FirstOf(left)], RestOf(left), p + |bytes|, After(bytes, rest), true) &&
           |After(bytes, rest)| == |rest| - |bytes|
      else Cut(bytes, rest) && Recovering(crc, size, records, found, left, 0, [], false)
  {
    hide Fragments, Layout;
    NextOfLayout(crc, p, left, rest);
    if left != [] {
      assert found + [left[0]] + left[1..] == found + left;
    }
  }

  /** Recovery reads a log to its end. Cut anywhere, it gives back exactly the records that were
      whole, and reports nothing. */
  method ReadAll(crc: Checksum, file: Bytes, ghost records: seq<Bytes>) returns (found: seq<Bytes>, drops: seq<nat>)
    ensures file <= Layout(crc, 0, records) ==> found == records[..WholeRecords(crc, 0, records, |file|)] && drops == []
  {
    hide Recovering, Fragments, Layout, WholeRecords, Whole, Cut, After;
    var reader := new Reader(crc, file);
    found := [];
    ghost var written := file <= Layout(crc, 0, records);
    ghost var left := records;
    var more := true;
    RecoverStart(crc, file, records);
    while more
      invariant reader.Valid() && reader.crc == crc && reader.file == file
      invariant written ==> reader.drops == []
      invariant written && more ==> Recovering(crc, |file|, records, found, left, reader.Position(), reader.Rest(), true)
      invariant written && !more ==> Recovering(crc, |file|, records, found, left, 0, [], false)
      decreases more, |reader.Rest()|
    {
      reader.RestLength();
      if written { RecoverStep(crc, |file|, records, found, left, reader.Position(), reader.Rest()); }
      var record := reader.ReadRecord(FirstOf(left));
      reader.RestLength();
      match record {
        case None => more := false;
        case Some(r) =>
          found := found + [r];
          left := RestOf(left);
      }
    }
    RecoverEnd(crc, |file|, records, found, left);
    drops := reader.drops;
  }

  lemma RecoverStart(crc: Checksum, file: Bytes, records: seq<Bytes>)
    ensures file <= Layout(crc, 0, records) ==> Recovering(crc, |file|, records, [], records, 0, file, true)
  {
  }

  lemma RecoverEnd(crc: Checksum, size: nat, records: seq<Bytes>, found: seq<Bytes>, left: seq<Bytes>)
    ensures Recovering(crc, size, records, found, left, 0, [], false) ==> found == records[..WholeRecords(crc, 0, records, size)]
  {
  }
}
