/** The stored formats, spelled out (the comments of util/coding.h, db/log_format.h, db/write_batch.cc,
    db/version_edit.cc, db/dbformat.h, table/block_builder.cc and table/format.h, and the wire format of
    protocol buffers): what the bytes are, and not only that they are read back. */
module Formats {
  import opened Coding
  import Log
  import Batches
  import InternalKeys
  import Blocks
  import Tables
  import Filters
  import Bloom
  import M = Manifest
  import Pb = PbMessages

  // ------------------------------------------------------------------- numbers

  /** The number whose base-256 digits are the bytes, least significant first. */
  function Little(s: Bytes): nat {
    if s == [] then 0 else s[0] + 256 * Little(s[1..])
  }

  lemma LittleOfFour(s: Bytes)
    requires |s| == 4
    ensures var b0: int, b1: int, b2: int, b3: int := s[0], s[1], s[2], s[3]; Little(s) == b0 + 0x100 * b1 + 0x1_0000 * b2 + 0x100_0000 * b3
  {
    assert Little(s) == s[0] + 256 * Little(s[1..]) && s[1..][1..] == s[2..] && s[2..][1..] == s[3..] && s[3..][1..] == [];
    assert Little(s[1..]) == s[1] + 256 * Little(s[2..]) && Little(s[2..]) == s[2] + 256 * Little(s[3..]);
    assert Little(s[3..]) == s[3] + 256 * Little([]);
  }

  lemma {:induction false} LittleJoins(a: Bytes, b: Bytes)
    requires |a| == 4
    ensures Little(a + b) == Little(a) + TWO_TO_THE_32 * Little(b)
  {
    var s := a + b;
    assert s[1..][1..] == s[2..] && s[2..][1..] == s[3..] && s[3..][1..] == s[4..] && s[4..] == b;
    assert Little(s) == s[0] + 256 * Little(s[1..]) && Little(s[1..]) == s[1] + 256 * Little(s[2..]);
    assert Little(s[2..]) == s[2] + 256 * Little(s[3..]) && Little(s[3..]) == s[3] + 256 * Little(b);
    LittleOfFour(a);
  }

  /** A fixed-width number is little-endian. */
  lemma Fixed32Format(v: nat)
    requires v < TWO_TO_THE_32
    ensures |EncodeFixed32(v)| == 4 && Little(EncodeFixed32(v)) == v
  {
    LittleOfFour(EncodeFixed32(v));
    Digits(v);
  }

  lemma Fixed64Format(v: nat)
    requires v < TWO_TO_THE_64
    ensures |EncodeFixed64(v)| == 8 && Little(EncodeFixed64(v)) == v
  {
    hide EncodeFixed32, Little;
    Fixed32Format(v % TWO_TO_THE_32);
    Fixed32Format(v / TWO_TO_THE_32);
    LittleJoins(EncodeFixed32(v % TWO_TO_THE_32), EncodeFixed32(v / TWO_TO_THE_32));
  }

  lemma Fixed32Reads(s: Bytes)
    requires |s| >= 4
    ensures DecodeFixed32(s) == Little(s[..4])
  {
    LittleOfFour(s[..4]);
  }

  lemma Fixed64Reads(s: Bytes)
    requires |s| >= 8
    ensures DecodeFixed64(s) == Little(s[..8])
  {
    hide Little, DecodeFixed32;
    Fixed32Reads(s);
    Fixed32Reads(s[4..]);
    assert s[..8] == s[..4] + s[4..8] && s[4..][..4] == s[4..8];
    LittleJoins(s[..4], s[4..8]);
  }

  /** The number whose base-128 digits are the low seven bits of the bytes. */
  function Base128(s: Bytes): nat {
    if s == [] then 0 else s[0] % 128 + 128 * Base128(s[1..])
  }

  /** Seven bits a byte, as few bytes as will do; all but the last have their top bit set. */
  ghost predicate IsVarint(s: Bytes, v: nat) {
    && s != [] && Base128(s) == v && s[|s| - 1] < 128 && (|s| > 1 ==> s[|s| - 1] != 0)
    && forall i :: 0 <= i < |s| - 1 ==> s[i] >= 128
  }

  lemma {:induction false} VarintFormat(v: nat)
    ensures IsVarint(Varint(v), v)
  {
    if v >= 128 {
      VarintParts(v);
      VarintFormat(v / 128);
      var s, more := Varint(v), Varint(v / 128);
      assert s == [More(v)] + more && s[|s| - 1] == more[|more| - 1];
      assert forall i :: 0 < i < |s| ==> s[i] == more[i - 1];
    } else {
      assert Varint(v)[1..] == [];
    }
  }

  /** There is one such encoding of a number. */
  lemma {:induction false} VarintUnique(s: Bytes, v: nat)
    requires IsVarint(s, v)
    ensures s == Varint(v)
  {
    if |s| == 1 {
      assert s[1..] == [] && s == [s[0]];
    } else {
      var more := s[1..];
      assert more[|more| - 1] == s[|s| - 1];
      VarintUnique(more, Base128(more));
      LastGroup(more);
      assert v % 128 == s[0] % 128 && v / 128 == Base128(more);
      assert s == [s[0]] + more;
    }
  }

  lemma {:induction false} LastGroup(s: Bytes)
    requires s != [] && s[|s| - 1] < 128 && s[|s| - 1] != 0
    ensures Base128(s) > 0
  {
    if |s| > 1 {
      assert s[1..][|s| - 2] == s[|s| - 1];
      LastGroup(s[1..]);
    }
  }

  /** A byte string is its length and its bytes. */
  lemma StringFormat(b: Bytes)
    ensures exists n :: 0 < n <= |PutLengthPrefixed(b)| && IsVarint(PutLengthPrefixed(b)[..n], |b|) && PutLengthPrefixed(b)[n..] == b
  {
    hide IsVarint, Varint;
    VarintFormat(|b|);
    var n := |Varint(|b|)|;
    assert PutLengthPrefixed(b)[..n] == Varint(|b|) && PutLengthPrefixed(b)[n..] == b;
  }

  /** A stored checksum is rotated right by 15 bits, and a constant is added. */
  lemma MaskFormat(crc: bv32)
    ensures Mask(crc) == crc.RotateRight(15) + 0xa282ead8
  {
  }

  /** The four bytes of a checksum as it is stored. */
  ghost predicate IsChecksum(crc: bv32, s: Bytes) {
    |s| == 4 && Little(s) == (crc.RotateRight(15) + 0xa282ead8) as nat
  }

  lemma ChecksumFormat(crc: bv32)
    ensures IsChecksum(crc, EncodeFixed32(Mask(crc) as nat))
  {
    hide EncodeFixed32, Little, Mask;
    MaskFormat(crc);
    Fixed32Format(Mask(crc) as nat);
  }

  // ----------------------------------------------------------------- batches

  /** A record of a batch: 1 and two strings, or 0 and one. */
  lemma BatchRecordFormat(op: Batches.Operation)
    ensures match op
      case Put(key, value) => Batches.OperationBytes(op) == [1] + (Varint(|key|) + key) + (Varint(|value|) + value)
      case Delete(key) => Batches.OperationBytes(op) == [0] + (Varint(|key|) + key)
  {
  }

  /** A whole batch: number, count, records. */
  lemma BatchFormat(rep: Bytes, sequence: nat, ops: seq<Batches.Operation>)
    requires |rep| >= 12 && DecodeFixed64(rep) == sequence && DecodeFixed32(rep[8..]) == |ops| && rep[12..] == Batches.Body(ops)
    ensures Little(rep[..8]) == sequence && Little(rep[8..12]) == |ops| && rep[12..] == Batches.Body(ops)
  {
    hide Little, DecodeFixed32, DecodeFixed64, Batches.Body;
    Fixed64Reads(rep);
    Fixed32Reads(rep[8..]);
    assert rep[8..][..4] == rep[8..12];
  }

  // --------------------------------------------------------------- internal keys

  /** A stored key: the user key, and in eight bytes the sequence number above the type. */
  lemma InternalKeyFormat(k: InternalKeys.ParsedKey)
    requires k.sequence <= InternalKeys.MAX_SEQUENCE && k.typ <= InternalKeys.TYPE_VALUE
    ensures var key := InternalKeys.InternalKeyOf(k);
      |key| == |k.user| + 8 && key[..|k.user|] == k.user && Little(key[|k.user|..]) == k.sequence * 256 + k.typ
  {
    hide Little, EncodeFixed64;
    var tag := EncodeFixed64(k.sequence * 256 + k.typ);
    Fixed64Format(k.sequence * 256 + k.typ);
    assert InternalKeys.InternalKeyOf(k)[|k.user|..] == tag;
  }

  // -------------------------------------------------------------------- the log

  /** A physical record: checksum of type and data, length in two bytes, type, data. */
  ghost predicate IsPhysical(crc: Checksum, t: Byte, payload: Bytes, s: Bytes) {
    && |s| == 7 + |payload| && IsChecksum(crc([t] + payload), s[..4]) && Little(s[4..6]) == |payload| && s[6] == t && s[7..] == payload
  }

  lemma PhysicalFormat(crc: Checksum, t: Byte, payload: Bytes)
    requires |payload| <= 0xffff
    ensures IsPhysical(crc, t, payload, Log.Physical(crc, t, payload))
  {
    hide Mask, EncodeFixed32, IsChecksum;
    var s, sum := Log.Physical(crc, t, payload), EncodeFixed32(Mask(crc([t] + payload)) as nat);
    ChecksumFormat(crc([t] + payload));
    assert s == sum + [|payload| % 256, |payload| / 256, t] + payload;
    assert s[..4] == sum && s[4..6] == [|payload| % 256, |payload| / 256] && s[7..] == payload;
    LittleOfTwo(s[4..6]);
  }

  lemma LittleOfTwo(s: Bytes)
    requires |s| == 2
    ensures var b0: int, b1: int := s[0], s[1]; Little(s) == b0 + 256 * b1
  {
    assert s[1..][1..] == [] && Little(s[1..]) == s[1] + 256 * Little([]);
  }

  /** Which part of its record a fragment is. */
  function TypeOf(first: bool, last: bool): Byte {
    if first && last then 1 else if first then 2 else if last then 4 else 3
  }

  /** A fragment of n bytes after a gap of zeros: it ends the record, or reaches the end of its block. */
  ghost predicate IsFragment(crc: Checksum, p: nat, data: Bytes, first: bool, s: Bytes, gap: nat, n: nat) {
    && gap <= 6 && n <= |data| && gap + 7 + n <= |s| && (forall i :: 0 <= i < gap ==> s[i] == 0)
    && (gap > 0 ==> (p + gap) % 32768 == 0) && (p + gap) % 32768 + 7 + n <= 32768
    && IsPhysical(crc, TypeOf(first, n == |data|), data[..n], s[gap..gap + 7 + n])
    && (if n == |data| then gap + 7 + n == |s| else (p + gap) % 32768 + 7 + n == 32768)
  }

  /** The fragments of a record from position `p` of the log on: before each at most six zero bytes, which
      end a block, and none crosses the end of a block; all but the last reach it. */
  ghost predicate IsRecord(crc: Checksum, p: nat, data: Bytes, first: bool, s: Bytes)
    decreases |s|
  {
    exists gap: nat, n: nat :: IsFragment(crc, p, data, first, s, gap, n) &&
                               (n < |data| ==> IsRecord(crc, p + gap + 7 + n, data[n..], false, s[gap + 7 + n..]))
  }

  lemma Spaces(p: nat)
    ensures var gap := Log.Padding(p);
      gap <= 6 && (gap > 0 ==> (p + gap) % 32768 == 0) && Log.Available(p) == 32768 - 7 - (p + gap) % 32768
  {
  }

  lemma ChunkParts(crc: Checksum, p: nat, t: Byte, payload: Bytes, s: Bytes)
    requires |payload| <= Log.Available(p) && Log.Chunk(crc, p, t, payload) <= s
    ensures var gap := Log.Padding(p);
      && gap + 7 + |payload| <= |s| && (forall i :: 0 <= i < gap ==> s[i] == 0) && |payload| <= 0xffff
      && s[gap..gap + 7 + |payload|] == Log.Physical(crc, t, payload)
  {
    hide Log.Physical, Log.Available;
    Spaces(p);
    var gap := Log.Padding(p);
    var chunk := Log.Chunk(crc, p, t, payload);
    assert chunk[gap..] == Log.Physical(crc, t, payload);
    assert s[gap..|chunk|] == chunk[gap..];
    assert forall i :: 0 <= i < gap ==> chunk[i] == 0 && s[i] == chunk[i];
  }

  lemma FirstFragment(crc: Checksum, p: nat, data: Bytes, first: bool)
    ensures var s, gap, n := Log.Fragments(crc, p, data, first), Log.Padding(p), Log.Taken(p, data);
      && IsFragment(crc, p, data, first, s, gap, n)
      && (n < |data| ==> s[gap + 7 + n..] == Log.Fragments(crc, p + gap + 7 + n, data[n..], false))
  {
    hide Log.Physical, IsPhysical, Log.Available, Log.Padding, Log.Chunk;
    var s, n, gap := Log.Fragments(crc, p, data, first), Log.Taken(p, data), Log.Padding(p);
    var t := Log.FragmentType(first, n == |data|);
    Spaces(p);
    ChunkParts(crc, p, t, data[..n], s);
    PhysicalFormat(crc, t, data[..n]);
    assert t == TypeOf(first, n == |data|);
  }

  lemma {:induction false} RecordFormat(crc: Checksum, p: nat, data: Bytes, first: bool)
    ensures IsRecord(crc, p, data, first, Log.Fragments(crc, p, data, first))
    decreases |data|, if Log.Available(p) == 0 then 1 else 0
  {
    hide IsFragment, Log.Fragments, Log.Padding;
    var n, gap := Log.Taken(p, data), Log.Padding(p);
    FirstFragment(crc, p, data, first);
    if n < |data| {
      NextBlock(p, n, gap);
      RecordFormat(crc, p + gap + 7 + n, data[n..], false);
    }
  }

  lemma NextBlock(p: nat, n: nat, gap: nat)
    requires gap == Log.Padding(p) && n == Log.Available(p)
    ensures Log.Available(p) == 0 ==> Log.Available(p + gap + 7 + n) > 0
  {
  }

  // ------------------------------------------------------------------- manifest

  /** Each field of an edit begins with its tag. */
  lemma EditFormat(f: M.Field)
    ensures match f
      case ComparatorName(name) => M.FieldBytes(f) == [1] + (Varint(|name|) + name)
      case LogNumber(n) => M.FieldBytes(f) == [2] + Varint(n)
      case NextFileNumber(n) => M.FieldBytes(f) == [3] + Varint(n)
      case LastSequence(n) => M.FieldBytes(f) == [4] + Varint(n)
      case CompactPointer(level, key) => M.FieldBytes(f) == [5] + Varint(level) + (Varint(|key|) + key)
      case DeletedFile(level, n) => M.FieldBytes(f) == [6] + Varint(level) + Varint(n)
      case NewFile(level, g) =>
        M.FieldBytes(f) == [7] + Varint(level) + Varint(g.number) + Varint(g.size) + (Varint(|g.smallest|) + g.smallest) + (Varint(|g.largest|) + g.largest)
      case PrevLogNumber(n) => M.FieldBytes(f) == [9] + Varint(n)
  {
    assert Varint(1) == [1] && Varint(2) == [2] && Varint(3) == [3] && Varint(4) == [4];
    assert Varint(5) == [5] && Varint(6) == [6] && Varint(7) == [7] && Varint(9) == [9];
    hide Varint;
  }

  // --------------------------------------------------------------------- tables

  /** An entry of a block: three lengths, the part of the key that is not shared, and the value. */
  lemma EntryFormat(shared: nat, e: Blocks.KeyValue)
    requires shared <= |e.key|
    ensures exists a: Bytes, b: Bytes, c: Bytes :: IsVarint(a, shared) && IsVarint(b, |e.key| - shared) && IsVarint(c, |e.value|) &&
                              Blocks.EntryBytes(shared, e) == a + b + c + e.key[shared..] + e.value
  {
    hide IsVarint, Varint;
    VarintFormat(shared);
    VarintFormat(|e.key| - shared);
    VarintFormat(|e.value|);
    var a, b, c := Varint(shared), Varint(|e.key| - shared), Varint(|e.value|);
    assert Blocks.EntryBytes(shared, e) == a + b + c + e.key[shared..] + e.value;
  }

  /** A stored block: contents, a byte for no compression, and the checksum of both. */
  lemma StoredFormat(crc: Checksum, contents: Bytes)
    ensures var s := Tables.Stored(crc, contents);
      |s| == |contents| + 5 && s[..|contents|] == contents && s[|contents|] == 0 && IsChecksum(crc(contents + [0]), s[|contents| + 1..])
  {
    hide Mask, EncodeFixed32, IsChecksum;
    var s, sum := Tables.Stored(crc, contents), EncodeFixed32(Mask(crc(contents + [0])) as nat);
    ChecksumFormat(crc(contents + [0]));
    assert s == contents + [0] + sum && s[|contents| + 1..] == sum;
  }

  /** The footer: four numbers, zeros up to the fortieth byte, and the magic number. */
  lemma FooterFormat(meta: Tables.Handle, index: Tables.Handle)
    requires meta.offset < TWO_TO_THE_64 && meta.size < TWO_TO_THE_64 && index.offset < TWO_TO_THE_64 && index.size < TWO_TO_THE_64
    ensures var s, numbers := Tables.Footer(meta, index), Varint(meta.offset) + Varint(meta.size) + (Varint(index.offset) + Varint(index.size));
      |s| == 48 && |numbers| <= 40 && s[..|numbers|] == numbers && (forall i :: |numbers| <= i < 40 ==> s[i] == 0)
      && Little(s[40..]) == 0xdb4775248b80fb57
  {
    hide EncodeFixed64, Varint, Little;
    Tables.HandleLength(meta);
    Tables.HandleLength(index);
    Fixed64Format(0xdb4775248b80fb57);
    var s, numbers := Tables.Footer(meta, index), Varint(meta.offset) + Varint(meta.size) + (Varint(index.offset) + Varint(index.size));
    assert numbers == Tables.EncodeHandle(meta) + Tables.EncodeHandle(index);
    assert s == numbers + Zeros(40 - |numbers|) + EncodeFixed64(0xdb4775248b80fb57);
    assert s[40..] == EncodeFixed64(0xdb4775248b80fb57);
  }

  /** The name of a filter in the metaindex: that of its policy after "filter.". */
  lemma FilterNameFormat(name: Bytes)
    ensures |Tables.FilterName(name)| == |name| + 7 && Tables.FilterName(name)[7..] == name
    ensures forall i :: 0 <= i < 7 ==> Tables.FilterName(name)[i] == "filter."[i] as int
  {
  }

  /** The filters of a table are made of, and asked for, the user keys within its keys. */
  lemma FilterKeys(policy: Filters.Policy, keys: seq<Bytes>, users: seq<Bytes>, key: Bytes, filter: Bytes)
    requires |users| == |keys| && forall i :: 0 <= i < |keys| ==> |keys[i]| >= 8 && users[i] == keys[i][..|keys[i]| - 8]
    ensures Tables.InternalPolicy(policy).create(keys) == policy.create(users)
    ensures |key| >= 8 ==> Tables.InternalPolicy(policy).mayMatch(key, filter) == policy.mayMatch(key[..|key| - 8], filter)
  {
    assert Tables.UserKeys(keys) == users;
    assert |key| >= 8 ==> InternalKeys.UserOf(key) == key[..|key| - 8];
    var internal := Tables.InternalPolicy(policy);
    assert internal.mayMatch(key, filter) == policy.mayMatch(InternalKeys.UserOf(key), filter);
  }

  /** The filters of the built-in policy are Bloom filters. */
  lemma BloomFilters(p: Bloom.Bloom, keys: seq<Bytes>, key: Bytes, filter: Bytes)
    requires Bloom.Sensible(p)
    ensures Bloom.IsFilter(p, keys, Filters.BloomPolicy(p).create(keys))
    ensures Filters.BloomPolicy(p).mayMatch(key, filter) <==> Bloom.Passes(p, key, filter)
  {
    hide Bloom.IsFilter, Bloom.Passes, Bloom.Filter, Bloom.MayMatch;
    Bloom.FilterBits(p, keys);
    Bloom.MatchIsPass(p, key, filter);
  }

  // ------------------------------------------------------------ protocol buffers

  /** A key of a message: the tag above three bits of wire type. */
  lemma TagFormat(tag: nat, kind: Pb.Kind)
    ensures IsVarint(Pb.TagBytes(tag, Pb.WireType(kind)), 8 * tag + match kind
      case Fixed32 => 5
      case Fixed64 => 1
      case Boolean => 0
      case Signed(_) => 0
      case Unsigned(_) => 0
      case ZigZag(_) => 0
      case ByteArray(_) => 2
      case CString(_) => 2
      case FixedBytes(_) => 2
      case Message(_) => 2)
  {
    hide IsVarint, Varint;
    VarintFormat(8 * tag + Pb.WireType(kind));
  }

  /** A number of a message: small ones in few bytes, negative ones as 64-bit two's complement or, for the
      zigzag kinds, numbered 0, -1, 1, -2 and so on, and the fixed kinds little-endian. */
  lemma NumberFormat(kind: Pb.Kind, n: int)
    requires Pb.HasType(kind, Pb.Number(n)) && (kind.Signed? || kind.Unsigned? || kind.ZigZag? ==> Pb.IntegerSize(kind.size))
    ensures var s := Pb.Encode(kind, Pb.Number(n));
      match kind
      case Signed(_) => IsVarint(s, if n >= 0 then n else n + 0x1_0000_0000_0000_0000)
      case Unsigned(_) => n >= 0 && IsVarint(s, n)
      case ZigZag(_) => if n >= 0 then IsVarint(s, n + n) else n + n < 0 && IsVarint(s, -(n + n) - 1)
      case Fixed32 => |s| == 4 && Little(s) == n
      case Fixed64 => |s| == 8 && Little(s) == n
      case _ => true
  {
    hide IsVarint, Varint, Little, EncodeFixed32, EncodeFixed64;
    match kind
    case Signed(_) => VarintFormat(if n >= 0 then n else n + 0x1_0000_0000_0000_0000);
    case Unsigned(_) => VarintFormat(n);
    case ZigZag(_) => VarintFormat(if n >= 0 then n + n else -(n + n) - 1);
    case Fixed32 => Fixed32Format(n);
    case Fixed64 => Fixed64Format(n);
    case _ =>
  }

  /** A message within a message, and a packed array, come with their length. */
  lemma LengthFormat(kind: Pb.Kind, slots: seq<Pb.Slot>)
    requires kind.Message? && |slots| == |kind.fields|
    ensures var body := Pb.EncodeFields(kind, slots, 0); Pb.Encode(kind, Pb.Struct(slots)) == Varint(|body|) + body
  {
    hide Pb.EncodeFields, Varint;
  }

  /** Which members are written: an optional one, or one of a union, if its flag is set, a singular one if it
      is not zero, a required one always, and an array unless it is empty. */
  lemma PresenceFormat(tag: nat, rule: Pb.Rule, kind: Pb.Kind, slot: Pb.Slot)
    ensures Pb.EncodeSlot(tag, rule, kind, slot) == [] <==> match slot
      case Many(items) => items == []
      case One(has, v) =>
        match rule
        case Required => false
        case Singular => Pb.IsZero(kind, v)
        case _ => !has
  {
    hide Varint, Pb.Encode, Pb.IsZero, Pb.EncodeItems;
  }

  /** The fields are written in the order of the descriptor. */
  lemma {:induction false} OrderFormat(kind: Pb.Kind, slots: seq<Pb.Slot>, j: nat, i: nat)
    requires kind.Message? && |slots| == |kind.fields| && j <= i <= |slots|
    ensures Pb.EncodeFields(kind, slots, j) == Pb.EncodeFields(Pb.Message(kind.fields[..i]), slots[..i], j) + Pb.EncodeFields(kind, slots, i)
    decreases i - j
  {
    hide Pb.EncodeSlot;
    var front := Pb.Message(kind.fields[..i]);
    if j == i {
      assert Pb.EncodeFields(front, slots[..i], i) == [];
    } else {
      OrderFormat(kind, slots, j + 1, i);
      assert front.fields[j] == kind.fields[j] && slots[..i][j] == slots[j];
    }
  }
}
