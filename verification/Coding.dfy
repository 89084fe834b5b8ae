/** Byte encodings of numbers and strings (util/coding.cc) and the checksum mask (util/crc32c.h). */
module Coding {
  import opened Wrappers

  type Byte = x: int | 0 <= x < 256
  type Bytes = seq<Byte>

  function Zeros(n: nat): (r: Bytes)
    ensures |r| == n
  {
    seq(n, _ => 0)
  }

  const TWO_TO_THE_32: nat := 0x1_0000_0000
  const TWO_TO_THE_64: nat := 0x1_0000_0000_0000_0000

  // CRC-32C of a byte string, which this model leaves uninterpreted.
  type Checksum = Bytes -> bv32

  const MASK_DELTA: bv32 := 0xa282ead8

  function Mask(crc: bv32): bv32 {
    ((crc >> 15) | (crc << 17)) + MASK_DELTA
  }

  function Unmask(masked: bv32): bv32 {
    var rot := masked - MASK_DELTA;
    (rot >> 17) | (rot << 15)
  }

  function EncodeFixed32(v: nat): (r: Bytes)
    requires v < TWO_TO_THE_32
    ensures |r| == 4
  {
    [v % 256, v / 0x100 % 256, v / 0x1_0000 % 256, v / 0x100_0000]
  }

  function DecodeFixed32(s: Bytes): (v: nat)
    requires |s| >= 4
    ensures v < TWO_TO_THE_32
  {
    var b0: int, b1: int, b2: int, b3: int := s[0], s[1], s[2], s[3];
    b0 + 0x100 * b1 + 0x1_0000 * b2 + 0x100_0000 * b3
  }

  /** The bytes of a word are its base-256 digits. */
  lemma Digits(v: nat)
    requires v < TWO_TO_THE_32
    ensures v == v % 256 + 0x100 * (v / 0x100 % 256) + 0x1_0000 * (v / 0x1_0000 % 256) + 0x100_0000 * (v / 0x100_0000)
  {
    var q1, q2, q3 := v / 0x100, v / 0x1_0000, v / 0x100_0000;
    assert q1 / 0x100 == q2 && q2 / 0x100 == q3;
    assert v == v % 256 + 0x100 * q1;
    assert q1 == q1 % 256 + 0x100 * q2;
    assert q2 == q2 % 256 + 0x100 * q3;
  }

  lemma Fixed32RoundTrip(v: nat, rest: Bytes)
    requires v < TWO_TO_THE_32
    ensures DecodeFixed32(EncodeFixed32(v) + rest) == v
  {
    Digits(v);
  }

  lemma MaskRoundTrip(crc: bv32)
    ensures Unmask(Mask(crc)) == crc && Mask(Unmask(crc)) == crc
  {
  }

  /** A checksum stored masked in four bytes is read back. */
  lemma StoredChecksum(crc: bv32, rest: Bytes)
    ensures Unmask(DecodeFixed32(EncodeFixed32(Mask(crc) as nat) + rest) as bv32) == crc
  {
    Fixed32RoundTrip(Mask(crc) as nat, rest);
    MaskRoundTrip(crc);
  }

  /** An array of fixed-width numbers. */
  predicate Fits(offsets: seq<nat>) {
    forall k :: 0 <= k < |offsets| ==> offsets[k] < TWO_TO_THE_32
  }

  function FixedArray(offsets: seq<nat>): (r: Bytes)
    requires Fits(offsets)
    ensures |r| == 4 * |offsets|
  {
    if offsets == [] then [] else FixedArray(offsets[..|offsets| - 1]) + EncodeFixed32(offsets[|offsets| - 1])
  }

  lemma {:induction false} FixedArrayAt(offsets: seq<nat>, k: nat, before: Bytes, after: Bytes)
    requires Fits(offsets) && k < |offsets|
    ensures var data := before + FixedArray(offsets) + after; DecodeFixed32(data[|before| + 4 * k..]) == offsets[k]
  {
    hide EncodeFixed32, DecodeFixed32;
    var n := |offsets| - 1;
    var front, last := FixedArray(offsets[..n]), EncodeFixed32(offsets[n]);
    var data := before + FixedArray(offsets) + after;
    if k == n {
      assert data[|before| + 4 * k..] == last + after;
      Fixed32RoundTrip(offsets[n], after);
    } else {
      FixedArrayAt(offsets[..n], k, before, last + after);
      assert data == before + front + (last + after);
    }
  }

  /** PutFixed32 of each offset, cut to 32 bits. */
  method PutFixed32s(offsets: seq<nat>) returns (encoding: Bytes)
    ensures |encoding| == 4 * |offsets| && (Fits(offsets) ==> encoding == FixedArray(offsets))
  {
    hide EncodeFixed32;
    encoding := [];
    for i := 0 to |offsets|
      invariant |encoding| == 4 * i && (Fits(offsets) ==> encoding == FixedArray(offsets[..i]))
    {
      assert offsets[..i + 1][..i] == offsets[..i];
      encoding := encoding + EncodeFixed32(offsets[i] % TWO_TO_THE_32);
    }
    assert offsets[..|offsets|] == offsets;
  }

  function EncodeFixed64(v: nat): (r: Bytes)
    requires v < TWO_TO_THE_64
    ensures |r| == 8
  {
    EncodeFixed32(v % TWO_TO_THE_32) + EncodeFixed32(v / TWO_TO_THE_32)
  }

  function DecodeFixed64(s: Bytes): (v: nat)
    requires |s| >= 8
    ensures v < TWO_TO_THE_64
  {
    DecodeFixed32(s) + TWO_TO_THE_32 * DecodeFixed32(s[4..])
  }

  lemma Fixed64RoundTrip(v: nat, rest: Bytes)
    requires v < TWO_TO_THE_64
    ensures DecodeFixed64(EncodeFixed64(v) + rest) == v
  {
    var low, high := EncodeFixed32(v % TWO_TO_THE_32), EncodeFixed32(v / TWO_TO_THE_32);
    assert low + high + rest == low + (high + rest);
    assert (low + (high + rest))[4..] == high + rest;
    Fixed32RoundTrip(v % TWO_TO_THE_32, high + rest);
    Fixed32RoundTrip(v / TWO_TO_THE_32, rest);
  }

  lemma SamePrefix(a: Bytes, b: Bytes, n: nat)
    requires n <= |a| && n <= |b| && a[..n] == b[..n]
    ensures forall k :: 0 <= k < n ==> a[k] == b[k]
  {
    assert forall k :: 0 <= k < n ==> a[..n][k] == b[..n][k];
  }

  /** The low seven bits, marked as not the last. */
  function More(v: nat): Byte { v % 128 + 128 }

  /** Seven bits a byte, least significant first; every byte but the last has its top bit set. */
  function Varint(v: nat): (r: Bytes)
    ensures r != []
  {
    if v < 128 then [v] else [More(v)] + Varint(v / 128)
  }

  /** The shifts of the unrolled encoder are repeated divisions. */
  lemma Shifts(v: nat)
    ensures v / 0x80 / 0x80 == v / 0x4000
    ensures v / 0x4000 / 0x80 == v / 0x20_0000
    ensures v / 0x20_0000 / 0x80 == v / 0x1000_0000
  {
  }

  method EncodeVarint32(v: nat) returns (r: Bytes)
    requires v < TWO_TO_THE_32
    ensures r == Varint(v)
  {
    var v1, v2, v3, v4 := v / 0x80, v / 0x4000, v / 0x20_0000, v / 0x1000_0000;
    Shifts(v);
    assert v >= 0x80 ==> Varint(v) == [More(v)] + Varint(v1);
    assert v >= 0x4000 ==> Varint(v1) == [More(v1)] + Varint(v2);
    assert v >= 0x20_0000 ==> Varint(v2) == [More(v2)] + Varint(v3);
    assert v >= 0x1000_0000 ==> Varint(v3) == [More(v3)] + Varint(v4);
    if v < 0x80 {
      r := [v];
    } else if v < 0x4000 {
      r := [More(v), v1];
    } else if v < 0x20_0000 {
      r := [More(v), More(v1), v2];
      assert r == [More(v)] + ([More(v1)] + [v2]);
    } else if v < 0x1000_0000 {
      r := [More(v), More(v1), More(v2), v3];
      assert r == [More(v)] + ([More(v1)] + ([More(v2)] + [v3]));
    } else {
      r := [More(v), More(v1), More(v2), More(v3), v4];
      assert r == [More(v)] + ([More(v1)] + ([More(v2)] + ([More(v3)] + [v4])));
    }
  }

  method EncodeVarint64(v: nat) returns (r: Bytes)
    requires v < TWO_TO_THE_64
    ensures r == Varint(v)
  {
    r := [];
    var left := v;
    while left >= 128
      invariant r + Varint(left) == Varint(v)
    {
      assert r + [More(left)] + Varint(left / 128) == r + Varint(left);
      r := r + [More(left)];
      left := left / 128;
    }
    r := r + [left];
  }

  method VarintLength(v: nat) returns (len: nat)
    requires v < TWO_TO_THE_64
    ensures len == |Varint(v)|
  {
    var left := v;
    len := 1;
    while left >= 128
      invariant len + |Varint(left)| == |Varint(v)| + 1
    {
      left := left / 128;
      len := len + 1;
    }
  }

  /** The number whose base-128 digits are the low halves of the bytes. */
  function Groups(s: Bytes): nat {
    if s == [] then 0 else s[0] % 128 + 128 * Groups(s[1..])
  }

  /** The first byte without its top bit among the first `limit`. */
  function Terminator(s: Bytes, limit: nat): (k: Option<nat>)
    ensures k.Some? ==> k.value < limit && k.value < |s| && s[k.value] < 128 && forall j :: 0 <= j < k.value ==> s[j] >= 128
    ensures k.None? ==> forall j :: 0 <= j < |s| && j < limit ==> s[j] >= 128
  {
    if limit == 0 || s == [] then None
    else if s[0] < 128 then Some(0)
    else match Terminator(s[1..], limit - 1)
      case None => None
      case Some(k) => Some(k + 1)
  }

  /** What GetVarint32 (limit 5) and GetVarint64 (limit 10) read; bits past the width are lost. */
  function ReadVarint(s: Bytes, limit: nat, modulus: nat): (r: Option<(nat, Bytes)>)
    requires modulus > 0
    ensures r.Some? ==> |r.value.1| < |s|
  {
    match Terminator(s, limit)
    case None => None
    case Some(k) => Some((Groups(s[..k + 1]) % modulus, s[k + 1..]))
  }

  function GetVarint32(s: Bytes): (r: Option<(nat, Bytes)>)
    ensures r.Some? ==> |r.value.1| < |s|
  {
    ReadVarint(s, 5, TWO_TO_THE_32)
  }

  function GetVarint64(s: Bytes): (r: Option<(nat, Bytes)>)
    ensures r.Some? ==> |r.value.1| < |s|
  {
    ReadVarint(s, 10, TWO_TO_THE_64)
  }

  function Power128(n: nat): nat {
    if n == 0 then 1 else 128 * Power128(n - 1)
  }

  lemma {:induction false} GroupsAppend(s: Bytes, b: Byte)
    ensures Groups(s + [b]) == Groups(s) + b % 128 * Power128(|s|)
  {
    var x: nat := b % 128;
    if s == [] {
      assert (s + [b])[1..] == [];
    } else {
      GroupsAppend(s[1..], b);
      assert (s + [b])[1..] == s[1..] + [b];
      Carry(Groups(s[1..]), x, Power128(|s| - 1));
    }
  }

  lemma Carry(g: nat, x: nat, p: nat)
    ensures 128 * (g + x * p) == 128 * g + x * (128 * p)
  {
  }

  lemma ModuloSum(a: nat, b: nat, m: nat)
    requires m > 0
    ensures (a % m + b) % m == (a + b) % m
  {
    var q, q' := a / m, (a % m + b) / m;
    assert m * (q + q') == m * q + m * q';
    ModuloIs(a + b, m, q + q', (a % m + b) % m);
  }

  lemma ModuloIs(a: nat, m: nat, q: nat, r: nat)
    requires r < m && a == m * q + r
    ensures a % m == r
  {
    var d := a / m - q;
    assert m * d == m * (a / m) - m * q;
    Multiple(m, d);
  }

  lemma Multiple(m: nat, d: int)
    ensures d >= 1 ==> m * d >= m
    ensures d <= -1 ==> m * d <= -(m as int)
  {
  }

  /** The decoding loop of GetVarint32Ptr and GetVarint64Ptr. */
  method DecodeVarint(s: Bytes, limit: nat, modulus: nat) returns (r: Option<(nat, Bytes)>)
    requires modulus > 0
    ensures r == ReadVarint(s, limit, modulus)
  {
    var result: nat, shift: nat := 0, 1;
    for i := 0 to limit
      invariant i <= |s| && forall j :: 0 <= j < i ==> s[j] >= 128
      invariant shift == Power128(i) && result == Groups(s[..i]) % modulus
    {
      if i == |s| { return None; }
      assert s[..i + 1] == s[..i] + [s[i]];
      GroupsAppend(s[..i], s[i]);
      ModuloSum(Groups(s[..i]), s[i] % 128 * shift, modulus);
      result := (result + s[i] % 128 * shift) % modulus;
      if s[i] < 128 {
        return Some((result, s[i + 1..]));
      }
      shift := 128 * shift;
    }
    return None;
  }

  method DecodeVarint32(s: Bytes) returns (r: Option<(nat, Bytes)>)
    ensures r == GetVarint32(s)
  {
    r := DecodeVarint(s, 5, TWO_TO_THE_32);
  }

  method DecodeVarint64(s: Bytes) returns (r: Option<(nat, Bytes)>)
    ensures r == GetVarint64(s)
  {
    r := DecodeVarint(s, 10, TWO_TO_THE_64);
  }

  lemma VarintParts(v: nat)
    requires v >= 128
    ensures Varint(v)[0] == More(v) >= 128 && Varint(v)[1..] == Varint(v / 128)
    ensures More(v) % 128 == v % 128
  {
  }

  /** The byte that ends a varint is its last. */
  lemma {:induction false} TerminatorOfVarint(v: nat, rest: Bytes, limit: nat)
    requires limit > 0 && v < Power128(limit)
    ensures Terminator(Varint(v) + rest, limit) == Some(|Varint(v)| - 1)
  {
    assert Power128(1) == 128;
    var s := Varint(v) + rest;
    if v >= 128 {
      VarintParts(v);
      assert s[0] == More(v) && s[1..] == Varint(v / 128) + rest;
      assert limit > 1;
      TerminatorOfVarint(v / 128, rest, limit - 1);
    } else {
      assert s[0] == v;
    }
  }

  lemma {:induction false} GroupsOfVarint(v: nat)
    ensures Groups(Varint(v)) == v
  {
    if v >= 128 {
      VarintParts(v);
      GroupsOfVarint(v / 128);
    } else {
      assert Varint(v)[1..] == [];
    }
  }

  lemma VarintDecodes(v: nat, rest: Bytes, limit: nat)
    requires limit > 0 && v < Power128(limit)
    ensures Terminator(Varint(v) + rest, limit) == Some(|Varint(v)| - 1) && Groups(Varint(v)) == v
  {
    TerminatorOfVarint(v, rest, limit);
    GroupsOfVarint(v);
  }

  lemma ReadsBack(v: nat, rest: Bytes, limit: nat, modulus: nat)
    requires limit > 0 && v < Power128(limit) && v < modulus
    ensures ReadVarint(Varint(v) + rest, limit, modulus) == Some((v, rest))
  {
    VarintDecodes(v, rest, limit);
    ModuloIs(v, modulus, 0, v);
    assert (Varint(v) + rest)[..|Varint(v)|] == Varint(v) && (Varint(v) + rest)[|Varint(v)|..] == rest;
  }

  lemma VarintLengths(v: nat)
    ensures v < TWO_TO_THE_32 ==> |Varint(v)| <= 5
    ensures v < TWO_TO_THE_64 ==> |Varint(v)| <= 10
  {
    assert Power128(5) == 128 * Power128(4) && Power128(3) == 128 * Power128(2) && Power128(1) == 128;
    assert Power128(10) == 128 * Power128(9) && Power128(8) == 128 * Power128(7) && Power128(6) == 128 * Power128(5)
      && Power128(4) == 128 * Power128(3) && Power128(2) == 128 * Power128(1);
    if v < TWO_TO_THE_32 { VarintDecodes(v, [], 5); }
    if v < TWO_TO_THE_64 { VarintDecodes(v, [], 10); }
  }

  lemma Varint32RoundTrip(v: nat, rest: Bytes)
    requires v < TWO_TO_THE_32
    ensures GetVarint32(Varint(v) + rest) == Some((v, rest))
  {
    assert Power128(5) == 128 * Power128(4) && Power128(3) == 128 * Power128(2) && Power128(1) == 128;
    ReadsBack(v, rest, 5, TWO_TO_THE_32);
  }

  lemma Varint64RoundTrip(v: nat, rest: Bytes)
    requires v < TWO_TO_THE_64
    ensures GetVarint64(Varint(v) + rest) == Some((v, rest))
  {
    assert Power128(10) == 128 * Power128(9) && Power128(8) == 128 * Power128(7) && Power128(6) == 128 * Power128(5)
      && Power128(4) == 128 * Power128(3) && Power128(2) == 128 * Power128(1);
    ReadsBack(v, rest, 10, TWO_TO_THE_64);
  }

  function PutLengthPrefixed(s: Bytes): Bytes { Varint(|s|) + s }

  function GetLengthPrefixed(s: Bytes): (r: Option<(Bytes, Bytes)>)
    ensures r.Some? ==> |r.value.1| < |s|
  {
    match GetVarint32(s)
    case None => None
    case Some((len, rest)) => if len <= |rest| then Some((rest[..len], rest[len..])) else None
  }

  lemma LengthPrefixedRoundTrip(s: Bytes, rest: Bytes)
    requires |s| < TWO_TO_THE_32
    ensures GetLengthPrefixed(PutLengthPrefixed(s) + rest) == Some((s, rest))
  {
    assert PutLengthPrefixed(s) + rest == Varint(|s|) + (s + rest);
    Varint32RoundTrip(|s|, s + rest);
    assert (s + rest)[..|s|] == s && (s + rest)[|s|..] == rest;
  }
}
