/** The Bloom filter policy (util/bloom.cc): double hashing over a bit array; a key that was added
    is never denied. The hash function is left uninterpreted. */
module Bloom {
  import opened Coding

  type Word = x: int | 0 <= x < 0x1_0000_0000
  type Hash = Bytes -> Word
  type Bits = seq<bv8>

  // Number of probes and bits per key.
  datatype Bloom = Bloom(hash: Hash, bitsPerKey: nat, k: nat)

  ghost predicate Sensible(p: Bloom) {
    1 <= p.k <= 30
  }

  /** The 32-bit hash rotated right by 17 bits. */
  function Delta(h: Word): Word {
    h / 0x2_0000 + h % 0x2_0000 * 0x8000
  }

  /** The hash value of probe `j`, with wrap-around. */
  function Probe(h: Word, j: nat): Word {
    if j == 0 then h else (Probe(h, j - 1) + Delta(h)) % 0x1_0000_0000
  }

  function ByteCount(p: Bloom, n: nat): (r: nat)
    ensures r >= 8
  {
    var bits := n * p.bitsPerKey;
    ((if bits < 64 then 64 else bits) + 7) / 8
  }

  function BitPosition(h: Word, bits: nat): (r: nat)
    requires bits > 0
    ensures r < bits
  {
    h % bits
  }

  function BitMask(position: nat): bv8 {
    1 << (position % 8)
  }

  predicate IsSet(a: Bits, position: nat)
    requires position < 8 * |a|
  {
    a[position / 8] & BitMask(position) != 0
  }

  function SetBit(a: Bits, position: nat): (r: Bits)
    requires position < 8 * |a|
    ensures |r| == |a|
  {
    a[position / 8 := a[position / 8] | BitMask(position)]
  }

  lemma MaskNotZero(position: nat)
    ensures BitMask(position) != 0
  {
    var s := position % 8;
    assert s == 0 || s == 1 || s == 2 || s == 3 || s == 4 || s == 5 || s == 6 || s == 7;
  }

  lemma OrKeeps(a: bv8, m: bv8, b: bv8)
    ensures a & m != 0 ==> (a | b) & m != 0
    ensures m != 0 ==> (a | m) & m != 0
  {
  }

  lemma SetBitSets(a: Bits, position: nat)
    requires position < 8 * |a|
    ensures IsSet(SetBit(a, position), position)
    ensures forall q :: 0 <= q < 8 * |a| && IsSet(a, q) ==> IsSet(SetBit(a, position), q)
  {
    MaskNotZero(position);
    hide BitMask;
    OrKeeps(a[position / 8], BitMask(position), BitMask(position));
    forall q | 0 <= q < 8 * |a| && IsSet(a, q) ensures IsSet(SetBit(a, position), q) {
      OrKeeps(a[q / 8], BitMask(q), BitMask(position));
    }
  }

  /** The bits after `j` probes of a key. */
  function SetProbes(a: Bits, h: Word, j: nat): (r: Bits)
    requires a != []
    ensures |r| == |a|
  {
    if j == 0 then a else
      var b := SetProbes(a, h, j - 1);
      SetBit(b, BitPosition(Probe(h, j - 1), 8 * |a|))
  }

  function SetKeys(p: Bloom, a: Bits, keys: seq<Bytes>): (r: Bits)
    requires a != []
    ensures |r| == |a|
  {
    if keys == [] then a
    else SetProbes(SetKeys(p, a, keys[..|keys| - 1]), p.hash(keys[|keys| - 1]), p.k)
  }

  function Stored(a: Bits): (r: Bytes)
    ensures |r| == |a|
  {
    seq(|a|, i requires 0 <= i < |a| => a[i] as int)
  }

  function Loaded(s: Bytes): (r: Bits)
    ensures |r| == |s|
  {
    seq(|s|, i requires 0 <= i < |s| => s[i] as bv8)
  }

  lemma StoredAndLoaded(a: Bits, rest: Bytes)
    ensures Loaded((Stored(a) + rest)[..|a|]) == a
  {
  }

  /** CreateFilter: the bit array and the number of probes. */
  function Filter(p: Bloom, keys: seq<Bytes>): Bytes
    requires Sensible(p)
  {
    Stored(SetKeys(p, seq(ByteCount(p, |keys|), _ => 0), keys)) + [p.k]
  }

  predicate Matches(a: Bits, h: Word, k: nat)
    requires a != []
  {
    forall j :: 0 <= j < k ==> IsSet(a, BitPosition(Probe(h, j), 8 * |a|))
  }

  /** KeyMayMatch. */
  function MayMatch(p: Bloom, key: Bytes, filter: Bytes): bool {
    if |filter| < 2 then false
    else
      var k: nat := filter[|filter| - 1];
      k > 30 || Matches(Loaded(filter[..|filter| - 1]), p.hash(key), k)
  }

  lemma {:induction false} ProbesSet(a: Bits, h: Word, j: nat)
    requires a != []
    ensures Matches(SetProbes(a, h, j), h, j)
    ensures forall q :: 0 <= q < 8 * |a| && IsSet(a, q) ==> IsSet(SetProbes(a, h, j), q)
  {
    hide IsSet, SetBit;
    if j > 0 {
      ProbesSet(a, h, j - 1);
      SetBitSets(SetProbes(a, h, j - 1), BitPosition(Probe(h, j - 1), 8 * |a|));
    }
  }

  lemma {:induction false} KeysSet(p: Bloom, a: Bits, keys: seq<Bytes>, key: Bytes)
    requires a != [] && key in keys
    ensures Matches(SetKeys(p, a, keys), p.hash(key), p.k)
  {
    hide IsSet, SetProbes;
    var front, last := keys[..|keys| - 1], keys[|keys| - 1];
    ProbesSet(SetKeys(p, a, front), p.hash(last), p.k);
    if key != last {
      KeysSet(p, a, front, key);
    }
  }

  /** MAIN: a key the filter was made for always matches. */
  lemma NoFalseNegatives(p: Bloom, keys: seq<Bytes>, key: Bytes)
    requires Sensible(p) && key in keys
    ensures MayMatch(p, key, Filter(p, keys))
  {
    var a: Bits := seq(ByteCount(p, |keys|), _ => 0);
    KeysSet(p, a, keys, key);
    hide SetKeys, Matches, ByteCount;
    StoredAndLoaded(SetKeys(p, a, keys), [p.k]);
  }

  // ------------------------------------------------------------- which bits

  predicate BitOf(b: bv8, i: nat)
    requires i < 8
  {
    (b >> i) & 1 == 1
  }

  /** Bit q of a byte string, counted from the least significant bit of the first byte. */
  predicate Bit(s: Bytes, q: nat)
    requires q < 8 * |s|
  {
    BitOf(s[q / 8] as bv8, q % 8)
  }

  /** d is h with its upper 15 bits moved below its lower 17. */
  ghost predicate Rotated(h: Word, d: Word) {
    exists upper: nat, lower: nat :: upper < 0x8000 && lower < 0x2_0000 && h == upper * 0x2_0000 + lower && d == lower * 0x8000 + upper
  }

  /** The bit that probe j goes to. */
  ghost predicate IsPlace(h: Word, j: nat, bits: nat, q: nat)
    requires bits > 0
  {
    exists d: Word :: Rotated(h, d) && q == (h + j * d) % 0x1_0000_0000 % bits
  }

  /** One of k probes goes to bit q. */
  ghost predicate Hits(h: Word, k: nat, bits: nat, q: nat)
    requires bits > 0
  {
    exists j :: 0 <= j < k && IsPlace(h, j, bits, q)
  }

  /** Some probe of some key goes to bit q. */
  ghost predicate Probed(p: Bloom, keys: seq<Bytes>, bits: nat, q: nat)
    requires bits > 0
  {
    exists key :: key in keys && Hits(p.hash(key), p.k, bits, q)
  }

  /** The filter of some keys: bits enough for all of them, and at least 64, just those set that a probe of a
      key goes to, and the number of probes. */
  ghost predicate IsFilter(p: Bloom, keys: seq<Bytes>, filter: Bytes) {
    var n, bits := |filter| - 1, |keys| * p.bitsPerKey;
    && n >= 8 && filter[n] == p.k && bits <= 8 * n && (n == 8 || 8 * n < bits + 8)
    && forall q :: 0 <= q < 8 * n ==> (Bit(filter, q) <==> Probed(p, keys, 8 * n, q))
  }

  lemma DeltaRotates(h: Word, d: Word)
    ensures Rotated(h, d) <==> d == Delta(h)
  {
    var upper: nat, lower: nat := h / 0x2_0000, h % 0x2_0000;
    assert h == upper * 0x2_0000 + lower;
  }

  lemma WrapsOnce(x: nat, d: nat)
    ensures (x % 0x1_0000_0000 + d) % 0x1_0000_0000 == (x + d) % 0x1_0000_0000
  {
  }

  lemma Times(j: nat, d: nat)
    requires j > 0
    ensures j * d == (j - 1) * d + d
  {
  }

  lemma {:induction false} ProbeIs(h: Word, j: nat)
    ensures Probe(h, j) == (h + j * Delta(h)) % 0x1_0000_0000
  {
    hide Delta;
    if j > 0 {
      ProbeIs(h, j - 1);
      WrapsOnce(h + (j - 1) * Delta(h), Delta(h));
      Times(j, Delta(h));
    }
  }

  lemma PlaceIs(h: Word, j: nat, bits: nat, q: nat)
    requires bits > 0
    ensures IsPlace(h, j, bits, q) <==> q == BitPosition(Probe(h, j), bits)
  {
    hide Rotated, Delta;
    ProbeIs(h, j);
    DeltaRotates(h, Delta(h));
    forall d: Word | Rotated(h, d) ensures d == Delta(h) { DeltaRotates(h, d); }
  }

  lemma MaskedBit(b: bv8, q: nat)
    ensures b & BitMask(q) != 0 <==> BitOf(b, q % 8)
  {
    var i := q % 8;
    assert i == 0 || i == 1 || i == 2 || i == 3 || i == 4 || i == 5 || i == 6 || i == 7;
  }

  lemma ByteBack(b: bv8)
    ensures (b as int) as bv8 == b
  {
  }

  lemma SetIsBit(a: Bits, rest: Bytes, q: nat)
    requires q < 8 * |a|
    ensures IsSet(a, q) <==> Bit(Stored(a) + rest, q)
  {
    hide BitMask, BitOf;
    var b := a[q / 8];
    assert (Stored(a) + rest)[q / 8] == b as int;
    ByteBack(b);
    MaskedBit(b, q);
  }

  /** Masks of different bits of a byte share none. */
  lemma OneBit(a: bv8, i: nat, j: nat)
    requires i < 8 && j < 8 && i != j
    ensures (a | (1 << i)) & (1 << j) != 0 <==> a & (1 << j) != 0
  {
    assert i == 0 || i == 1 || i == 2 || i == 3 || i == 4 || i == 5 || i == 6 || i == 7;
    assert j == 0 || j == 1 || j == 2 || j == 3 || j == 4 || j == 5 || j == 6 || j == 7;
  }

  /** Setting a bit sets that one only. */
  lemma OnlyThatBit(a: Bits, position: nat, q: nat)
    requires position < 8 * |a| && q < 8 * |a|
    ensures IsSet(SetBit(a, position), q) <==> IsSet(a, q) || q == position
  {
    SetBitSets(a, position);
    if q != position && q / 8 == position / 8 {
      OneBit(a[q / 8], position % 8, q % 8);
    }
  }

  lemma HitsNext(h: Word, k: nat, bits: nat, q: nat)
    requires bits > 0 && k > 0
    ensures Hits(h, k, bits, q) <==> Hits(h, k - 1, bits, q) || q == BitPosition(Probe(h, k - 1), bits)
  {
    PlaceIs(h, k - 1, bits, q);
    hide IsPlace, BitPosition;
    if j :| 0 <= j < k && IsPlace(h, j, bits, q) {
      assert j < k - 1 || j == k - 1;
    }
  }

  lemma {:induction false} ProbesSetOnly(a: Bits, h: Word, k: nat, q: nat)
    requires a != [] && q < 8 * |a|
    ensures IsSet(SetProbes(a, h, k), q) <==> IsSet(a, q) || Hits(h, k, 8 * |a|, q)
  {
    hide IsSet, SetBit, BitPosition, IsPlace;
    if k > 0 {
      ProbesSetOnly(a, h, k - 1, q);
      HitsNext(h, k, 8 * |a|, q);
      OnlyThatBit(SetProbes(a, h, k - 1), BitPosition(Probe(h, k - 1), 8 * |a|), q);
    }
  }

  lemma {:induction false} KeysSetOnly(p: Bloom, a: Bits, keys: seq<Bytes>, q: nat)
    requires a != [] && q < 8 * |a|
    ensures IsSet(SetKeys(p, a, keys), q) <==> IsSet(a, q) || Probed(p, keys, 8 * |a|, q)
  {
    hide IsSet, SetProbes, Hits;
    if keys != [] {
      var front, last := keys[..|keys| - 1], keys[|keys| - 1];
      KeysSetOnly(p, a, front, q);
      ProbesSetOnly(SetKeys(p, a, front), p.hash(last), p.k, q);
      assert forall key :: key in keys <==> key in front || key == last;
    }
  }

  lemma NothingSet(n: nat, q: nat)
    requires q < 8 * n
    ensures !IsSet(seq(n, _ => 0), q)
  {
  }

  /** MAIN: the filter has just the bits set that a probe of an added key goes to. */
  lemma FilterBits(p: Bloom, keys: seq<Bytes>)
    requires Sensible(p)
    ensures IsFilter(p, keys, Filter(p, keys))
  {
    var n := ByteCount(p, |keys|);
    var empty: Bits := seq(n, _ => 0);
    var a, filter := SetKeys(p, empty, keys), Filter(p, keys);
    forall q | 0 <= q < 8 * n ensures Bit(filter, q) <==> Probed(p, keys, 8 * n, q) {
      hide IsSet, Bit, Probed, SetKeys;
      NothingSet(n, q);
      KeysSetOnly(p, empty, keys, q);
      SetIsBit(a, [p.k], q);
    }
  }

  /** Every probe of the key goes to a set bit; a filter of another making lets everything through. */
  ghost predicate Passes(p: Bloom, key: Bytes, filter: Bytes) {
    && |filter| >= 2
    && var k, bits := filter[|filter| - 1], 8 * (|filter| - 1);
       k > 30 || forall q :: 0 <= q < bits && Hits(p.hash(key), k, bits, q) ==> Bit(filter, q)
  }

  /** All bits are set that some probe goes to. */
  lemma MatchesMeans(a: Bits, h: Word, k: nat)
    requires a != []
    ensures Matches(a, h, k) <==> forall q :: 0 <= q < 8 * |a| && Hits(h, k, 8 * |a|, q) ==> IsSet(a, q)
  {
    hide IsPlace, BitPosition, IsSet;
    var bits := 8 * |a|;
    forall q | 0 <= q < bits && Hits(h, k, bits, q) ensures exists j :: 0 <= j < k && q == BitPosition(Probe(h, j), bits) {
      var j :| 0 <= j < k && IsPlace(h, j, bits, q);
      PlaceIs(h, j, bits, q);
    }
    forall j | 0 <= j < k ensures Hits(h, k, bits, BitPosition(Probe(h, j), bits)) {
      PlaceIs(h, j, bits, BitPosition(Probe(h, j), bits));
    }
  }

  lemma MatchIsPass(p: Bloom, key: Bytes, filter: Bytes)
    ensures MayMatch(p, key, filter) <==> Passes(p, key, filter)
  {
    hide Bit, IsSet, Matches, Hits;
    if |filter| >= 2 {
      var a, k: nat := Loaded(filter[..|filter| - 1]), filter[|filter| - 1];
      FilterParts(a, filter);
      MatchesMeans(a, p.hash(key), k);
    }
  }

  lemma FilterParts(a: Bits, filter: Bytes)
    requires filter != [] && a == Loaded(filter[..|filter| - 1])
    ensures forall q :: 0 <= q < 8 * |a| ==> (IsSet(a, q) <==> Bit(filter, q))
  {
    hide BitMask, BitOf;
    forall q | 0 <= q < 8 * |a| ensures IsSet(a, q) <==> Bit(filter, q) {
      MaskedBit(a[q / 8], q);
    }
  }

  /** MAIN: a key passes the filter of some keys exactly if each of its probes is one of theirs. */
  lemma PassesMeans(p: Bloom, keys: seq<Bytes>, key: Bytes)
    requires Sensible(p)
    ensures var bits := 8 * (|Filter(p, keys)| - 1);
      bits > 0 && (MayMatch(p, key, Filter(p, keys)) <==>
                   forall q :: 0 <= q < bits && Hits(p.hash(key), p.k, bits, q) ==> Probed(p, keys, bits, q))
  {
    hide Filter, MayMatch, Bit, Hits, Probed;
    FilterBits(p, keys);
    MatchIsPass(p, key, Filter(p, keys));
  }

  method AddKey(a: Bits, h: Word, k: nat) returns (r: Bits)
    requires a != []
    ensures r == SetProbes(a, h, k)
  {
    hide SetBit;
    r := a;
    var bits := 8 * |a|;
    var delta := Delta(h);
    var probe := h;
    for j := 0 to k
      invariant r == SetProbes(a, h, j) && probe == Probe(h, j)
    {
      r := SetBit(r, probe % bits);
      probe := (probe + delta) % 0x1_0000_0000;
    }
  }

  method CreateFilter(p: Bloom, keys: seq<Bytes>, dst: Bytes) returns (r: Bytes)
    requires Sensible(p)
    ensures r == dst + Filter(p, keys) && dst <= r && IsFilter(p, keys, r[|dst|..])
  {
    FilterBits(p, keys);
    hide IsFilter;
    var bits := |keys| * p.bitsPerKey;
    if bits < 64 { bits := 64; }
    var bytes := (bits + 7) / 8;
    ghost var empty: Bits := seq(ByteCount(p, |keys|), _ => 0);
    var a: Bits := seq(bytes, _ => 0);
    assert a == empty;
    hide SetProbes, ByteCount;
    for i := 0 to |keys|
      invariant |a| == bytes && a == SetKeys(p, empty, keys[..i])
    {
      a := AddKey(a, p.hash(keys[i]), p.k);
      assert keys[..i + 1][..i] == keys[..i];
    }
    assert keys[..|keys|] == keys;
    r := dst + Stored(a);
    r := r + [p.k];
    assert r == dst + (Stored(a) + [p.k]) && r[|dst|..] == Stored(a) + [p.k];
  }

  method AllSet(a: Bits, h: Word, k: nat) returns (r: bool)
    requires a != []
    ensures r == Matches(a, h, k)
  {
    var bits := 8 * |a|;
    var delta := Delta(h);
    var probe := h;
    for j := 0 to k
      invariant probe == Probe(h, j) && Matches(a, h, j)
    {
      if !IsSet(a, probe % bits) {
        assert !IsSet(a, BitPosition(Probe(h, j), 8 * |a|));
        return false;
      }
      probe := (probe + delta) % 0x1_0000_0000;
    }
    return true;
  }

  method KeyMayMatch(p: Bloom, key: Bytes, filter: Bytes) returns (r: bool)
    ensures r == MayMatch(p, key, filter) && (r <==> Passes(p, key, filter))
  {
    hide Passes, Matches;
    MatchIsPass(p, key, filter);
    var len := |filter|;
    if len < 2 { return false; }
    var k: nat := filter[len - 1];
    if k > 30 { return true; }
    r := AllSet(Loaded(filter[..len - 1]), p.hash(key), k);
  }
}
