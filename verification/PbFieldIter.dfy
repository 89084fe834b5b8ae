/** The field iterator and the bits for required fields (nanopb/pb_common.c, pb_decode.c). */
module PbFieldIter {
  import opened Coding
  import opened PbDecode
  import opened PbMessages
  import opened Wrappers

  /** pb_field_iter_t over a descriptor: a position that goes round, and how many required fields come
      before it. */
  class FieldIter {
    const fields: seq<Field>
    var pos: nat
    var required: nat

    ghost predicate Valid()
      reads this
    {
      pos <= |fields| && (fields != [] ==> pos < |fields|) && required == RequiredBefore(fields, pos)
    }

    constructor (fields: seq<Field>)
      ensures Valid() && this.fields == fields && pos == 0
    {
      this.fields, pos, required := fields, 0, 0;
    }

    method Next() returns (more: bool)
      requires Valid()
      modifies this
      ensures Valid() && more == (old(pos) + 1 < |fields|)
      ensures fields != [] ==> pos == if more then old(pos) + 1 else 0
    {
      if fields == [] {
        return false;
      }
      if pos + 1 == |fields| {
        // Wrapped back to the beginning.
        pos, required := 0, 0;
        return false;
      }
      if fields[pos].rule.Required? {
        required := required + 1;
      }
      pos := pos + 1;
      more := true;
    }

    /** The search starts where the last one ended and goes round once. */
    method Find(tag: nat) returns (found: bool)
      requires Valid() && forall i, j :: 0 <= i < j < |fields| ==> fields[i].tag != fields[j].tag
      modifies this
      ensures Valid() && (found ==> pos < |fields|)
      ensures FindField(fields, tag) == if found then Some(pos) else None
    {
      if fields == [] {
        return false;
      }
      var start := pos;
      ghost var round := false;
      while true
        invariant Valid() && (if round then pos < start else pos >= start)
        invariant round ==> forall j :: start <= j < |fields| ==> fields[j].tag != tag
        invariant forall j :: (if round then 0 else start) <= j < pos ==> fields[j].tag != tag
        decreases if round then start - pos else |fields| + start - pos
      {
        if fields[pos].tag == tag {
          FirstIs(fields, tag, pos);
          return true;
        }
        ghost var was := pos;
        var more := Next();
        if !more { round := true; }
        if pos == start {
          break;
        }
      }
      NoneHas(fields, tag);
      found := false;
    }

    /** The number of required fields is found by going on to the last field. */
    method CountRequired() returns (count: nat)
      requires Valid()
      modifies this
      ensures Valid() && count == RequiredBefore(fields, |fields|)
    {
      if fields == [] {
        return 0;
      }
      var lastRequired := false;
      count := 0;
      var more := true;
      while more
        invariant Valid()
        invariant !more ==> count == RequiredBefore(fields, |fields| - 1) && lastRequired == fields[|fields| - 1].rule.Required?
        decreases more, |fields| - pos
      {
        count, lastRequired := required, fields[pos].rule.Required?;
        more := Next();
      }
      if lastRequired {
        count := count + 1;
      }
    }
  }

  lemma {:induction false} FirstIs(fields: seq<Field>, tag: nat, i: nat)
    requires i < |fields| && fields[i].tag == tag && forall a, b :: 0 <= a < b < |fields| ==> fields[a].tag != fields[b].tag
    ensures FindField(fields, tag) == Some(i)
  {
    if i > 0 {
      assert fields[0].tag != fields[i].tag;
      FirstIs(fields[1..], tag, i - 1);
    }
  }

  lemma {:induction false} NoneHas(fields: seq<Field>, tag: nat)
    requires forall i :: 0 <= i < |fields| ==> fields[i].tag != tag
    ensures FindField(fields, tag) == None
  {
    if fields != [] { NoneHas(fields[1..], tag); }
  }

  // -------------------------------------------------------------------- bits

  function Pow2(n: nat): (p: nat)
    ensures p > 0
  {
    if n == 0 then 1 else 2 * Pow2(n - 1)
  }

  /** The word with these bits, lowest first. */
  function WordOf(bits: seq<bool>): nat {
    if bits == [] then 0 else (if bits[0] then 1 else 0) + 2 * WordOf(bits[1..])
  }

  /** word |= 1 << k. */
  function SetBit(word: nat, k: nat): nat {
    if word / Pow2(k) % 2 == 1 then word else word + Pow2(k)
  }

  lemma Halve(w: nat, p: nat)
    requires p > 0
    ensures w / (2 * p) == w / 2 / p
  {
    var q, r := w / (2 * p), w % (2 * p);
    assert w == 2 * p * q + r;
    assert w / 2 == p * q + r / 2;
    assert r / 2 < p;
    Quotient(w / 2, p, q, r / 2);
  }

  lemma Quotient(a: nat, p: nat, q: nat, r: nat)
    requires a == p * q + r && r < p
    ensures a / p == q
  {
    var d := a / p - q;
    assert a == p * (a / p) + a % p;
    assert p * d == r - a % p;
    Multiple(p, d);
  }

  lemma {:induction false} SetBitSets(bits: seq<bool>, k: nat)
    requires k < |bits|
    ensures WordOf(bits) / Pow2(k) % 2 == (if bits[k] then 1 else 0)
    ensures SetBit(WordOf(bits), k) == WordOf(bits[k := true])
  {
    if k > 0 {
      var w := WordOf(bits);
      SetBitSets(bits[1..], k - 1);
      Halve(w, Pow2(k - 1));
      assert w / 2 == WordOf(bits[1..]);
      assert bits[k := true][1..] == bits[1..][k - 1 := true];
      assert bits[k := true][0] == bits[0];
    } else {
      assert bits[0 := true][1..] == bits[1..];
    }
  }

  /** A word of r ones has exactly the lowest r bits. */
  lemma {:induction false} LowOnes(bits: seq<bool>, r: nat)
    requires r <= |bits|
    ensures WordOf(bits) == Pow2(r) - 1 <==> forall i :: 0 <= i < |bits| ==> bits[i] == (i < r)
  {
    if r == 0 {
      if bits != [] {
        LowOnes(bits[1..], 0);
        assert (forall i :: 0 <= i < |bits| ==> !bits[i]) <==> !bits[0] && forall i :: 0 <= i < |bits[1..]| ==> !bits[1..][i];
      }
    } else {
      LowOnes(bits[1..], r - 1);
      assert forall i :: 0 <= i < |bits[1..]| ==> bits[1..][i] == bits[i + 1];
    }
  }

  // The words of fields_seen.
  const WORDS: nat := 2
  const ALL_BITS: nat := 0xFFFF_FFFF

  function BitsOf(seen: set<nat>, first: nat): (bits: seq<bool>)
    ensures |bits| == 32 && forall i :: 0 <= i < 32 ==> bits[i] == (first + i in seen)
  {
    seq(32, i requires 0 <= i < 32 => first + i in seen)
  }

  ghost predicate Marks(words: seq<nat>, seen: set<nat>) {
    |words| == WORDS && words[0] == WordOf(BitsOf(seen, 0)) && words[1] == WordOf(BitsOf(seen, 32))
  }

  lemma {:induction false} NoBits(bits: seq<bool>)
    requires forall i :: 0 <= i < |bits| ==> !bits[i]
    ensures WordOf(bits) == 0
  {
    if bits != [] { NoBits(bits[1..]); }
  }

  lemma NothingMarked()
    ensures Marks([0, 0], {})
  {
    NoBits(BitsOf({}, 0));
    NoBits(BitsOf({}, 32));
  }

  method Mark(words: seq<nat>, n: nat, ghost seen: set<nat>) returns (r: seq<nat>)
    requires Marks(words, seen) && n < MAX_REQUIRED_FIELDS
    ensures Marks(r, seen + {n})
  {
    hide WordOf, SetBit;
    ghost var was := BitsOf(seen, n / 32 * 32);
    SetBitSets(was, n % 32);
    assert was[n % 32 := true] == BitsOf(seen + {n}, n / 32 * 32);
    assert BitsOf(seen, 0) == BitsOf(seen + {n}, 0) || n < 32;
    assert BitsOf(seen, 32) == BitsOf(seen + {n}, 32) || n >= 32;
    r := words[n / 32 := SetBit(words[n / 32], n % 32)];
  }

  lemma Powers32()
    ensures Pow2(32) == ALL_BITS + 1
  {
    assert Pow2(8) == 256;
    PowerSum(8, 8);
    PowerSum(16, 16);
  }

  lemma {:induction false} PowerSum(a: nat, b: nat)
    ensures Pow2(a + b) == Pow2(a) * Pow2(b)
  {
    if a > 0 { PowerSum(a - 1, b); }
  }

  /** All bits shifted right by 32 - r leave r ones. */
  lemma ShiftedOnes(r: nat)
    requires 0 < r < 32
    ensures ALL_BITS / Pow2(32 - r) == Pow2(r) - 1
  {
    Powers32();
    PowerSum(r, 32 - r);
    OnesAbove(ALL_BITS, Pow2(r), Pow2(32 - r));
  }

  lemma OnesAbove(x: nat, a: nat, b: nat)
    requires x + 1 == a * b && a > 0 && b > 0
    ensures x / b == a - 1
  {
    assert b * (a - 1) == a * b - b;
    Quotient(x, b, a - 1, b - 1);
  }

  /** The words are those of the first `count` required fields, if none beyond was marked. */
  method CheckRequired(words: seq<nat>, count: nat, ghost seen: set<nat>) returns (ok: bool)
    requires Marks(words, seen) && count <= MAX_REQUIRED_FIELDS && forall n :: n in seen ==> n < count
    ensures ok <==> forall n :: 0 <= n < count ==> n in seen
  {
    hide WordOf, BitsOf;
    Powers32();
    for i := 0 to count / 32
      invariant forall n :: 0 <= n < 32 * i ==> n in seen
    {
      WholeWord(words[i], seen, 32 * i, 32);
      if words[i] != ALL_BITS {
        return false;
      }
    }
    var r := count % 32;
    if r != 0 {
      ShiftedOnes(r);
      WholeWord(words[count / 32], seen, count / 32 * 32, r);
      if words[count / 32] != ALL_BITS / Pow2(32 - r) {
        return false;
      }
    }
    ok := true;
  }

  lemma WholeWord(word: nat, seen: set<nat>, first: nat, r: nat)
    requires word == WordOf(BitsOf(seen, first)) && r <= 32 && forall n :: n in seen && n >= first ==> n < first + r || n >= first + 32
    ensures word == Pow2(r) - 1 <==> forall n :: first <= n < first + r ==> n in seen
  {
    hide WordOf, Pow2;
    var bits := BitsOf(seen, first);
    LowOnes(bits, r);
    if forall n :: first <= n < first + r ==> n in seen {
      forall i | 0 <= i < 32 ensures bits[i] == (i < r) {}
    }
    if forall i :: 0 <= i < 32 ==> bits[i] == (i < r) {
      forall n | first <= n < first + r ensures n in seen { assert bits[n - first]; }
    }
  }
}
