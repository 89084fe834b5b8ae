/** Which bytes are a 32-bit number of a message (pb_decode_varint32 in nanopb/pb_decode.c): up to five groups of
    seven bits, and after those groups without bits, or a sign extension to 64 bits. */
module PbVarint32 {
  import opened Coding
  import opened Formats
  import opened PbDecode
  import opened Wrappers

  /** Bytes of which the last, and no other, has its top bit clear. */
  ghost predicate Terminated(g: Bytes) {
    g != [] && g[|g| - 1] < 128 && forall i :: 0 <= i < |g| - 1 ==> g[i] >= 128
  }

  /** The 32 bits that the first five groups give. */
  function LowBits(g: Bytes): nat {
    Base128(if |g| <= 5 then g else g[..5]) % TWO_TO_THE_32
  }

  /** What the j-th byte may be, past the 32 bits. */
  predicate MayFollow(b: Byte, j: nat, bits: nat) {
    b % 128 == 0 || (bits >= 0x8000_0000 && b == if j < 9 then 0xFF else 0x01)
  }

  ghost predicate IsNumber(g: Bytes) {
    (|g| == 5 ==> g[4] < 16) && forall j :: 5 <= j < |g| ==> MayFollow(g[j], j, LowBits(g))
  }

  /** From the sixth byte on nothing is added. */
  lemma {:induction false} PastTheBits(g: Bytes, rest: Bytes, bits: nat, k: nat)
    requires Terminated(g) && k >= 5 && bits < TWO_TO_THE_32
    ensures Varint32More(g + rest, bits, 7 * k) ==
      if forall j :: 0 <= j < |g| ==> MayFollow(g[j], k + j, bits) then Some((bits, rest)) else None
    decreases |g|
  {
    hide Power128;
    var s := g + rest;
    assert s[0] == g[0] && s[1..] == g[1..] + rest;
    MisplacedIs(g[0], bits, k);
    OneMoreByte(s, bits, k);
    if |g| == 1 {
      assert g[1..] + rest == rest;
    } else if MayFollow(g[0], k, bits) {
      var t := g[1..];
      assert Terminated(t);
      PastTheBits(t, rest, bits, k + 1);
      assert forall j :: 0 <= j < |t| ==> t[j] == g[j + 1];
      assert forall j :: 0 < j < |g| ==> g[j] == t[j - 1];
    }
  }

  lemma MisplacedIs(b: Byte, bits: nat, k: nat)
    requires k >= 5
    ensures Misplaced(b, bits, 7 * k) <==> !MayFollow(b, k, bits)
  {
  }

  lemma OneMoreByte(s: Bytes, bits: nat, k: nat)
    requires s != [] && k >= 5 && bits < TWO_TO_THE_32
    ensures Varint32More(s, bits, 7 * k) ==
      if Misplaced(s[0], bits, 7 * k) then None
      else if s[0] >= 128 then Varint32More(s[1..], bits, 7 * (k + 1)) else Some((bits, s[1..]))
  {
    hide Misplaced, Power128;
    assert 7 * k % 7 == 0 && 7 * k >= 32;
  }

  /** Before that, seven bits a byte. */
  lemma OneEarlyByte(s: Bytes, bits: nat, k: nat)
    requires s != [] && 1 <= k <= 4 && bits < TWO_TO_THE_32
    ensures var next := (bits + s[0] % 128 * Power128(k)) % TWO_TO_THE_32;
      Varint32More(s, bits, 7 * k) ==
      if s[0] >= 128 then Varint32More(s[1..], next, 7 * (k + 1)) else if k == 4 && s[0] >= 16 then None else Some((next, s[1..]))
  {
    hide Misplaced, Power128;
    assert 7 * k / 7 == k && 7 * k % 7 == 0 && 7 * k < 32 && (7 * k == 28 <==> k == 4);
    assert s[0] / 16 != 0 <==> s[0] >= 16;
  }

  /** The groups joined so far. */
  lemma {:induction false} Base128Append(a: Bytes, b: Byte)
    ensures Base128(a + [b]) == Base128(a) + b % 128 * Power128(|a|)
  {
    var x: nat := b % 128;
    if a == [] {
      assert (a + [b])[1..] == [];
    } else {
      assert (a + [b])[1..] == a[1..] + [b];
      Base128Append(a[1..], b);
      Carry(Base128(a[1..]), x, Power128(|a| - 1));
    }
  }

  /** One of the first five bytes. */
  lemma EarlyByte(g: Bytes, rest: Bytes, k: nat)
    requires 1 <= k <= 4 && k < |g|
    ensures Varint32More(g[k..] + rest, Base128(g[..k]) % TWO_TO_THE_32, 7 * k) ==
      if g[k] >= 128 then Varint32More(g[k + 1..] + rest, Base128(g[..k + 1]) % TWO_TO_THE_32, 7 * (k + 1))
      else if k == 4 && g[4] >= 16 then None else Some((Base128(g[..k + 1]) % TWO_TO_THE_32, g[k + 1..] + rest))
  {
    hide Power128, Varint32More, Base128;
    var s, before := g[k..] + rest, Base128(g[..k]);
    OneEarlyByte(s, before % TWO_TO_THE_32, k);
    assert s[0] == g[k] && s[1..] == g[k + 1..] + rest && g[..k + 1] == g[..k] + [g[k]];
    Base128Append(g[..k], g[k]);
    var added := g[k] % 128 * Power128(k);
    ModuloSum(before, added, TWO_TO_THE_32);
  }

  /** Standing behind the first k bytes. */
  lemma {:induction false} Onwards(g: Bytes, rest: Bytes, k: nat)
    requires Terminated(g) && 1 <= k <= 5 && k < |g|
    ensures Varint32More(g[k..] + rest, Base128(g[..k]) % TWO_TO_THE_32, 7 * k) == if IsNumber(g) then Some((LowBits(g), rest)) else None
    decreases 5 - k
  {
    hide Varint32More, Base128, MayFollow;
    if k == 5 {
      var t, bits := g[5..], Base128(g[..5]) % TWO_TO_THE_32;
      PastTheBits(t, rest, bits, 5);
      assert forall j :: 0 <= j < |t| ==> t[j] == g[5 + j];
      assert forall j :: 5 <= j < |g| ==> g[j] == t[j - 5];
    } else {
      EarlyByte(g, rest, k);
      if k + 1 < |g| {
        Onwards(g, rest, k + 1);
      } else {
        assert g[k + 1..] + rest == rest && g[..k + 1] == g;
      }
    }
  }

  /** MAIN: such bytes are read as their low 32 bits if they are a number, and refused else. */
  lemma Varint32Means(g: Bytes, rest: Bytes)
    requires Terminated(g)
    ensures Varint32(g + rest) == if IsNumber(g) then Some((LowBits(g), rest)) else None
  {
    hide Varint32More;
    var s := g + rest;
    assert s[0] == g[0] && s[1..] == g[1..] + rest && g[..1] == [g[0]];
    assert Base128([g[0]]) == g[0] % 128 by { assert [g[0]][1..] == []; }
    if |g| == 1 {
      assert g == [g[0]] && g[1..] + rest == rest;
    } else {
      Onwards(g, rest, 1);
    }
  }
}
