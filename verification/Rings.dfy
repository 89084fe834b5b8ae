/** Circular doubly linked lists with a dummy head (LRU_Remove and LRU_Append in util/cache.cc). The
    links of all handles are two maps, so a store through a pointer is an update of a map. */
module Rings {
  type Ref = nat

  datatype Links = Links(next: map<Ref, Ref>, prev: map<Ref, Ref>)

  ghost predicate Distinct(s: seq<Ref>) {
    forall i, j :: 0 <= i < j < |s| ==> s[i] != s[j]
  }

  /** From one element to the next, both ways. */
  ghost predicate Linked(l: Links, a: Ref, b: Ref) {
    a in l.next && b in l.prev && l.next[a] == b && l.prev[b] == a
  }

  function Around(head: Ref, s: seq<Ref>): seq<Ref> {
    [head] + s + [head]
  }

  /** The list of `head` holds `s`, oldest first, and closes to a ring. */
  ghost predicate Ring(l: Links, head: Ref, s: seq<Ref>) {
    && head !in s && Distinct(s)
    && forall i :: 0 <= i <= |s| ==> Linked(l, Around(head, s)[i], Around(head, s)[i + 1])
  }

  /** e->next->prev = e->prev; e->prev->next = e->next. */
  function Remove(l: Links, e: Ref): Links
    requires e in l.next && e in l.prev
  {
    Links(l.next[l.prev[e] := l.next[e]], l.prev[l.next[e] := l.prev[e]])
  }

  /** Insert `e` just before the head, as the newest. */
  function Append(l: Links, head: Ref, e: Ref): Links
    requires head in l.prev
  {
    var p := l.prev[head];
    Links(l.next[e := head][p := e], l.prev[e := p][head := e])
  }

  lemma RemoveFromRing(l: Links, head: Ref, s: seq<Ref>, k: nat)
    requires Ring(l, head, s) && k < |s|
    ensures s[k] in l.next && s[k] in l.prev
    ensures Ring(Remove(l, s[k]), head, s[..k] + s[k + 1..])
  {
    var c, e, t := Around(head, s), s[k], s[..k] + s[k + 1..];
    assert c[k + 1] == e;
    assert Linked(l, c[k], c[k + 1]) && Linked(l, c[k + 1], c[k + 2]);
    var l', d := Remove(l, e), Around(head, t);
    forall i | 0 <= i <= |t| ensures Linked(l', d[i], d[i + 1]) {
      var j := if i < k then i else i + 1;
      assert Linked(l, c[j], c[j + 1]);
      assert d[i] == c[if i <= k then i else i + 1] && d[i + 1] == c[if i < k then i + 1 else i + 2];
    }
  }

  lemma RemoveFromOther(l: Links, head: Ref, s: seq<Ref>, k: nat, head': Ref, s': seq<Ref>)
    requires Ring(l, head, s) && k < |s| && Ring(l, head', s')
    requires head != head' && head !in s' && head' !in s && forall r :: r in s ==> r !in s'
    ensures s[k] in l.next && s[k] in l.prev && Ring(Remove(l, s[k]), head', s')
  {
    var c, c' := Around(head, s), Around(head', s');
    assert c[k + 1] == s[k];
    assert Linked(l, c[k], c[k + 1]) && Linked(l, c[k + 1], c[k + 2]);
    assert c[k] == head || c[k] in s;
    assert c[k + 2] == head || c[k + 2] in s;
    forall i | 0 <= i <= |s'| ensures Linked(Remove(l, s[k]), c'[i], c'[i + 1]) {
      assert Linked(l, c'[i], c'[i + 1]);
      assert (c'[i] == head' || c'[i] in s') && (c'[i + 1] == head' || c'[i + 1] in s');
    }
  }

  lemma AppendToRing(l: Links, head: Ref, s: seq<Ref>, e: Ref)
    requires Ring(l, head, s) && e !in s && e != head
    ensures head in l.prev && Ring(Append(l, head, e), head, s + [e])
  {
    var c, t := Around(head, s), s + [e];
    assert Linked(l, c[|s|], c[|s| + 1]) && c[|s| + 1] == head;
    var l', d := Append(l, head, e), Around(head, t);
    forall i | 0 <= i <= |t| ensures Linked(l', d[i], d[i + 1]) {
      if i < |s| {
        assert Linked(l, c[i], c[i + 1]);
        assert d[i] == c[i] && d[i + 1] == c[i + 1] == s[i];
        assert i > 0 ==> c[i] == s[i - 1];
        assert c[|s|] == if |s| > 0 then s[|s| - 1] else head;
      } else {
        assert d[|s|] == c[|s|] && d[|s| + 1] == e && d[|s| + 2] == head;
      }
    }
  }

  lemma AppendToOther(l: Links, head: Ref, s: seq<Ref>, e: Ref, head': Ref, s': seq<Ref>)
    requires Ring(l, head, s) && Ring(l, head', s') && e !in s' && e != head'
    requires head != head' && head !in s' && head' !in s && forall r :: r in s ==> r !in s'
    ensures head in l.prev && Ring(Append(l, head, e), head', s')
  {
    var c, c' := Around(head, s), Around(head', s');
    assert Linked(l, c[|s|], c[|s| + 1]) && c[|s| + 1] == head;
    assert c[|s|] == head || c[|s|] in s;
    forall i | 0 <= i <= |s'| ensures Linked(Append(l, head, e), c'[i], c'[i + 1]) {
      assert Linked(l, c'[i], c'[i + 1]);
      assert (c'[i] == head' || c'[i] in s') && (c'[i + 1] == head' || c'[i + 1] in s');
    }
  }

  /** The oldest element follows the head; an empty ring is its head alone. */
  lemma OldestFollowsHead(l: Links, head: Ref, s: seq<Ref>)
    requires Ring(l, head, s)
    ensures head in l.next && l.next[head] == if s == [] then head else s[0]
  {
    assert Linked(l, Around(head, s)[0], Around(head, s)[1]);
  }
}
