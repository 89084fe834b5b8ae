/** The list of live snapshots (db/snapshot.h): linked in order of age, so that its oldest element has the
    least sequence number. */
module Snapshots {
  import opened DbFormat
  import opened Rings

  const HEAD: Ref := 0

  class SnapshotList {
    var links: Links
    var number: map<Ref, SequenceNumber>
    var issued: Ref
    ghost var list: seq<Ref>

    ghost predicate Valid()
      reads this
    {
      && Ring(links, HEAD, list) && HEAD < issued
      && (forall r :: r in number ==> HEAD < r < issued)
      && (forall i :: 0 <= i < |list| ==> list[i] in number)
      && forall i, j :: 0 <= i < j < |list| ==> number[list[i]] <= number[list[j]]
    }

    constructor ()
      ensures Valid() && list == []
    {
      links := Links(map[HEAD := HEAD], map[HEAD := HEAD]);
      number, issued, list := map[], HEAD + 1, [];
      new;
      assert Around(HEAD, []) == [HEAD, HEAD];
    }

    method IsEmpty() returns (empty: bool)
      requires Valid()
      ensures empty <==> list == []
    {
      OldestFollowsHead(links, HEAD, list);
      if list != [] { assert list[0] in list; }
      empty := links.next[HEAD] == HEAD;
    }

    /** The bound for what a compaction may drop: no live snapshot is older. */
    method Oldest() returns (s: SequenceNumber)
      requires Valid() && list != []
      ensures s == number[list[0]] && forall i :: 0 <= i < |list| ==> s <= number[list[i]]
    {
      OldestFollowsHead(links, HEAD, list);
      s := number[links.next[HEAD]];
    }

    method New(s: SequenceNumber) returns (snapshot: Ref)
      requires Valid() && forall i :: 0 <= i < |list| ==> number[list[i]] <= s
      modifies this
      ensures Valid() && list == old(list) + [snapshot] && snapshot !in old(number) && number == old(number)[snapshot := s]
    {
      hide Ring;
      snapshot := issued;
      NewIsUnlinked(snapshot);
      AppendToRing(links, HEAD, list, snapshot);
      var last := links.prev[HEAD];
      ghost var l := links;
      links := Links(links.next[snapshot := HEAD], links.prev[snapshot := last]);
      links := links.(next := links.next[links.prev[snapshot] := snapshot]);
      links := links.(prev := links.prev[links.next[snapshot] := snapshot]);
      assert links == Append(l, HEAD, snapshot);
      number, issued, list := number[snapshot := s], issued + 1, list + [snapshot];
    }

    lemma NewIsUnlinked(r: Ref)
      requires Valid() && r >= issued
      ensures r !in list && r !in number && r != HEAD
    {
    }

    /** The others keep their order. */
    method Delete(snapshot: Ref, ghost k: nat)
      requires Valid() && k < |list| && list[k] == snapshot
      modifies `links, `list
      ensures Valid() && list == old(list)[..k] + old(list)[k + 1..]
    {
      hide Ring;
      RemoveFromRing(links, HEAD, list, k);
      ghost var l, was := links, list;
      links := links.(next := links.next[links.prev[snapshot] := links.next[snapshot]]);
      links := links.(prev := links.prev[links.next[snapshot] := links.prev[snapshot]]);
      list := list[..k] + list[k + 1..];
      assert links == Remove(l, snapshot) by { NotItsOwnNeighbour(l, was, k); }
      forall i, j | 0 <= i < j < |list| ensures number[list[i]] <= number[list[j]] {
        assert list[i] == was[if i < k then i else i + 1] && list[j] == was[if j < k then j else j + 1];
      }
    }

    static lemma NotItsOwnNeighbour(l: Links, s: seq<Ref>, k: nat)
      requires Ring(l, HEAD, s) && k < |s|
      ensures s[k] in l.next && s[k] in l.prev && l.prev[s[k]] != s[k] && l.next[s[k]] != s[k]
    {
      var c := Around(HEAD, s);
      assert c[k + 1] == s[k];
      assert Linked(l, c[k], c[k + 1]) && Linked(l, c[k + 1], c[k + 2]);
    }
  }
}
