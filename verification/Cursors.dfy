/** What any iterator of the store stands for: a position in one sorted sequence of entries. */
module Cursors {
  import opened Wrappers
  import opened DbFormat
  import opened Versions
  import opened Lookup

  datatype CursorOp = ToFirst | ToLast | SeekTo(target: InternalKey) | Next | Prev

  /** Next and Prev demand a valid position. */
  predicate Allowed(at: Option<nat>, op: CursorOp) {
    op.Next? || op.Prev? ==> at.Some?
  }

  function Move(es: seq<Entry>, at: Option<nat>, op: CursorOp): Option<nat>
    requires Allowed(at, op)
  {
    match op
    case ToFirst => IfInside(0, |es|)
    case ToLast => IfInside(|es| - 1, |es|)
    case SeekTo(target) => IfInside(Seek(es, target), |es|)
    case Next => IfInside(at.value + 1, |es|)
    case Prev => IfInside(at.value - 1, |es|)
  }

  lemma SortedAt(es: seq<Entry>, i: int, j: int)
    requires Sorted(es)
    ensures 0 <= i < j < |es| ==> Before(es[i].key, es[j].key)
  {
  }

  lemma SeekIs(es: seq<Entry>, key: InternalKey, i: nat)
    requires Sorted(es) && i <= |es|
    requires i > 0 ==> Before(es[i - 1].key, key)
    requires i < |es| ==> AtOrBefore(key, es[i].key)
    ensures Seek(es, key) == i
  {
    var j := Seek(es, key);
    SortedAt(es, j, i - 1);
    SortedAt(es, i, j);
  }

  /** Seeking is monotone, and the entries before a key are exactly those Seek skips. */
  lemma SeekSplits(es: seq<Entry>, key: InternalKey, j: nat)
    requires Sorted(es) && j < |es|
    ensures j < Seek(es, key) <==> Before(es[j].key, key)
  {
    var i := Seek(es, key);
    assert i < j ==> Before(es[i].key, es[j].key);
  }
}
