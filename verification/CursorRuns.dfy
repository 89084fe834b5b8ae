/** Whole runs of iterator operations, with changes of direction: after any of them each iterator stands
    where an index into its one sorted sequence would. */
module CursorRuns {
  import opened Wrappers
  import opened DbFormat
  import opened Lookup
  import opened Cursors
  import DbIter
  import Merger
  import TwoLevel

  /** Every step of the run is allowed where it is taken. */
  predicate AllAllowed(es: seq<Entry>, at: Option<nat>, ops: seq<CursorOp>)
    decreases |ops|
  {
    ops == [] || (Allowed(at, ops[0]) && AllAllowed(es, Move(es, at, ops[0]), ops[1..]))
  }

  function Played(es: seq<Entry>, at: Option<nat>, ops: seq<CursorOp>): Option<nat>
    requires AllAllowed(es, at, ops)
    decreases |ops|
  {
    if ops == [] then at else Played(es, Move(es, at, ops[0]), ops[1..])
  }

  /** Any run over a merge of children. */
  method PlayMerging(iter: Merger.MergingIterator, ops: seq<CursorOp>)
    requires iter.Valid() && AllAllowed(iter.merged, iter.at, ops)
    modifies iter, iter.positions
    ensures iter.Valid() && iter.at == Played(iter.merged, old(iter.at), ops)
  {
    hide Merger.MergingIterator.Valid, Move;
    ghost var end := Played(iter.merged, iter.at, ops);
    for i := 0 to |ops|
      invariant iter.Valid() && AllAllowed(iter.merged, iter.at, ops[i..]) && Played(iter.merged, iter.at, ops[i..]) == end
    {
      assert ops[i..][0] == ops[i] && ops[i..][1..] == ops[i + 1..];
      match ops[i]
      case ToFirst => iter.SeekToFirst();
      case ToLast => iter.SeekToLast();
      case SeekTo(target) => iter.SeekTarget(target);
      case Next => iter.MoveNext();
      case Prev => iter.MovePrev();
    }
  }

  /** Any run over an index and its blocks. */
  method PlayTwoLevel(iter: TwoLevel.TwoLevelIterator, ops: seq<CursorOp>)
    requires iter.Valid() && AllAllowed(TwoLevel.All(iter.index, iter.blocks), iter.At(), ops)
    modifies iter
    ensures iter.Valid() && iter.At() == Played(TwoLevel.All(iter.index, iter.blocks), old(iter.At()), ops)
  {
    ghost var es := TwoLevel.All(iter.index, iter.blocks);
    hide Move, TwoLevel.Indexes, TwoLevel.All, TwoLevel.Whole;
    ghost var end := Played(es, iter.At(), ops);
    for i := 0 to |ops|
      invariant iter.Valid() && AllAllowed(es, iter.At(), ops[i..]) && Played(es, iter.At(), ops[i..]) == end
    {
      assert ops[i..][0] == ops[i] && ops[i..][1..] == ops[i + 1..];
      match ops[i]
      case ToFirst => iter.SeekToFirst();
      case ToLast => iter.SeekToLast();
      case SeekTo(target) => iter.SeekTarget(target);
      case Next => iter.MoveNext();
      case Prev => iter.MovePrev();
    }
  }

  ghost predicate AllUserAllowed(es: seq<Entry>, s: nat, at: Option<nat>, ops: seq<DbIter.UserOp>)
    decreases |ops|
  {
    ops == [] || ((ops[0].UserNext? || ops[0].UserPrev? ==> at.Some?) && AllUserAllowed(es, s, DbIter.MoveLive(es, s, at, ops[0]), ops[1..]))
  }

  ghost function PlayedLive(es: seq<Entry>, s: nat, at: Option<nat>, ops: seq<DbIter.UserOp>): Option<nat>
    requires AllUserAllowed(es, s, at, ops)
    decreases |ops|
  {
    if ops == [] then at else PlayedLive(es, s, DbIter.MoveLive(es, s, at, ops[0]), ops[1..])
  }

  /** Any run of a database iterator: an index into the list of keys live at its sequence number. */
  method PlayLive(iter: DbIter.DBIter, ops: seq<DbIter.UserOp>)
    requires iter.Valid() && AllUserAllowed(iter.iter.merged, iter.sequence, iter.at, ops)
    modifies iter, iter.iter, iter.iter.positions
    ensures iter.Valid() && iter.at == PlayedLive(iter.iter.merged, iter.sequence, old(iter.at), ops)
  {
    hide DbIter.DBIter.Valid, DbIter.MoveLive;
    ghost var end := PlayedLive(iter.iter.merged, iter.sequence, iter.at, ops);
    for i := 0 to |ops|
      invariant iter.Valid() && AllUserAllowed(iter.iter.merged, iter.sequence, iter.at, ops[i..])
      invariant PlayedLive(iter.iter.merged, iter.sequence, iter.at, ops[i..]) == end
    {
      assert ops[i..][0] == ops[i] && ops[i..][1..] == ops[i + 1..];
      match ops[i]
      case UserToFirst => iter.SeekToFirst();
      case UserToLast => iter.SeekToLast();
      case UserSeek(target) => iter.SeekUser(target);
      case UserNext => iter.MoveNext();
      case UserPrev => iter.MovePrev();
    }
  }
}
