/** The steps of the store (db/db_impl.cc): group write, memtable switch, flush, trivial move,
    compaction, and taking and releasing a snapshot. A compaction is one step here; Interleaved
    takes it apart. */
module Steps {
  import opened Wrappers
  import opened DbFormat
  import opened Versions
  import opened VersionBuilder
  import opened Boundary
  import opened Inputs
  import opened Compactions
  import opened States

  datatype Op = PutOp(user: UserKey, value: Value) | DeleteOp(user: UserKey)

  datatype Step =
    | Write(ops: seq<Op>)
    | SwitchMemTable
    | FlushNothing
    | Flush(level: nat, file: File)
    | TrivialMove(level: nat, file: File)
    | Compact(level: nat, in0: seq<File>, in1: seq<File>, input: seq<Entry>, outputs: seq<File>)
    | TakeSnapshot
    | ReleaseSnapshot(index: nat)

  /** MemTableInserter: operation number `i` of a batch that starts at `first`. */
  function OpEntry(op: Op, sn: SequenceNumber): Entry {
    match op
    case PutOp(user, value) => Entry(InternalKey(user, sn, TypeValue), value)
    case DeleteOp(user) => Entry(InternalKey(user, sn, TypeDeletion), "")
  }

  ghost function BatchEntries(ops: seq<Op>, first: nat): set<Entry>
    requires first + |ops| <= MAX_SEQUENCE_NUMBER
  {
    set i | 0 <= i < |ops| :: OpEntry(ops[i], first + i)
  }

  /** A version edit that takes `in0` from the level above `target` and replaces `in1` by
      `outputs` at `target`. */
  ghost predicate Installs(before: seq<seq<File>>, after: seq<seq<File>>, target: nat,
                           in0: seq<File>, in1: seq<File>, outputs: seq<File>)
  {
    && |before| == |after| == NUM_LEVELS
    && (forall l :: 0 <= l < NUM_LEVELS ==> Ordered(after[l]))
    && (forall l :: 0 <= l < NUM_LEVELS && l != target && l + 1 != target ==> Members(after[l]) == Members(before[l]))
    && (0 < target <= NUM_LEVELS ==> Members(after[target - 1]) == Members(before[target - 1]) - Members(in0))
    && (target < NUM_LEVELS ==> Members(after[target]) == Members(before[target]) - Members(in1) + Members(outputs))
  }

  function SmallestSnapshot(st: State): nat {
    if st.snapshots == [] then st.lastSequence else st.snapshots[0]
  }

  /** The merged input holds exactly the entries of the chosen files, in key order. */
  ghost predicate Merges(input: seq<Entry>, in0: seq<File>, in1: seq<File>) {
    Sorted(input) && Entries(input) == LevelEntries(in0) + LevelEntries(in1)
  }

  /** The inputs of a compaction are files of their levels. */
  ghost predicate Stored(levels: seq<seq<File>>, level: nat, in0: seq<File>, in1: seq<File>)
    requires |levels| == NUM_LEVELS && level + 1 < NUM_LEVELS
  {
    (forall f :: f in in0 ==> f in levels[level]) && (forall f :: f in in1 ==> f in levels[level + 1])
  }

  lemma LegalIsStored(levels: seq<seq<File>>, level: nat, in0: seq<File>, in1: seq<File>)
    requires |levels| == NUM_LEVELS && level + 1 < NUM_LEVELS && LegalInputs(levels, level, in0, in1)
    ensures Stored(levels, level, in0, in1)
  {
  }

  ghost predicate FlushLevelOk(levels: seq<seq<File>>, level: nat, f: File)
    requires |levels| == NUM_LEVELS
  {
    && level <= MAX_MEM_COMPACT_LEVEL
    && (level > 0 ==> forall l :: 0 <= l <= level ==> !Overlaps(levels[l], f.smallest.user, f.largest.user))
  }

  ghost predicate WriteTo(st: State, ops: seq<Op>, st': State) {
    && st.lastSequence + |ops| < MAX_SEQUENCE_NUMBER
    && Sorted(st'.mem) && Entries(st'.mem) == Entries(st.mem) + BatchEntries(ops, st.lastSequence + 1)
    && st' == st.(mem := st'.mem, lastSequence := st.lastSequence + |ops|)
  }

  ghost predicate FlushTo(st: State, level: nat, f: File, st': State)
    requires |st.levels| == NUM_LEVELS
  {
    && st.imm == Some(f.entries) && EndsMatch(f) && f.number == st.nextFile
    && FlushLevelOk(st.levels, level, f)
    && Installs(st.levels, st'.levels, level, [], [], [f])
    && st' == st.(imm := None, levels := st'.levels, nextFile := st.nextFile + 1)
  }

  ghost predicate MoveTo(st: State, level: nat, f: File, st': State)
    requires |st.levels| == NUM_LEVELS
  {
    && level + 1 < NUM_LEVELS && LegalInputs(st.levels, level, [f], [])
    && Installs(st.levels, st'.levels, level + 1, [f], [], [f])
    && st' == st.(levels := st'.levels)
  }

  ghost predicate CompactTo(st: State, level: nat, in0: seq<File>, in1: seq<File>, input: seq<Entry>, outputs: seq<File>, st': State)
    requires |st.levels| == NUM_LEVELS
  {
    && level + 1 < NUM_LEVELS && LegalInputs(st.levels, level, in0, in1)
    && Merges(input, in0, in1)
    && OutputsAre(outputs, Survivors(input, SmallestSnapshot(st), st.levels, level), st.nextFile)
    && Installs(st.levels, st'.levels, level + 1, in0, in1, outputs)
    && st' == st.(levels := st'.levels, nextFile := st.nextFile + |outputs|)
  }

  ghost predicate SwitchTo(st: State, st': State) {
    st.imm.None? && st' == st.(mem := [], imm := Some(st.mem), nextFile := st.nextFile + 1)
  }

  ghost predicate FlushNothingTo(st: State, st': State) {
    st.imm == Some([]) && st' == st.(imm := None, nextFile := st.nextFile + 1)
  }

  ghost predicate TakeTo(st: State, st': State) {
    st' == st.(snapshots := st.snapshots + [st.lastSequence])
  }

  ghost predicate ReleaseTo(st: State, index: nat, st': State) {
    index < |st.snapshots| && st' == st.(snapshots := st.snapshots[..index] + st.snapshots[index + 1..])
  }

  ghost predicate StepTo(st: State, step: Step, st': State)
    requires |st.levels| == NUM_LEVELS
  {
    match step
    case Write(ops) => WriteTo(st, ops, st')
    case SwitchMemTable => SwitchTo(st, st')
    case FlushNothing => FlushNothingTo(st, st')
    case Flush(level, f) => FlushTo(st, level, f, st')
    case TrivialMove(level, f) => MoveTo(st, level, f, st')
    case Compact(level, in0, in1, input, outputs) => CompactTo(st, level, in0, in1, input, outputs, st')
    case TakeSnapshot => TakeTo(st, st')
    case ReleaseSnapshot(index) => ReleaseTo(st, index, st')
  }
}
