/** A run of the store in which a deleted value comes back: a compaction cuts its output between a
    deletion marker and the older value of the same key, and a later compaction picks up only the
    file with the marker (SetupOtherInputs adds boundary files at its own level only).

    The one-letter values stand for large ones. An output file is cut once it reaches its size limit,
    which is at least 1 MB, so the first value of H stands for whatever fills the file up to the entry
    where the marker completes its last block; where a file is cut is not part of the steps, which
    hold for every way to cut. A file at level 2 with nothing to merge with is rewritten, rather than
    moved, by a manual compaction, which CompactRange reaches once some other file lies deeper. */
module Resurfacing {
  import opened Wrappers
  import opened DbFormat
  import opened Versions
  import opened VersionBuilder
  import opened Boundary
  import opened Inputs
  import opened Compactions
  import opened States
  import opened Steps
  import opened Safety
  import opened Runs

  const H: UserKey := 1.0
  const K: UserKey := 2.0

  const H1: Entry := Entry(InternalKey(H, 1, TypeValue), "a")
  const K2: Entry := Entry(InternalKey(K, 2, TypeValue), "b")
  const K3: Entry := Entry(InternalKey(K, 3, TypeDeletion), "")
  const H4: Entry := Entry(InternalKey(H, 4, TypeValue), "c")

  const F: File := File(3, 1, H1.key, K2.key, [H1, K3, K2])
  const F1: File := File(4, 1, H1.key, K3.key, [H1, K3])
  const F2: File := File(5, 1, K2.key, K2.key, [K2])
  const G: File := File(7, 1, H4.key, H4.key, [H4])
  const G1: File := File(8, 1, H4.key, H4.key, [H4])

  function Levels(level2: seq<File>, level3: seq<File>): seq<seq<File>> {
    [[], [], level2, level3, [], [], []]
  }

  const S0: State := State([], None, Levels([], []), 0, [], 2)
  const S1: State := State([H1, K2], None, Levels([], []), 2, [], 2)
  const S2: State := State([H1, K2], None, Levels([], []), 2, [2], 2)
  const S3: State := State([H1, K3, K2], None, Levels([], []), 3, [2], 2)
  const S4: State := State([], Some([H1, K3, K2]), Levels([], []), 3, [2], 3)
  const S5: State := State([], None, Levels([F], []), 3, [2], 4)
  const S6: State := State([], None, Levels([], [F1, F2]), 3, [2], 6)
  const S7: State := State([], None, Levels([], [F1, F2]), 3, [], 6)
  const S8: State := State([H4], None, Levels([], [F1, F2]), 4, [], 6)
  const S9: State := State([], Some([H4]), Levels([], [F1, F2]), 4, [], 7)
  const S10: State := State([], None, Levels([G], [F1, F2]), 4, [], 8)
  const S11: State := State([], None, Levels([], [G1, F2]), 4, [], 9)

  const LAST_STEP: Step := Compact(2, [G], [F1], [H4, H1, K3], [G1])

  const STEPS: seq<Step> := [
    Write([PutOp(H, "a"), PutOp(K, "b")]),
    TakeSnapshot,
    Write([DeleteOp(K)]),
    SwitchMemTable,
    Flush(2, F),
    Compact(2, [F], [], [H1, K3, K2], [F1, F2]),
    ReleaseSnapshot(0),
    Write([PutOp(H, "c")]),
    SwitchMemTable,
    Flush(2, G)]

  const RUN: seq<State> := [S0, S1, S2, S3, S4, S5, S6, S7, S8, S9, S10]

  lemma WritesOk()
    ensures StepTo(S0, STEPS[0], S1) && StepTo(S2, STEPS[2], S3) && StepTo(S7, STEPS[7], S8)
  {
    var ops := [PutOp(H, "a"), PutOp(K, "b")];
    assert BatchEntries(ops, 1) == {H1, K2} by {
      assert OpEntry(ops[0], 1) == H1 && OpEntry(ops[1], 2) == K2;
    }
    assert BatchEntries([DeleteOp(K)], 3) == {K3} by { assert OpEntry([DeleteOp(K)][0], 3) == K3; }
    assert BatchEntries([PutOp(H, "c")], 4) == {H4} by { assert OpEntry([PutOp(H, "c")][0], 4) == H4; }
  }

  lemma InstallsAt2(level3: seq<File>, f: File)
    requires Ordered(level3)
    ensures Installs(Levels([], level3), Levels([f], level3), 2, [], [], [f])
  {
    var before, after := Levels([], level3), Levels([f], level3);
    assert after[0] == after[1] == after[4] == after[5] == after[6] == [];
    forall l | 0 <= l < NUM_LEVELS && l != 2 ensures after[l] == before[l] && Ordered(after[l]) {
      assert l == 0 || l == 1 || l == 3 || l == 4 || l == 5 || l == 6;
    }
  }

  lemma InstallsAt3(level3: seq<File>, f: File, in1: seq<File>, outputs: seq<File>, level3': seq<File>)
    requires Ordered(level3) && Ordered(level3')
    requires Members(level3') == Members(level3) - Members(in1) + Members(outputs)
    ensures Installs(Levels([f], level3), Levels([], level3'), 3, [f], in1, outputs)
  {
    var before, after := Levels([f], level3), Levels([], level3');
    forall l | 0 <= l < NUM_LEVELS && l != 3 ensures Ordered(after[l]) && (l != 2 ==> after[l] == before[l]) {
      assert l == 0 || l == 1 || l == 2 || l == 4 || l == 5 || l == 6;
    }
  }

  lemma NothingInTheWay(level3: seq<File>, f: File)
    ensures FlushLevelOk(Levels([], level3), 2, f)
  {
    var levels := Levels([], level3);
    forall l | 0 <= l <= 2 ensures !Overlaps(levels[l], f.smallest.user, f.largest.user) {
      assert l == 0 || l == 1 || l == 2;
    }
  }

  lemma FlushesOk()
    ensures StepTo(S4, STEPS[4], S5) && StepTo(S9, STEPS[9], S10)
  {
    InstallsAt2([], F);
    NothingInTheWay([], F);
    InstallsAt2([F1, F2], G);
    NothingInTheWay([F1, F2], G);
  }

  lemma NoDeeperFile(level2: seq<File>, level3: seq<File>, user: UserKey)
    ensures IsBase(Levels(level2, level3), 2, user)
  {
    var levels := Levels(level2, level3);
    forall l | 4 <= l < NUM_LEVELS ensures levels[l] == [] {
      assert l == 4 || l == 5 || l == 6;
    }
  }

  lemma FirstSurvivors()
    ensures Survivors([H1, K3, K2], 2, S5.levels, 2) == [H1, K3, K2] == Flatten([F1, F2])
  {
    var levels, input := S5.levels, [H1, K3, K2];
    assert input[..2] == [H1, K3] && [H1, K3][..1] == [H1] && [H1][..0] == [];
    assert Survivors([H1], 2, levels, 2) == [H1];
    assert Survivors([H1, K3], 2, levels, 2) == [H1, K3];
    assert [F1, F2][..1] == [F1] && [F1][..0] == [];
    assert Flatten([F1]) == [H1, K3];
  }

  lemma FirstInputs()
    ensures LegalInputs(S5.levels, 2, [F], []) && Merges([H1, K3, K2], [F], [])
  {
    assert S5.levels[2] == [F] && S5.levels[3] == [];
    assert LevelEntries([F]) + LevelEntries([]) == Entries([H1, K3, K2]);
  }

  /** The first compaction keeps all three entries for the snapshot and cuts after the marker. */
  lemma FirstCompactionOk()
    ensures StepTo(S5, STEPS[5], S6)
  {
    InstallsAt3([], F, [], [F1, F2], [F1, F2]);
    FirstInputs();
    FirstSurvivors();
  }

  lemma SecondSurvivors()
    ensures Survivors([H4, H1, K3], 4, S10.levels, 2) == [H4] == Flatten([G1])
  {
    var levels, input := S10.levels, [H4, H1, K3];
    NoDeeperFile([G], [F1, F2], K);
    assert input[..2] == [H4, H1] && [H4, H1][..1] == [H4] && [H4][..0] == [];
    assert Survivors([H4], 4, levels, 2) == [H4];
    assert Survivors([H4, H1], 4, levels, 2) == [H4];
    assert [G1][..0] == [];
  }

  lemma SecondMerges()
    ensures Merges([H4, H1, K3], [G], [F1])
  {
    TwoFiles(G, G);
    TwoFiles(F1, F1);
  }

  lemma SecondInputs()
    ensures LegalInputs(S10.levels, 2, [G], [F1])
  {
    assert S10.levels[2] == [G] && S10.levels[3] == [F1, F2];
    assert [F1, F2][..1] == [F1] && [F1][..0] == [];
    assert Overlapping([F1], Some(H), Some(H)) == [F1];
    assert Overlapping([F1, F2], Some(H), Some(H)) == [F1];
  }

  lemma SecondInstalls()
    ensures Installs(S10.levels, S11.levels, 3, [G], [F1], [G1])
  {
    InstallsAt3([F1, F2], G, [F1], [G1], [G1, F2]);
  }

  lemma SecondOutputs()
    ensures OutputsAre([G1], Survivors([H4, H1, K3], 4, S10.levels, 2), 8)
  {
    SecondSurvivors();
  }

  /** The second one sees the marker at its base level and drops it. */
  lemma SecondCompactionOk()
    ensures StepTo(S10, LAST_STEP, S11)
  {
    hide LegalInputs, Merges, OutputsAre, Installs, Survivors;
    SecondInputs();
    SecondMerges();
    SecondOutputs();
    SecondInstalls();
  }

  lemma OthersOk()
    ensures StepTo(S1, STEPS[1], S2) && StepTo(S3, STEPS[3], S4)
    ensures StepTo(S6, STEPS[6], S7) && StepTo(S8, STEPS[8], S9)
  {
  }

  lemma StepOk(i: nat)
    requires i < |STEPS|
    ensures |RUN[i].levels| == NUM_LEVELS && StepTo(RUN[i], STEPS[i], RUN[i + 1])
  {
    if i == 0 || i == 2 || i == 7 { WritesOk(); }
    else if i == 4 || i == 9 { FlushesOk(); }
    else if i == 5 { FirstCompactionOk(); }
    else { OthersOk(); assert i == 1 || i == 3 || i == 6 || i == 8; }
  }

  lemma IsRunOfTheStore()
    ensures IsRun(RUN, STEPS) && RUN[0] == INITIAL
  {
    assert RUN[0] == INITIAL by { assert INITIAL.levels == Levels([], []); }
    InitialInv();
    forall i | 0 <= i < |STEPS| ensures |RUN[i].levels| == NUM_LEVELS && StepTo(RUN[i], STEPS[i], RUN[i + 1]) {
      StepOk(i);
    }
  }

  lemma TwoFiles(f: File, g: File)
    ensures LevelEntries([f]) == Entries(f.entries)
    ensures LevelEntries([f, g]) == Entries(f.entries) + Entries(g.entries)
  {
    assert f in [f, g] && g in [f, g] && f in [f];
  }

  lemma BeforeEntries()
    ensures All(S10) == {H4, H1, K3, K2}
  {
    OnlyLevels2And3(S10);
    assert S10.levels[2] == [G] && S10.levels[3] == [F1, F2];
    TwoFiles(G, G);
    TwoFiles(F1, F2);
  }

  lemma AfterEntries()
    ensures All(S11) == {H4, K2}
  {
    OnlyLevels2And3(S11);
    assert S11.levels[2] == [] && S11.levels[3] == [G1, F2];
    TwoFiles(G1, F2);
  }

  lemma OnlyLevels2And3(st: State)
    requires st.mem == [] && st.imm == None && |st.levels| == NUM_LEVELS && st.levels == Levels(st.levels[2], st.levels[3])
    ensures All(st) == LevelEntries(st.levels[2]) + LevelEntries(st.levels[3])
  {
    forall i | 0 <= i < NUM_SOURCES && i != 4 && i != 5 ensures Source(st, i) == {} {
      assert i == 0 || i == 1 || i == 2 || i == 3 || i == 6 || i == 7 || i == 8;
    }
    assert All(st) == Source(st, 4) + Source(st, 5);
  }

  /** MAIN (a defect of the code): in a reachable state a compaction turns the read of a deleted
      key from absent to its old value. */
  lemma DeletedValueReturns()
    ensures IsRun(RUN, STEPS) && RUN[0] == INITIAL && RUN[10] == S10
    ensures |S10.levels| == |S11.levels| == NUM_LEVELS && StepTo(S10, LAST_STEP, S11)
    ensures Read(All(S10), K, S10.lastSequence) == NotFound
    ensures Read(All(S11), K, S11.lastSequence) == Found("b")
  {
    IsRunOfTheStore();
    assert RUN[10] == S10;
    SecondCompactionOk();
    ReadsBeforeAndAfter();
  }

  lemma ReadsBeforeAndAfter()
    ensures |S10.levels| == |S11.levels| == NUM_LEVELS
    ensures Read(All(S10), K, 4) == NotFound && Read(All(S11), K, 4) == Found("b")
  {
    BeforeEntries();
    AfterEntries();
    hide All;
    ReadBefore(All(S10));
    ReadAfter(All(S11));
  }

  lemma ReadBefore(all: set<Entry>)
    requires all == {H4, H1, K3, K2}
    ensures Read(all, K, 4) == NotFound
  {
    ReadVisible(all, K, 4, K3);
  }

  lemma ReadAfter(all: set<Entry>)
    requires all == {H4, K2}
    ensures Read(all, K, 4) == Found("b")
  {
    ReadVisible(all, K, 4, K2);
  }
}
