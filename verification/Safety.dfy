/** What readers see: no step changes what a live snapshot reads, except a compaction that drops a
    deletion marker above an older value left behind one level down. */
module Safety {
  import opened DbFormat
  import opened Versions
  import opened VersionBuilder
  import opened Boundary
  import opened Inputs
  import opened Compactions
  import opened States
  import opened Steps
  import opened Structure
  import opened StepInvariant

  /** Everything stored outside the inputs of a compaction. */
  ghost function Untouched(st: State, level: nat, in0: seq<File>, in1: seq<File>): set<Entry>
    requires |st.levels| == NUM_LEVELS && level + 1 < NUM_LEVELS
  {
    set i, e | 0 <= i < NUM_SOURCES && e in OutsideInputs(st, level, in0, in1, i) :: e
  }

  ghost function OutsideInputs(st: State, level: nat, in0: seq<File>, in1: seq<File>, i: nat): set<Entry>
    requires |st.levels| == NUM_LEVELS && i < NUM_SOURCES
  {
    if i == level + 2 then set f, e | f in st.levels[level] && f !in in0 && e in f.entries :: e
    else if i == level + 3 then set f, e | f in st.levels[i - 2] && f !in in1 && e in f.entries :: e
    else Source(st, i)
  }

  /** At sequence number `s` the user key is deleted by marker `x` among the inputs, no deeper
      file covers it, and the next older entry left outside the inputs is the value `y`. */
  ghost predicate ResurfacesAs(rest: set<Entry>, inputs: set<Entry>, levels: seq<seq<File>>, level: nat, s: nat, x: Entry, y: Entry)
    requires |levels| == NUM_LEVELS
  {
    && x in inputs && x.key.typ.TypeDeletion? && Visible(rest + inputs, x.key.user, s, x)
    && IsBase(levels, level, x.key.user)
    && Visible(rest, x.key.user, x.key.sn, y) && y.key.typ.TypeValue?
  }

  /** The one way a compaction can change a read, checked on the state before it. */
  ghost predicate Resurfaces(st: State, level: nat, in0: seq<File>, in1: seq<File>)
    requires |st.levels| == NUM_LEVELS && level + 1 < NUM_LEVELS
  {
    exists x, y :: ResurfacesAs(Untouched(st, level, in0, in1), LevelEntries(in0) + LevelEntries(in1),
                                st.levels, level, SmallestSnapshot(st), x, y)
  }

  ghost predicate SameReads(st: State, st': State, s: nat)
    requires |st.levels| == |st'.levels| == NUM_LEVELS
  {
    forall user :: Read(All(st), user, s) == Read(All(st'), user, s)
  }

  /** What the drop loop leaves of the inputs. */
  ghost predicate DropsTo(inputs: set<Entry>, outputs: set<Entry>, levels: seq<seq<File>>, level: nat, s: nat)
    requires |levels| == NUM_LEVELS
  {
    && outputs <= inputs
    && (forall x :: x in inputs && x !in outputs ==> Hidden(inputs, x, s) || Obsolete(x, levels, level, s))
    && (forall x :: x in inputs && (Hidden(inputs, x, s) || Obsolete(x, levels, level, s)) ==> x !in outputs)
  }

  ghost predicate Hidden(inputs: set<Entry>, x: Entry, s: nat) {
    exists newer :: newer in inputs && newer.key.user == x.key.user && x.key.sn < newer.key.sn <= s
  }

  ghost predicate Obsolete(x: Entry, levels: seq<seq<File>>, level: nat, s: nat)
    requires |levels| == NUM_LEVELS
  {
    x.key.typ.TypeDeletion? && x.key.sn <= s && IsBase(levels, level, x.key.user)
  }

  /** The loop drops exactly the hidden entries and the obsolete markers. */
  lemma SurvivorsDropTo(input: seq<Entry>, s: nat, levels: seq<seq<File>>, level: nat)
    requires |levels| == NUM_LEVELS && Sorted(input) && Unique(Entries(input))
    ensures DropsTo(Entries(input), Entries(Survivors(input, s, levels, level)), levels, level, s)
  {
    var outputs := Survivors(input, s, levels, level);
    SurvivorsAre(input, s, levels, level);
    SurvivorsSorted(input, s, levels, level);
    forall i | 0 <= i < |input|
      ensures Dropped(input, i, s, levels, level) <==> Hidden(Entries(input), input[i], s) || Obsolete(input[i], levels, level, s)
    {
      DroppedMeans(input, i, s, levels, level);
    }
    forall x | x in input ensures x !in outputs <==> Hidden(Entries(input), x, s) || Obsolete(x, levels, level, s) {
      var i :| 0 <= i < |input| && input[i] == x;
      if x in outputs {
        var j :| 0 <= j < |input| && input[j] == x && !Dropped(input, j, s, levels, level);
      }
    }
  }

  lemma DroppedMeans(input: seq<Entry>, i: nat, s: nat, levels: seq<seq<File>>, level: nat)
    requires |levels| == NUM_LEVELS && Sorted(input) && Unique(Entries(input)) && i < |input|
    ensures Dropped(input, i, s, levels, level) <==> Hidden(Entries(input), input[i], s) || Obsolete(input[i], levels, level, s)
  {
    var x := input[i];
    assert x in Entries(input);
    if Hidden(Entries(input), x, s) {
      var newer :| newer in Entries(input) && newer.key.user == x.key.user && x.key.sn < newer.key.sn <= s;
      var j :| 0 <= j < |input| && input[j] == newer;
      assert i != j && (i < j ==> Before(x.key, newer.key));
      HiddenIsDropped(input, j, i, s, levels, level);
    }
    if i > 0 && input[i - 1].key.user == x.key.user && input[i - 1].key.sn <= s {
      var newer := input[i - 1];
      assert newer in Entries(input) && Before(newer.key, x.key);
      assert newer.key.sn != x.key.sn;
      assert Hidden(Entries(input), x, s);
    }
  }

  /** If nothing resurfaces, reads at or above the smallest snapshot stay what they were. */
  lemma DropKeepsRead(rest: set<Entry>, inputs: set<Entry>, outputs: set<Entry>, levels: seq<seq<File>>, level: nat,
                      smallest: nat, user: UserKey, s: nat)
    requires |levels| == NUM_LEVELS && Unique(rest + inputs) && DropsTo(inputs, outputs, levels, level, smallest)
    requires s >= smallest
    requires forall x, y :: !ResurfacesAs(rest, inputs, levels, level, smallest, x, y)
    ensures Read(rest + inputs, user, s) == Read(rest + outputs, user, s)
  {
    var before, after := rest + inputs, rest + outputs;
    if exists e :: e in before && e.key.user == user && e.key.sn <= s {
      NewestExists(before, user, s);
      var e :| Visible(before, user, s, e);
      ReadVisible(before, user, s, e);
      if e in after {
        ReadVisible(after, user, s, e);
      } else {
        assert !Hidden(inputs, e, smallest) && Obsolete(e, levels, level, smallest);
        forall y | Visible(after, user, s, y) ensures y.key.typ.TypeDeletion? {
          assert y in before && y != e && y.key.sn < e.key.sn;
          assert y in inputs ==> Hidden(inputs, y, smallest);
          assert y in rest;
          assert Visible(rest, user, e.key.sn, y);
          assert !ResurfacesAs(rest, inputs, levels, level, smallest, e, y);
        }
      }
    }
  }

  /** And if something does, the read at the smallest snapshot turns from absent to a value. */
  lemma DropChangesRead(rest: set<Entry>, inputs: set<Entry>, outputs: set<Entry>, levels: seq<seq<File>>, level: nat,
                        smallest: nat, x: Entry, y: Entry)
    requires |levels| == NUM_LEVELS && Unique(rest + inputs) && DropsTo(inputs, outputs, levels, level, smallest)
    requires rest !! inputs
    requires ResurfacesAs(rest, inputs, levels, level, smallest, x, y)
    ensures Read(rest + inputs, x.key.user, smallest) == NotFound
    ensures Read(rest + outputs, x.key.user, smallest) == Found(y.value)
  {
    var before, after := rest + inputs, rest + outputs;
    ReadVisible(before, x.key.user, smallest, x);
    assert y in before && y.key.sn < x.key.sn;
    forall z | z in after && z.key.user == x.key.user && z.key.sn <= smallest ensures z.key.sn <= y.key.sn {
      assert z in before && z != x;
      assert z.key.sn < x.key.sn;
      assert z in inputs ==> Hidden(inputs, z, smallest);
      assert z in rest;
    }
    assert Visible(after, x.key.user, smallest, y);
    ReadVisible(after, x.key.user, smallest, y);
  }

  lemma InputSplit(st: State, level: nat, in0: seq<File>, in1: seq<File>)
    requires Inv(st) && level + 1 < NUM_LEVELS && Stored(st.levels, level, in0, in1)
    ensures All(st) == Untouched(st, level, in0, in1) + (LevelEntries(in0) + LevelEntries(in1))
    ensures Untouched(st, level, in0, in1) !! LevelEntries(in0) + LevelEntries(in1)
  {
    var inputs := LevelEntries(in0) + LevelEntries(in1);
    SourcesSplit(st, level, in0, in1);
    forall i, e | 0 <= i < NUM_SOURCES && e in OutsideInputs(st, level, in0, in1, i) ensures e !in inputs {
      OutsideIsNoInput(st, level, in0, in1, i, e);
    }
  }

  lemma SourcesSplit(st: State, level: nat, in0: seq<File>, in1: seq<File>)
    requires |st.levels| == NUM_LEVELS && level + 1 < NUM_LEVELS
    requires (forall f :: f in in0 ==> f in st.levels[level]) && (forall f :: f in in1 ==> f in st.levels[level + 1])
    ensures All(st) == Untouched(st, level, in0, in1) + (LevelEntries(in0) + LevelEntries(in1))
  {
    var inputs := LevelEntries(in0) + LevelEntries(in1);
    assert LevelEntries(in0) <= Source(st, level + 2) && LevelEntries(in1) <= Source(st, level + 3);
    forall i | 0 <= i < NUM_SOURCES
      ensures OutsideInputs(st, level, in0, in1, i) <= Source(st, i) <= OutsideInputs(st, level, in0, in1, i) + inputs
    {
    }
  }

  lemma OutsideIsNoInput(st: State, level: nat, in0: seq<File>, in1: seq<File>, i: nat, e: Entry)
    requires Inv(st) && level + 1 < NUM_LEVELS && Stored(st.levels, level, in0, in1)
    requires i < NUM_SOURCES && e in OutsideInputs(st, level, in0, in1, i)
    ensures e in Source(st, i)
    ensures e !in LevelEntries(in0) + LevelEntries(in1)
  {
    OutsideInSource(st, level, in0, in1, i, e);
    InputElsewhere(st, level, in0, i, e);
    InputElsewhere(st, level + 1, in1, i, e);
  }

  lemma OutsideInSource(st: State, level: nat, in0: seq<File>, in1: seq<File>, i: nat, e: Entry)
    requires |st.levels| == NUM_LEVELS && level + 1 < NUM_LEVELS
    requires i < NUM_SOURCES && e in OutsideInputs(st, level, in0, in1, i)
    ensures e in Source(st, i)
  {
  }

  /** An entry outside the chosen files of a level is in none of them. */
  lemma InputElsewhere(st: State, l: nat, chosen: seq<File>, i: nat, e: Entry)
    requires Inv(st) && l < NUM_LEVELS && i < NUM_SOURCES && e in Source(st, i)
    requires forall f :: f in chosen ==> f in st.levels[l]
    requires i == l + 2 ==> exists g :: g in st.levels[l] && g !in chosen && e in g.entries
    ensures e !in LevelEntries(chosen)
  {
    forall c | c in chosen ensures e !in c.entries {
      if i == l + 2 {
        var g :| g in st.levels[l] && g !in chosen && e in g.entries;
        OneFilePerEntry(st, l, g, c, e);
      } else {
        assert Newer(Source(st, i), Source(st, l + 2)) || Newer(Source(st, l + 2), Source(st, i));
        assert e !in Source(st, l + 2);
      }
    }
  }

  lemma OutputSplit(st: State, st': State, level: nat, in0: seq<File>, in1: seq<File>, outputs: seq<File>)
    requires |st.levels| == NUM_LEVELS && level + 1 < NUM_LEVELS
    requires Installs(st.levels, st'.levels, level + 1, in0, in1, outputs)
    requires st'.mem == st.mem && st'.imm == st.imm
    ensures All(st') == Untouched(st, level, in0, in1) + LevelEntries(outputs)
  {
    forall i | 0 <= i < NUM_SOURCES && i != level + 3 ensures Source(st', i) == OutsideInputs(st, level, in0, in1, i) {
      if i >= 2 {
        KeptEntries(st.levels[i - 2], st'.levels[i - 2]);
        if i != level + 2 {
          KeptEntries(st'.levels[i - 2], st.levels[i - 2]);
        } else {
          forall f ensures f in st'.levels[level] <==> f in st.levels[level] && f !in in0 {
            assert f in Members(st'.levels[level]) <==> f in Members(st.levels[level]) - Members(in0);
          }
        }
      }
    }
    var t := level + 1;
    forall f ensures f in st'.levels[t] <==> (f in st.levels[t] && f !in in1) || f in outputs {
      assert f in Members(st'.levels[t]) <==> f in Members(st.levels[t]) - Members(in1) + Members(outputs);
    }
    assert Source(st', level + 3) == OutsideInputs(st, level, in0, in1, level + 3) + LevelEntries(outputs);
  }

  /** MAIN: a compaction keeps every read at or above its smallest snapshot, for all user keys, if
      and only if no deletion marker it drops lets an older value resurface. */
  lemma CompactionReads(st: State, level: nat, in0: seq<File>, in1: seq<File>, input: seq<Entry>, outputs: seq<File>, st': State)
    requires Inv(st) && CompactTo(st, level, in0, in1, input, outputs, st')
    ensures (forall s :: s >= SmallestSnapshot(st) ==> SameReads(st, st', s)) <==> !Resurfaces(st, level, in0, in1)
  {
    var rest, inputs := Untouched(st, level, in0, in1), LevelEntries(in0) + LevelEntries(in1);
    var smallest := SmallestSnapshot(st);
    InputSplit(st, level, in0, in1);
    OutputSplit(st, st', level, in0, in1, outputs);
    OutputFacts(input, SmallestSnapshot(st), st.levels, level, in0, in1, outputs);
    AllUnique(st);
    SurvivorsDropTo(input, smallest, st.levels, level);
    if Resurfaces(st, level, in0, in1) {
      var x, y :| ResurfacesAs(rest, inputs, st.levels, level, smallest, x, y);
      DropChangesRead(rest, inputs, LevelEntries(outputs), st.levels, level, smallest, x, y);
      assert !SameReads(st, st', smallest);
    } else {
      forall s, user | s >= smallest ensures Read(All(st), user, s) == Read(All(st'), user, s) {
        DropKeepsRead(rest, inputs, LevelEntries(outputs), st.levels, level, smallest, user, s);
      }
    }
  }
}
