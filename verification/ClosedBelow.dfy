/** When a compaction is safe, seen from the files one level below its own: nothing resurfaces unless the
    lower inputs end inside a user key that the next file of their level goes on with. Completing the
    lower inputs with their boundary files, as the upper ones are, would leave no such file. */
module ClosedBelow {
  import opened Wrappers
  import opened DbFormat
  import opened Versions
  import opened Boundary
  import opened Inputs
  import opened Compactions
  import opened States
  import opened Steps
  import opened Structure
  import opened StepInvariant
  import opened Safety

  /** What is older than an input entry and outside the inputs lies beside them one level down, or
      deeper. */
  lemma OlderIsBelow(st: State, level: nat, in0: seq<File>, in1: seq<File>, x: Entry, y: Entry)
    requires Inv(st) && level + 1 < NUM_LEVELS && LegalInputs(st.levels, level, in0, in1)
    requires x in LevelEntries(in0) + LevelEntries(in1) && y in Untouched(st, level, in0, in1)
    requires x.key.user == y.key.user && y.key.sn <= x.key.sn
    ensures (exists g :: g in st.levels[level + 1] && g !in in1 && y in g.entries)
         || !IsBase(st.levels, level, y.key.user)
  {
    hide LegalInputs, Shape, Level0Order, NumbersDistinct, Bounded, Stored, RemainderNewer, OutsideInputs, LevelEntries, Untouched, IsBase, Source;
    InvParts(st);
    LegalIsStored(st.levels, level, in0, in1);
    InputsRemainder(st, level, in0, in1);
    var i := UntouchedSource(st, level, in0, in1, y);
    OutsideIsNoInput(st, level, in0, in1, i, y);
    NotAbove(st, level, in0, in1, x, y, i);
    if i > level + 3 {
      DeeperSource(st, level, i, y);
    } else {
      BesideInputs(st, level, in0, in1, y);
    }
  }

  lemma UntouchedSource(st: State, level: nat, in0: seq<File>, in1: seq<File>, y: Entry) returns (i: nat)
    requires |st.levels| == NUM_LEVELS && level + 1 < NUM_LEVELS && y in Untouched(st, level, in0, in1)
    ensures i < NUM_SOURCES && y in OutsideInputs(st, level, in0, in1, i)
  {
    i :| 0 <= i < NUM_SOURCES && y in OutsideInputs(st, level, in0, in1, i);
  }

  lemma DeeperSource(st: State, level: nat, i: nat, y: Entry)
    requires ValidLevels(st.levels) && level + 3 < i < NUM_SOURCES && y in Source(st, i)
    ensures !IsBase(st.levels, level, y.key.user)
  {
    var g :| g in st.levels[i - 2] && y in g.entries;
    DeeperCovers(st.levels, i - 2, g, y);
  }

  lemma BesideInputs(st: State, level: nat, in0: seq<File>, in1: seq<File>, y: Entry)
    requires |st.levels| == NUM_LEVELS && level + 1 < NUM_LEVELS && y in OutsideInputs(st, level, in0, in1, level + 3)
    ensures exists g :: g in st.levels[level + 1] && g !in in1 && y in g.entries
  {
  }

  lemma DeeperCovers(levels: seq<seq<File>>, l: nat, g: File, y: Entry)
    requires ValidLevels(levels) && 0 < l < NUM_LEVELS && g in levels[l] && y in g.entries
    ensures Covers(g, y.key.user)
  {
    assert WellFormed(g);
    EntryRange(g, y);
  }

  lemma NotAbove(st: State, level: nat, in0: seq<File>, in1: seq<File>, x: Entry, y: Entry, i: nat)
    requires |st.levels| == NUM_LEVELS && level + 1 < NUM_LEVELS && SourceOrder(st) && RemainderNewer(st.levels[level], in0)
    requires Stored(st.levels, level, in0, in1)
    requires x in LevelEntries(in0) + LevelEntries(in1) && i < NUM_SOURCES && y in OutsideInputs(st, level, in0, in1, i)
    requires y in Source(st, i) && x.key.user == y.key.user && y.key.sn <= x.key.sn
    ensures i >= level + 3
  {
    if i != level + 2 || x !in LevelEntries(in0) {
      var h := if x in LevelEntries(in0) then level + 2 else level + 3;
      assert x in Source(st, h);
      assert i < h ==> Newer(Source(st, i), Source(st, h));
    }
  }

  /** An entry of the upper inputs lies within their range, so a lower file with its user key is an input. */
  lemma UpperIsCovered(st: State, level: nat, in0: seq<File>, in1: seq<File>, x: Entry, g: File)
    requires ValidLevels(st.levels) && level + 1 < NUM_LEVELS && LegalInputs(st.levels, level, in0, in1)
    requires x in LevelEntries(in0) && g in st.levels[level + 1] && Covers(g, x.key.user)
    ensures g in in1
  {
    var f :| f in in0 && x in f.entries;
    LevelFacts0(st.levels, level, f);
    EntryRange(f, x);
    SmallestKeyIsMinimum(in0);
    LargestKeyIsMaximum(in0);
    assert AtOrBefore(SmallestKey(in0), f.smallest) && AtOrBefore(f.largest, LargestKey(in0));
  }

  /** Of two files apart with entries of one user key, the first has the newer entry. */
  lemma FirstIsNewer(f: File, g: File, x: Entry, y: Entry)
    requires WellFormed(f) && WellFormed(g) && x in f.entries && y in g.entries && Before(g.largest, f.smallest)
    ensures Before(y.key, x.key)
  {
    EntryRange(f, x);
    EntryRange(g, y);
  }

  /** A file right of f that shares its last user key goes on after every file that ends later and lies
      left of it, too. */
  lemma GoesOn(f: File, g: File, h: File, x: Entry, y: Entry)
    requires WellFormed(f) && WellFormed(g) && x in f.entries && y in g.entries && x.key.user == y.key.user
    requires Before(f.largest, g.smallest) && Before(h.largest, g.smallest) && AtOrBefore(f.largest, h.largest)
    ensures StartsAfter(g, h.largest)
  {
    EntryRange(f, x);
    EntryRange(g, y);
  }

  /** A file outside a range of user keys that lies right of one inside lies right of all inside. */
  lemma RightOfRange(f: File, g: File, h: File, lo: UserKey, hi: UserKey)
    requires WellFormed(f) && WellFormed(g) && WellFormed(h) && Apart(h, g)
    requires Meets(f, Some(lo), Some(hi)) && Meets(h, Some(lo), Some(hi)) && !Meets(g, Some(lo), Some(hi)) && Before(f.largest, g.smallest)
    ensures Before(h.largest, g.smallest)
  {
    FileRange(f);
    FileRange(g);
    FileRange(h);
  }

  /** A lower file beside the inputs that shares a user key with one of them comes right after them, or
      holds the newer entries. */
  lemma LowerNeighbour(st: State, level: nat, in0: seq<File>, in1: seq<File>, x: Entry, y: Entry, g: File)
    requires ValidLevels(st.levels) && level + 1 < NUM_LEVELS && LegalInputs(st.levels, level, in0, in1)
    requires x in LevelEntries(in1) && g in st.levels[level + 1] && g !in in1 && y in g.entries && x.key.user == y.key.user
    ensures Before(y.key, x.key) || (in1 != [] && StartsAfter(g, LargestKey(in1)))
  {
    hide WellFormed, Before, AtOrBefore, Meets, StartsAfter, ValidLevels, LegalInputs, Disjoint, LargestKey;
    var f :| f in in1 && x in f.entries;
    LowerFile(st.levels, level, in0, in1, f, g);
    if Before(g.largest, f.smallest) {
      FirstIsNewer(f, g, x, y);
    } else {
      LargestKeyIsMaximum(in1);
      var h :| h in in1 && h.largest == LargestKey(in1);
      LowerFile(st.levels, level, in0, in1, h, g);
      RightOfRange(f, g, h, SmallestKey(in0).user, LargestKey(in0).user);
      GoesOn(f, g, h, x, y);
    }
  }

  /** A lower input and a lower file beside them. */
  lemma LowerFile(levels: seq<seq<File>>, level: nat, in0: seq<File>, in1: seq<File>, f: File, g: File)
    requires ValidLevels(levels) && level + 1 < NUM_LEVELS && LegalInputs(levels, level, in0, in1)
    requires f in in1 && g in levels[level + 1] && g !in in1
    ensures in0 != [] && WellFormed(f) && WellFormed(g) && Apart(f, g)
    ensures Meets(f, Some(SmallestKey(in0).user), Some(LargestKey(in0).user)) && !Meets(g, Some(SmallestKey(in0).user), Some(LargestKey(in0).user))
  {
    hide WellFormed, Before, Disjoint, Contiguous, SmallestKey, LargestKey;
    LevelFacts0(levels, level + 1, f);
    LevelFacts0(levels, level + 1, g);
    LowerIsDisjoint(levels, level + 1);
    PairsFromDisjoint(levels[level + 1], f, g);
  }

  lemma LowerIsDisjoint(levels: seq<seq<File>>, l: nat)
    requires ValidLevels(levels) && 0 < l < NUM_LEVELS
    ensures Disjoint(levels[l])
  {
  }

  /** What resurfaces is an older entry of a dropped marker's user key. */
  lemma ResurfacingEntry(st: State, level: nat, in0: seq<File>, in1: seq<File>, x: Entry, y: Entry)
    requires Inv(st) && level + 1 < NUM_LEVELS && LegalInputs(st.levels, level, in0, in1)
    requires ResurfacesAs(Untouched(st, level, in0, in1), LevelEntries(in0) + LevelEntries(in1), st.levels, level, SmallestSnapshot(st), x, y)
    ensures x in LevelEntries(in0) + LevelEntries(in1) && y in Untouched(st, level, in0, in1) && x.key.user == y.key.user
    ensures y.key.sn < x.key.sn && IsBase(st.levels, level, y.key.user)
  {
    hide LegalInputs, Stored, IsBase, Level0Order, NumbersDistinct, Bounded, LevelEntries, Untouched, Source;
    LegalIsStored(st.levels, level, in0, in1);
    InputSplit(st, level, in0, in1);
    AllUnique(st);
    assert x in All(st) && y in All(st);
  }

  /** It lies in a file that goes on with the last user key of the lower inputs. */
  lemma ResurfacingFile(st: State, level: nat, in0: seq<File>, in1: seq<File>, x: Entry, y: Entry) returns (g: File)
    requires Inv(st) && level + 1 < NUM_LEVELS && LegalInputs(st.levels, level, in0, in1)
    requires ResurfacesAs(Untouched(st, level, in0, in1), LevelEntries(in0) + LevelEntries(in1), st.levels, level, SmallestSnapshot(st), x, y)
    ensures g in st.levels[level + 1] && g !in in1 && y in g.entries && x in LevelEntries(in1) && x.key.user == y.key.user
    ensures in1 != [] && StartsAfter(g, LargestKey(in1))
  {
    hide ResurfacesAs, LegalInputs, IsBase, Untouched, StartsAfter, Source, Level0Order, NumbersDistinct, Bounded;
    ResurfacingEntry(st, level, in0, in1, x, y);
    OlderIsBelow(st, level, in0, in1, x, y);
    g :| g in st.levels[level + 1] && g !in in1 && y in g.entries;
    LevelFacts0(st.levels, level + 1, g);
    EntryRange(g, y);
    if x in LevelEntries(in0) { UpperIsCovered(st, level, in0, in1, x, g); }
    LowerNeighbour(st, level, in0, in1, x, y, g);
    CompareMeaning(y.key, x.key);
  }

  /** Nothing resurfaces if the lower inputs are complete: no file of their level starts after their
      largest key with the same user key, so that there is no boundary file to add to them. */
  lemma CompleteBelowIsSafe(st: State, level: nat, in0: seq<File>, in1: seq<File>)
    requires Inv(st) && level + 1 < NUM_LEVELS && LegalInputs(st.levels, level, in0, in1)
    requires in1 != [] ==> forall g :: g in st.levels[level + 1] ==> !StartsAfter(g, LargestKey(in1))
    ensures !Resurfaces(st, level, in0, in1)
  {
    var rest, inputs := Untouched(st, level, in0, in1), LevelEntries(in0) + LevelEntries(in1);
    forall x, y ensures !ResurfacesAs(rest, inputs, st.levels, level, SmallestSnapshot(st), x, y) {
      if ResurfacesAs(rest, inputs, st.levels, level, SmallestSnapshot(st), x, y) {
        var g := ResurfacingFile(st, level, in0, in1, x, y);
        assert false;
      }
    }
  }

  /** Nor does anything resurface if no user key of the lower inputs is also in a file of their level
      outside them. */
  lemma ClosedBelowIsSafe(st: State, level: nat, in0: seq<File>, in1: seq<File>)
    requires Inv(st) && level + 1 < NUM_LEVELS && LegalInputs(st.levels, level, in0, in1)
    requires forall g, x, y :: x in LevelEntries(in1) && g in st.levels[level + 1] && g !in in1 && y in g.entries ==> x.key.user != y.key.user
    ensures !Resurfaces(st, level, in0, in1)
  {
    var rest, inputs := Untouched(st, level, in0, in1), LevelEntries(in0) + LevelEntries(in1);
    forall x, y ensures !ResurfacesAs(rest, inputs, st.levels, level, SmallestSnapshot(st), x, y) {
      if ResurfacesAs(rest, inputs, st.levels, level, SmallestSnapshot(st), x, y) {
        var g := ResurfacingFile(st, level, in0, in1, x, y);
        assert false;
      }
    }
  }
}
