/** A run in which a written key cannot be found any more: a manual compaction takes two files
    with a gap between them, meanwhile a memtable is written into the gap, and the output
    spans both. */
module LostFlush {
  import opened Keys
  import opened Files
  import opened Inputs
  import opened Compactions
  import opened Versions
  import opened Replacement
  import opened Database
  import opened Lookup
  import opened TwoLevelRuns
  import opened Interruptions

  const A := Entry(InternalKey(1.0, 1, Value), "a")
  const B := Entry(InternalKey(3.0, 2, Value), "b")
  const A2 := Entry(InternalKey(1.0, 3, Value), "aa")
  const B2 := Entry(InternalKey(3.0, 4, Value), "bb")
  const C := Entry(InternalKey(2.0, 5, Value), "c")

  const OLD_A: File := FileData(3, 1, A.key, A.key, [A])
  const OLD_B: File := FileData(5, 1, B.key, B.key, [B])
  const NEW_A: File := FileData(7, 1, A2.key, A2.key, [A2])
  const NEW_B: File := FileData(9, 1, B2.key, B2.key, [B2])
  const OUTPUT: File := FileData(11, 1, A2.key, B2.key, [A2, B2])
  const LOST: File := FileData(12, 1, C.key, C.key, [C])

  lemma FilesAreValid()
    ensures ValidFile(OLD_A) && ValidFile(OLD_B) && ValidFile(NEW_A) && ValidFile(NEW_B) && ValidFile(OUTPUT)
    ensures ValidFile(LOST)
  {
  }

  // ---------------------------------------------------------------------- up to the start

  lemma PickedJoin(states: seq<State>, steps: seq<Step>, states': seq<State>, steps': seq<Step>, maxFileSize: nat)
    requires |states| == |steps| + 1 && |states'| == |steps'| + 1 && states[|steps|] == states'[0]
    requires FlushesArePicked(states, steps, maxFileSize) && FlushesArePicked(states', steps', maxFileSize)
    ensures FlushesArePicked(states + states'[1..], steps + steps', maxFileSize)
  {
    hide Engine.PickedLevel;
    var longer, more := states + states'[1..], steps + steps';
    forall i | 0 <= i < |more| && more[i].Flush?
      ensures Engine.PickedLevel(longer[i].levels, more[i].file.smallest.user, more[i].file.largest.user, maxFileSize,
                                 more[i].level)
    {
      if i >= |steps| {
        assert longer[i] == states'[i - |steps|];
      }
    }
  }

  ghost function Written(e: Entry): Step {
    Write(e.key.user, e.key.kind, e.value)
  }

  /** A write, and the switch that makes its memtable the immutable one. */
  lemma WriteAndSwitch(e: Entry, one: seq<File>, two: seq<File>, last: nat, next: nat)
    requires e.key.sequence == last + 1 < MAX_SEQUENCE
    ensures Next(At([], None, one, two, last, next, []), At([e], None, one, two, last + 1, next, []), Written(e))
    ensures Next(At([e], None, one, two, last + 1, next, []), At([], Some([e]), one, two, last + 1, next + 1, []),
                 SwitchMemTable)
  {
    Inserted(e);
    hide InsertSorted, TwoLevels;
  }

  /** A memtable of one entry on its way to its level. */
  lemma Round(e: Entry, one: seq<File>, two: seq<File>, one': seq<File>, two': seq<File>, level: nat, f: File,
              last: nat,
              next: nat, maxFileSize: nat)
    returns (states: seq<State>, steps: seq<Step>)
    requires e.key.sequence == last + 1 < MAX_SEQUENCE && f.entries == [e] && f.number == next + 1 && ValidFile(f)
    requires AllValid(one) && AllValid(two) && Comes(one, two, level, f, one', two')
    requires Engine.PickedLevel(TwoLevels(one, two), f.smallest.user, f.largest.user, maxFileSize, level)
    ensures Runs.IsRun(states, steps) && |steps| == 3 && FlushesArePicked(states, steps, maxFileSize)
    ensures states[0] == At([], None, one, two, last, next, [])
    ensures states[3] == At([], None, one', two', last + 1, next + 2, [])
  {
    WriteAndSwitch(e, one, two, last, next);
    FlushIsStep([e], one, two, one', two', level, f, last + 1, [], maxFileSize);
    var s1, s2 := At([e], None, one, two, last + 1, next, []), At([], Some([e]), one, two, last + 1, next + 1, []);
    hide Next, TwoLevels, Engine.PickedLevel, ValidFile, Comes;
    states := [At([], None, one, two, last, next, []), s1, s2, At([], None, one', two', last + 1, next + 2, [])];
    steps := [Written(e), SwitchMemTable, Flush(level, f)];
  }

  lemma Picked(maxFileSize: nat)
    requires maxFileSize >= 1
    ensures Engine.PickedLevel(TwoLevels([], []), 1.0, 1.0, maxFileSize, 2)
    ensures Engine.PickedLevel(TwoLevels([], [OLD_A]), 3.0, 3.0, maxFileSize, 2)
    ensures Engine.PickedLevel(TwoLevels([], [OLD_A, OLD_B]), 1.0, 1.0, maxFileSize, 1)
    ensures Engine.PickedLevel(TwoLevels([NEW_A], [OLD_A, OLD_B]), 3.0, 3.0, maxFileSize, 1)
    ensures Engine.PickedLevel(TwoLevels([NEW_A, NEW_B], [OLD_A, OLD_B]), 2.0, 2.0, maxFileSize, 2)
  {
    var two := [OLD_A, OLD_B];
    assert OLD_A in two && Overlaps(OLD_A, Some(1.0), Some(1.0));
    assert OLD_B in two && Overlaps(OLD_B, Some(3.0), Some(3.0));
    Picks([], [], OLD_A, maxFileSize, 2);
    Picks([], [OLD_A], OLD_B, maxFileSize, 2);
    Picks([], two, NEW_A, maxFileSize, 1);
    Picks([NEW_A], two, NEW_B, maxFileSize, 1);
    Picks([NEW_A, NEW_B], two, LOST, maxFileSize, 2);
    hide Engine.PickedLevel;
  }

  lemma ThreeListed(f: File, g: File, h: File)
    requires BySmallestKey(f, g) && BySmallestKey(g, h) && BySmallestKey(f, h)
    ensures ListingOf([f, g, h], {f, g, h}) && AsSet([f, g, h]) == {f, g, h}
  {
  }

  lemma AllCome()
    ensures Comes([], [], 2, OLD_A, [], [OLD_A]) && Comes([], [OLD_A], 2, OLD_B, [], [OLD_A, OLD_B])
    ensures Comes([], [OLD_A, OLD_B], 1, NEW_A, [NEW_A], [OLD_A, OLD_B])
    ensures Comes([NEW_A], [OLD_A, OLD_B], 1, NEW_B, [NEW_A, NEW_B], [OLD_A, OLD_B])
    ensures Comes([NEW_A, NEW_B], [OLD_A, OLD_B], 2, LOST, [NEW_A, NEW_B], [OLD_A, LOST, OLD_B])
  {
    Listings(OLD_A, OLD_B);
    Listings(NEW_A, NEW_B);
    Listings(OLD_B, OLD_B);
    ThreeListed(OLD_A, LOST, OLD_B);
    assert BySmallestKey(OLD_A, OLD_B) && BySmallestKey(NEW_A, NEW_B);
    assert {} + {OLD_A} == {OLD_A} && {OLD_A} + {OLD_B} == {OLD_A, OLD_B} && {} + {NEW_A} == {NEW_A};
    assert {NEW_A} + {NEW_B} == {NEW_A, NEW_B} && {OLD_A, OLD_B} + {LOST} == {OLD_A, LOST, OLD_B};
    hide ListingOf, AsSet, BySmallestKey;
  }

  /** Four flushed memtables, and a fifth that waits. */
  ghost function Start(): State {
    At([], Some([C]), [NEW_A, NEW_B], [OLD_A, OLD_B], 5, 11, [])
  }

  lemma UpToStart(maxFileSize: nat) returns (states: seq<State>, steps: seq<Step>)
    requires maxFileSize >= 1
    ensures Runs.IsRun(states, steps) && |states| == |steps| + 1 && Init(states[0]) && states[|steps|] == Start()
    ensures FlushesArePicked(states, steps, maxFileSize)
  {
    FilesAreValid();
    AllCome();
    Picked(maxFileSize);
    assert TwoLevels([], []) == seq(NUM_LEVELS, _ => []);
    hide ValidFile, Comes, Engine.PickedLevel, TwoLevels, Runs.IsRun, Next, FlushesArePicked;
    states, steps := Round(A, [], [], [], [OLD_A], 2, OLD_A, 0, 2, maxFileSize);
    var s2, t2 := Round(B, [], [OLD_A], [], [OLD_A, OLD_B], 2, OLD_B, 1, 4, maxFileSize);
    states, steps := Joined(states, steps, s2, t2, maxFileSize);
    var s3, t3 := Round(A2, [], [OLD_A, OLD_B], [NEW_A], [OLD_A, OLD_B], 1, NEW_A, 2, 6, maxFileSize);
    states, steps := Joined(states, steps, s3, t3, maxFileSize);
    var s4, t4 := Round(B2, [NEW_A], [OLD_A, OLD_B], [NEW_A, NEW_B], [OLD_A, OLD_B], 1, NEW_B, 3, 8, maxFileSize);
    states, steps := Joined(states, steps, s4, t4, maxFileSize);
    var s5, t5 := LastWrite(maxFileSize);
    states, steps := Joined(states, steps, s5, t5, maxFileSize);
  }

  lemma Joined(states: seq<State>, steps: seq<Step>, states': seq<State>, steps': seq<Step>, maxFileSize: nat)
    returns (longer: seq<State>, more: seq<Step>)
    requires Runs.IsRun(states, steps) && |states| == |steps| + 1 && Runs.IsRun(states', steps')
    requires |states'| == |steps'| + 1
    requires states[|steps|] == states'[0]
    requires FlushesArePicked(states, steps, maxFileSize) && FlushesArePicked(states', steps', maxFileSize)
    ensures Runs.IsRun(longer, more) && |longer| == |more| + 1 && FlushesArePicked(longer, more, maxFileSize)
    ensures longer[0] == states[0] && longer[|more|] == states'[|steps'|]
  {
    hide Runs.IsRun, FlushesArePicked;
    Runs.RunsJoin(states, steps, states', steps');
    PickedJoin(states, steps, states', steps', maxFileSize);
    longer, more := states + states'[1..], steps + steps';
  }

  lemma LastWrite(maxFileSize: nat) returns (states: seq<State>, steps: seq<Step>)
    ensures Runs.IsRun(states, steps) && |steps| == 2 && FlushesArePicked(states, steps, maxFileSize)
    ensures states[0] == At([], None, [NEW_A, NEW_B], [OLD_A, OLD_B], 4, 10, []) && states[2] == Start()
  {
    WriteAndSwitch(C, [NEW_A, NEW_B], [OLD_A, OLD_B], 4, 10);
    hide Next, TwoLevels;
    states := [At([], None, [NEW_A, NEW_B], [OLD_A, OLD_B], 4, 10, []),
               At([C], None, [NEW_A, NEW_B], [OLD_A, OLD_B], 5, 10, []), Start()];
    steps := [Written(C), SwitchMemTable];
  }

  // ---------------------------------------------------------------------- the compaction

  ghost function Merge(): Step {
    Compact(1, [NEW_A, NEW_B], [OLD_A, OLD_B], [A2, A, B2, B], [OUTPUT])
  }

  lemma {:induction false} WholeRange(one: seq<File>)
    ensures Overlapping(one, None, None) == one
  {
    if one != [] {
      WholeRange(one[..|one| - 1]);
    }
  }

  lemma BelowBoth()
    ensures Overlapping([OLD_A, OLD_B], Some(1.0), Some(3.0)) == [OLD_A, OLD_B]
    ensures forall s, l :: IsRange([NEW_A, NEW_B], s, l) ==> s == A2.key && l == B2.key
  {
    assert [OLD_A, OLD_B][..1] == [OLD_A] && [OLD_A][..0] == [];
    assert NEW_A in [NEW_A, NEW_B] && NEW_B in [NEW_A, NEW_B];
    assert IsRange([NEW_A, NEW_B], A2.key, B2.key);
    forall s, l | IsRange([NEW_A, NEW_B], s, l) ensures s == A2.key && l == B2.key {
      RangeIsUnique([NEW_A, NEW_B], s, l, A2.key, B2.key);
    }
  }

  lemma InputsAreChosen()
    ensures ChosenInputs(TwoLevels([NEW_A, NEW_B], [OLD_A, OLD_B]), 1, [NEW_A, NEW_B], [OLD_A, OLD_B])
  {
    BelowBoth();
    hide IsRange, Overlapping;
  }

  lemma InputsAreMerged()
    ensures MergedInputs([NEW_A, NEW_B], [OLD_A, OLD_B], [A2, A, B2, B])
  {
    var upper, lower := [NEW_A, NEW_B], [OLD_A, OLD_B];
    assert NEW_A in upper && NEW_B in upper && OLD_A in lower && OLD_B in lower;
    assert A2 in NEW_A.entries && B2 in NEW_B.entries && A in OLD_A.entries && B in OLD_B.entries;
    assert Contents(upper) == {A2, B2} && Contents(lower) == {A, B};
  }

  lemma NewestAreKept()
    ensures Kept([A2, A, B2, B], 5, Deep(TwoLevels([NEW_A, NEW_B], [OLD_A, OLD_B]), 1), 4) == [A2, B2]
  {
    var stream, deep := [A2, A, B2, B], Deep(TwoLevels([NEW_A, NEW_B], [OLD_A, OLD_B]), 1);
    assert !Dropped(stream, 5, deep, 0) && Hidden(stream, 5, 1) && !Dropped(stream, 5, deep, 2) && Hidden(stream, 5, 3);
    assert Dropped(stream, 5, deep, 1) && Dropped(stream, 5, deep, 3);
    hide Dropped, Deep, Hidden;
    assert Kept(stream, 5, deep, 0) == [];
    assert Kept(stream, 5, deep, 1) == [A2];
    assert Kept(stream, 5, deep, 2) == [A2];
    assert Kept(stream, 5, deep, 3) == [A2, B2];
  }

  lemma OutputIsFile()
    ensures OutputFiles([OUTPUT], 11, [A2, B2])
  {
    FilesAreValid();
    OneFlattened(OUTPUT);
    hide ValidFile, Flatten;
  }

  lemma OneFlattened(f: File)
    ensures Flatten([f]) == f.entries
  {
    assert [f][..0] == [] && Flatten([]) == [];
  }

  lemma CompactionStarts()
    ensures Started(Start(), Merge())
  {
    InputsAreChosen();
    InputsAreMerged();
    NewestAreKept();
    OutputIsFile();
    hide ChosenInputs, MergedInputs, Kept, OutputFiles, TwoLevels, Deep;
  }

  /** How much of the level a manual compaction of everything takes when tables are this small. */
  lemma BothAreTaken(maxFileSize: nat)
    requires maxFileSize >= 2
    ensures forall n :: CutAt(Overlapping(Start().levels[1], None, None), maxFileSize, n) ==> n == 2
  {
    var one := [NEW_A, NEW_B];
    WholeRange(one);
    forall n | CutAt(one, maxFileSize, n) ensures n == 2 {
      assert one[..1] == [NEW_A] && [NEW_A][..0] == [] && TotalFileSize([NEW_A]) == 1;
    }
  }

  lemma InputsAreForced()
    ensures OnlyInputs(Start().levels, 1, [NEW_A, NEW_B], Merge().inputs0, Merge().inputs1)
  {
    BelowBoth();
    assert IsRange([NEW_A, NEW_B], A2.key, B2.key) by {
      assert NEW_A in [NEW_A, NEW_B] && NEW_B in [NEW_A, NEW_B];
    }
    hide IsRange, Overlapping, Ordered, NoDuplicates, Subset, Contiguous;
    forall a, b | Completes(Start().levels, 1, [NEW_A, NEW_B], a, b)
      ensures a == [NEW_A, NEW_B] && b == [OLD_A, OLD_B]
    {
      TwoInOrder(a);
    }
  }

  lemma TwoInOrder(files: seq<File>)
    requires Subset(files, [NEW_A, NEW_B]) && Subset([NEW_A, NEW_B], files) && Ordered(files)
    ensures files == [NEW_A, NEW_B]
  {
    assert NEW_A in [NEW_A, NEW_B] && NEW_B in [NEW_A, NEW_B];
    var i :| 0 <= i < |files| && files[i] == NEW_A;
    var j :| 0 <= j < |files| && files[j] == NEW_B;
    assert i == 0 by {
      assert files[0] in files;
    }
    assert j == |files| - 1 by {
      assert files[|files| - 1] in files;
    }
    assert j == 1 by {
      assert files[1] in files;
    }
  }

  ghost function Meanwhile(): seq<State> {
    [ At([], Some([C]), [NEW_A, NEW_B], [OLD_A, OLD_B], 5, 12, []),
      At([], None, [NEW_A, NEW_B], [OLD_A, LOST, OLD_B], 5, 13, []) ]
  }

  /** Level two in the end: the output reaches over the flushed file. */
  ghost function End(): State {
    At([], None, [], [OUTPUT, LOST], 5, 13, [])
  }

  lemma FlushMeanwhile()
    ensures Runs.IsRun(Meanwhile(), [Flush(2, LOST)]) && FlushesArePicked(Meanwhile(), [Flush(2, LOST)], 1)
  {
    FilesAreValid();
    AllCome();
    Picked(1);
    hide ValidFile, Comes, Engine.PickedLevel, TwoLevels, Next;
    FlushIsStep([C], [NEW_A, NEW_B], [OLD_A, OLD_B], [NEW_A, NEW_B], [OLD_A, LOST, OLD_B], 2, LOST, 5, [], 1);
  }

  lemma InputsAreReplaced()
    ensures Replaced(TwoLevels([NEW_A, NEW_B], [OLD_A, LOST, OLD_B]), TwoLevels([], [OUTPUT, LOST]), 1,
                     [NEW_A, NEW_B], [OLD_A, OLD_B], [OUTPUT])
  {
    Listings(NEW_A, NEW_B);
    Listings(OLD_A, OLD_B);
    Listings(OUTPUT, LOST);
    ThreeListed(OLD_A, LOST, OLD_B);
    assert BySmallestKey(OUTPUT, LOST);
    assert {OLD_A, LOST, OLD_B} - {OLD_A, OLD_B} + {OUTPUT} == {OUTPUT, LOST} && {NEW_A, NEW_B} - {NEW_A, NEW_B} == {};
    hide ListingOf, AsSet, BySmallestKey;
    var before, after := TwoLevels([NEW_A, NEW_B], [OLD_A, LOST, OLD_B]), TwoLevels([], [OUTPUT, LOST]);
    forall l | 0 <= l < |before|
      ensures ListingOf(after[l], NewMembers(before, 1, [NEW_A, NEW_B], [OLD_A, OLD_B], [OUTPUT], l))
    {
      if l != 1 && l != 2 {
        assert before[l] == [] && after[l] == [];
      }
    }
  }

  lemma IsInterrupted()
    ensures Interrupted(Start(), Merge(), Meanwhile(), [Flush(2, LOST)], End())
  {
    CompactionStarts();
    FlushMeanwhile();
    InputsAreReplaced();
    hide Started, Runs.IsRun, Replaced, TwoLevels, FlushesArePicked;
  }

  // --------------------------------------------------------------------------- the loss

  lemma ReadsInTheEnd()
    ensures Read(Entries(End()), 2.0, 5) == Some("c")
  {
    var levels := End().levels;
    assert forall l :: 0 <= l < |levels| && l != 2 ==> levels[l] == [];
    assert OUTPUT in levels[2] && LOST in levels[2];
    assert C in LOST.entries && C in VersionEntries(levels);
    forall e | e in VersionEntries(levels) ensures e == A2 || e == B2 || e == C {
      var l, f :| 0 <= l < |levels| && f in levels[l] && e in f.entries;
      assert l == 2;
    }
    assert Newest(Entries(End()), 2.0, 5, C);
    ReadIs(Entries(End()), 2.0, 5, C);
  }

  ghost predicate OnlyLevelTwo(s: State) {
    s.mem == [] && s.imm == None && forall l :: 0 <= l < NUM_LEVELS && l != 2 ==> s.levels[l] == []
  }

  lemma SearchMisses()
    ensures SearchedFile(End().levels[2], 2.0, 5) == [OUTPUT] && FindInRun(OUTPUT.entries, 2.0, 5) == NotFound
    ensures OnlyLevelTwo(End())
  {
    var files, key := [OUTPUT, LOST], LookupKey(2.0, 5);
    SearchStep(files, key, 0, 2);
    SearchStep(files, key, 0, 1);
    SearchStep(files, key, 0, 0);
    var run := [A2, B2];
    LowerBoundUnique(run, key, 1);
  }

  /** From the empty database: five entries are written, and the levels are those the engine picks
      and the inputs those it chooses for the whole range, but the memtable of the last key is
      flushed while the compaction runs.  In the end the key is there, the invariant is not,
      and the search of the only level with files looks for the key in the wrong one. */
  lemma FlushedKeyIsLost(maxFileSize: nat) returns (states: seq<State>, steps: seq<Step>)
    requires maxFileSize >= 2
    ensures Runs.IsRun(states, steps) && |states| == |steps| + 1 && Init(states[0]) && states[|steps|] == Start()
    ensures FlushesArePicked(states, steps, maxFileSize) && FlushesArePicked(Meanwhile(), [Flush(2, LOST)], maxFileSize)
    ensures forall n :: CutAt(Overlapping(Start().levels[1], None, None), maxFileSize, n) ==> n == 2
    ensures OnlyInputs(Start().levels, 1, [NEW_A, NEW_B], Merge().inputs0, Merge().inputs1)
    ensures Interrupted(Start(), Merge(), Meanwhile(), [Flush(2, LOST)], End()) && Inv(Start()) && !Inv(End())
    ensures Read(Entries(End()), 2.0, 5) == Some("c")
    ensures OnlyLevelTwo(End())
    ensures SearchedFile(End().levels[2], 2.0, 5) == [OUTPUT] && FindInRun(OUTPUT.entries, 2.0, 5) == NotFound
  {
    hide *;
    states, steps := UpToStart(maxFileSize);
    BothAreTaken(maxFileSize);
    InputsAreForced();
    IsInterrupted();
    ReadsInTheEnd();
    SearchMisses();
    PickedMeanwhile(maxFileSize);
    StartIsValid(states, steps);
    EndIsInvalid();
  }

  lemma StartIsValid(states: seq<State>, steps: seq<Step>)
    requires Runs.IsRun(states, steps) && |states| == |steps| + 1 && Init(states[0]) && states[|steps|] == Start()
    ensures Inv(Start())
  {
    hide *;
    InitHasInv(states[0]);
    Runs.RunKeepsInv(states, steps, |steps|);
  }

  lemma EndIsInvalid()
    requires Inv(Start()) && Interrupted(Start(), Merge(), Meanwhile(), [Flush(2, LOST)], End())
    ensures !Inv(End())
  {
    NotApart();
    hide Interrupted, Inv, KeepsApart, Start, Meanwhile, End;
    InterruptionIsSafeExactly(Start(), Merge(), Meanwhile(), [Flush(2, LOST)], End());
  }

  lemma PickedMeanwhile(maxFileSize: nat)
    requires maxFileSize >= 1
    ensures FlushesArePicked(Meanwhile(), [Flush(2, LOST)], maxFileSize)
  {
    Picked(maxFileSize);
    hide Engine.PickedLevel, TwoLevels;
  }

  lemma NotApart()
    ensures !KeepsApart(Start().levels, Meanwhile()[1].levels, Merge())
  {
    assert LOST in Meanwhile()[1].levels[2] && LOST !in Start().levels[2] && OUTPUT in Merge().outputs;
    assert !Separated(LOST, OUTPUT);
  }
}
