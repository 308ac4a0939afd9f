/** A run in which a deleted key comes back: a compaction splits a tombstone and the value it
    hides over two neighbouring files, and a later one takes only the first of them. */
module Resurrection {
  import opened Keys
  import opened Files
  import opened Inputs
  import opened Compactions
  import opened Versions
  import opened Replacement
  import opened Database
  import opened Runs
  import opened TwoLevelRuns

  const OLD := Entry(InternalKey(2.0, 1, Value), "old")
  const FAR := Entry(InternalKey(1.0, 2, Value), "far")
  const GONE := Entry(InternalKey(2.0, 3, Deletion), "")
  const NEAR := Entry(InternalKey(1.0, 4, Value), "near")

  /** The flushed memtables, the two files the first compaction writes, and the last one's. */
  const FIRST: File := FileData(3, 1, OLD.key, OLD.key, [OLD])
  const SECOND: File := FileData(5, 1, FAR.key, GONE.key, [FAR, GONE])
  const TAKEN: File := FileData(6, 1, FAR.key, GONE.key, [FAR, GONE])
  const LEFT: File := FileData(7, 1, OLD.key, OLD.key, [OLD])
  const THIRD: File := FileData(9, 1, NEAR.key, NEAR.key, [NEAR])
  const OUTPUT: File := FileData(10, 1, NEAR.key, NEAR.key, [NEAR])

  ghost function States(): seq<State> {
    [ At([], None, [], [], 0, 2, []),
      At([OLD], None, [], [], 1, 2, []),
      At([OLD], None, [], [], 1, 2, [1]),
      At([], Some([OLD]), [], [], 1, 3, [1]),
      At([], None, [], [FIRST], 1, 4, [1]),
      At([FAR], None, [], [FIRST], 2, 4, [1]),
      At([FAR, GONE], None, [], [FIRST], 3, 4, [1]),
      At([], Some([FAR, GONE]), [], [FIRST], 3, 5, [1]),
      At([], None, [SECOND], [FIRST], 3, 6, [1]),
      At([], None, [], [TAKEN, LEFT], 3, 8, [1]),
      At([], None, [], [TAKEN, LEFT], 3, 8, []),
      At([NEAR], None, [], [TAKEN, LEFT], 4, 8, []),
      At([], Some([NEAR]), [], [TAKEN, LEFT], 4, 9, []),
      At([], None, [THIRD], [TAKEN, LEFT], 4, 10, []),
      At([], None, [], [OUTPUT, LEFT], 4, 11, []) ]
  }

  ghost function Steps(): seq<Step> {
    [ Write(2.0, Value, "old"),
      TakeSnapshot,
      SwitchMemTable,
      Flush(2, FIRST),
      Write(1.0, Value, "far"),
      Write(2.0, Deletion, ""),
      SwitchMemTable,
      Flush(1, SECOND),
      Compact(1, [SECOND], [FIRST], [FAR, GONE, OLD], [TAKEN, LEFT]),
      ReleaseSnapshot(0),
      Write(1.0, Value, "near"),
      SwitchMemTable,
      Flush(1, THIRD),
      Compact(1, [THIRD], [TAKEN], [NEAR, FAR, GONE], [OUTPUT]) ]
  }

  lemma FilesAreValid()
    ensures ValidFile(FIRST) && ValidFile(SECOND) && ValidFile(TAKEN) && ValidFile(LEFT)
    ensures ValidFile(THIRD) && ValidFile(OUTPUT)
  {
  }

  lemma Starts()
    ensures Init(States()[0])
  {
    assert TwoLevels([], []) == seq(NUM_LEVELS, _ => []);
  }

  // ------------------------------------------------------------------------------- writes

  lemma WritesAreSteps()
    ensures Next(States()[0], States()[1], Steps()[0]) && Next(States()[4], States()[5], Steps()[4])
    ensures Next(States()[10], States()[11], Steps()[10])
  {
    Inserted(OLD);
    Inserted(FAR);
    Inserted(NEAR);
    hide InsertSorted;
  }

  lemma SecondWriteIsStep()
    ensures Next(States()[5], States()[6], Steps()[5])
  {
    assert InsertSorted([FAR], GONE) == [FAR, GONE] by {
      assert [FAR][1..] == [] && LowerBound([FAR], GONE.key) == 1;
    }
    hide InsertSorted;
  }

  lemma OthersAreSteps()
    ensures Next(States()[1], States()[2], Steps()[1]) && Next(States()[2], States()[3], Steps()[2])
    ensures Next(States()[6], States()[7], Steps()[6]) && Next(States()[9], States()[10], Steps()[9])
    ensures Next(States()[11], States()[12], Steps()[11])
  {
    hide TwoLevels;
  }

  // ------------------------------------------------------------------------------ flushes

  lemma LevelsPicked(maxFileSize: nat)
    requires maxFileSize >= 1
    ensures Engine.PickedLevel(TwoLevels([], []), FIRST.smallest.user, FIRST.largest.user, maxFileSize, 2)
    ensures Engine.PickedLevel(TwoLevels([], [FIRST]), SECOND.smallest.user, SECOND.largest.user, maxFileSize, 1)
    ensures Engine.PickedLevel(TwoLevels([], [TAKEN, LEFT]), THIRD.smallest.user, THIRD.largest.user, maxFileSize, 1)
  {
    Picks([], [], FIRST, maxFileSize, 2);
    assert FIRST in [FIRST] && Overlaps(FIRST, Some(SECOND.smallest.user), Some(SECOND.largest.user));
    Picks([], [FIRST], SECOND, maxFileSize, 1);
    assert TAKEN in [TAKEN, LEFT] && Overlaps(TAKEN, Some(THIRD.smallest.user), Some(THIRD.largest.user));
    Picks([], [TAKEN, LEFT], THIRD, maxFileSize, 1);
    hide Engine.PickedLevel;
  }

  lemma FlushesArePickedHere(maxFileSize: nat)
    requires maxFileSize >= 1
    ensures FlushesArePicked(States(), Steps(), maxFileSize)
  {
    LevelsPicked(maxFileSize);
    hide Engine.PickedLevel, TwoLevels;
  }

  lemma FilesCome()
    ensures Comes([], [], 2, FIRST, [], [FIRST]) && Comes([], [FIRST], 1, SECOND, [SECOND], [FIRST])
    ensures Comes([], [TAKEN, LEFT], 1, THIRD, [THIRD], [TAKEN, LEFT])
  {
    Listings(FIRST, FIRST);
    Listings(SECOND, SECOND);
    Listings(THIRD, THIRD);
    Listings(TAKEN, LEFT);
    assert BySmallestKey(TAKEN, LEFT);
    assert {} + {FIRST} == {FIRST} && {} + {SECOND} == {SECOND} && {} + {THIRD} == {THIRD};
    hide ListingOf, AsSet, BySmallestKey;
  }

  lemma FirstFlush()
    ensures Next(States()[3], States()[4], Steps()[3])
  {
    FilesAreValid();
    LevelsPicked(1);
    FilesCome();
    hide At, Next, Comes, ValidFile, Engine.PickedLevel, TwoLevels;
    FlushIsStep([OLD], [], [], [], [FIRST], 2, FIRST, 1, [1], 1);
  }

  lemma LaterFlushes()
    ensures Next(States()[7], States()[8], Steps()[7]) && Next(States()[12], States()[13], Steps()[12])
  {
    FilesAreValid();
    LevelsPicked(1);
    FilesCome();
    hide At, Next, Comes, ValidFile, Engine.PickedLevel, TwoLevels;
    FlushIsStep([FAR, GONE], [], [FIRST], [SECOND], [FIRST], 1, SECOND, 3, [1], 1);
    FlushIsStep([NEAR], [], [TAKEN, LEFT], [THIRD], [TAKEN, LEFT], 1, THIRD, 4, [], 1);
  }

  // -------------------------------------------------------------------------- compactions

  lemma OnlyFileIsChosen(f: File, two: seq<File>, taken: File)
    requires ValidFile(f) && Overlapping(two, Some(f.smallest.user), Some(f.largest.user)) == [taken]
    ensures ChosenInputs(TwoLevels([f], two), 1, [f], [taken])
  {
    var levels := TwoLevels([f], two);
    assert levels[1] == [f] && levels[2] == two;
    assert forall g :: g in [f] ==> g == f;
    assert f in [f];
    forall s, r | IsRange([f], s, r) ensures s == f.smallest && r == f.largest {
    }
  }

  lemma NothingBelow(one: seq<File>, two: seq<File>)
    ensures forall l :: 0 <= l < |Deep(TwoLevels(one, two), 1)| ==> Deep(TwoLevels(one, two), 1)[l] == []
  {
  }

  /** The snapshot keeps both entries of the deleted key. */
  lemma FirstKeeps()
    ensures Kept([FAR, GONE, OLD], 1, Deep(TwoLevels([SECOND], [FIRST]), 1), 3) == [FAR, GONE, OLD]
  {
    NothingBelow([SECOND], [FIRST]);
    var stream, deep := [FAR, GONE, OLD], Deep(TwoLevels([SECOND], [FIRST]), 1);
    assert !Dropped(stream, 1, deep, 0) && !Dropped(stream, 1, deep, 1) && !Dropped(stream, 1, deep, 2);
    hide Dropped, Deep;
    assert Kept(stream, 1, deep, 0) == [];
    assert Kept(stream, 1, deep, 1) == [FAR];
    assert Kept(stream, 1, deep, 2) == [FAR, GONE];
  }

  /** Without the snapshot, the overwritten value and the tombstone go. */
  lemma SecondKeeps()
    ensures Kept([NEAR, FAR, GONE], 4, Deep(TwoLevels([THIRD], [TAKEN, LEFT]), 1), 3) == [NEAR]
  {
    NothingBelow([THIRD], [TAKEN, LEFT]);
    var stream, deep := [NEAR, FAR, GONE], Deep(TwoLevels([THIRD], [TAKEN, LEFT]), 1);
    assert !Dropped(stream, 4, deep, 0) && Hidden(stream, 4, 1) && Dropped(stream, 4, deep, 2);
    assert Dropped(stream, 4, deep, 1);
    hide Dropped, Deep, Hidden;
    assert Kept(stream, 4, deep, 0) == [];
    assert Kept(stream, 4, deep, 1) == [NEAR];
    assert Kept(stream, 4, deep, 2) == [NEAR];
  }

  lemma FlattenTwo(f: File, g: File)
    ensures Flatten([f]) == f.entries && Flatten([f, g]) == f.entries + g.entries
  {
    assert [f][..0] == [] && [f, g][..1] == [f];
  }

  /** Level one empties into level two. */
  lemma LevelsReplaced(f: File, two: seq<File>, taken: File, outputs: seq<File>, two': seq<File>)
    requires taken in two && ListingOf(two', AsSet(two) - {taken} + AsSet(outputs))
    ensures Replaced(TwoLevels([f], two), TwoLevels([], two'), 1, [f], [taken], outputs)
  {
    Listings(f, f);
    Listings(taken, taken);
    var before, after := TwoLevels([f], two), TwoLevels([], two');
    forall l | 0 <= l < |before| ensures ListingOf(after[l], NewMembers(before, 1, [f], [taken], outputs, l)) {
      if l == 1 {
        assert AsSet([f]) - AsSet([f]) == {};
      } else if l != 2 {
        assert before[l] == [] && after[l] == [];
      }
    }
  }

  lemma InputsAreChosen()
    ensures ChosenInputs(TwoLevels([SECOND], [FIRST]), 1, [SECOND], [FIRST])
    ensures ChosenInputs(TwoLevels([THIRD], [TAKEN, LEFT]), 1, [THIRD], [TAKEN])
  {
    FilesAreValid();
    assert Overlapping([FIRST], Some(SECOND.smallest.user), Some(SECOND.largest.user)) == [FIRST] by {
      assert [FIRST][..0] == [];
    }
    assert Overlapping([TAKEN, LEFT], Some(THIRD.smallest.user), Some(THIRD.largest.user)) == [TAKEN] by {
      assert [TAKEN, LEFT][..1] == [TAKEN] && [TAKEN][..0] == [];
    }
    hide ValidFile, ChosenInputs, TwoLevels, Overlapping;
    OnlyFileIsChosen(SECOND, [FIRST], FIRST);
    OnlyFileIsChosen(THIRD, [TAKEN, LEFT], TAKEN);
  }

  /** With one file in level one there is nothing else to choose. */
  lemma OneFileIsOnlyChoice(f: File, two: seq<File>, taken: File)
    requires Overlapping(two, Some(f.smallest.user), Some(f.largest.user)) == [taken]
    ensures OnlyInputs(TwoLevels([f], two), 1, [f], [f], [taken])
  {
    var levels := TwoLevels([f], two);
    forall a, b | Completes(levels, 1, [f], a, b) ensures a == [f] && b == [taken] {
      OneWithoutDuplicates(a, f);
      assert f in [f] && IsRange([f], f.smallest, f.largest);
    }
  }

  ghost predicate ForcedAt(i: nat)
    requires i == 8 || i == 13
  {
    var levels := States()[i].levels;
    OnlyInputs(levels, 1, levels[1], Steps()[i].inputs0, Steps()[i].inputs1)
  }

  lemma InputsAreForced()
    ensures ForcedAt(8) && ForcedAt(13)
  {
    assert Overlapping([FIRST], Some(SECOND.smallest.user), Some(SECOND.largest.user)) == [FIRST] by {
      assert [FIRST][..0] == [];
    }
    assert Overlapping([TAKEN, LEFT], Some(THIRD.smallest.user), Some(THIRD.largest.user)) == [TAKEN] by {
      assert [TAKEN, LEFT][..1] == [TAKEN] && [TAKEN][..0] == [];
    }
    hide TwoLevels, Overlapping, OnlyInputs;
    OneFileIsOnlyChoice(SECOND, [FIRST], FIRST);
    OneFileIsOnlyChoice(THIRD, [TAKEN, LEFT], TAKEN);
  }

  lemma InputsAreMerged()
    ensures MergedInputs([SECOND], [FIRST], [FAR, GONE, OLD]) && MergedInputs([THIRD], [TAKEN], [NEAR, FAR, GONE])
  {
    OneFile(FIRST);
    OneFile(SECOND);
    OneFile(TAKEN);
    OneFile(THIRD);
  }

  lemma OutputsAreFiles()
    ensures OutputFiles([TAKEN, LEFT], 6, [FAR, GONE, OLD]) && OutputFiles([OUTPUT], 10, [NEAR])
  {
    FilesAreValid();
    FlattenTwo(TAKEN, LEFT);
    FlattenTwo(OUTPUT, OUTPUT);
    hide ValidFile, Flatten;
  }

  lemma InputsAreReplaced()
    ensures Replaced(TwoLevels([SECOND], [FIRST]), TwoLevels([], [TAKEN, LEFT]), 1, [SECOND], [FIRST], [TAKEN, LEFT])
    ensures Replaced(TwoLevels([THIRD], [TAKEN, LEFT]), TwoLevels([], [OUTPUT, LEFT]), 1, [THIRD], [TAKEN], [OUTPUT])
  {
    Listings(FIRST, FIRST);
    Listings(TAKEN, LEFT);
    Listings(OUTPUT, LEFT);
    assert AsSet([FIRST]) - {FIRST} + AsSet([TAKEN, LEFT]) == {TAKEN, LEFT};
    assert AsSet([TAKEN, LEFT]) - {TAKEN} + AsSet([OUTPUT]) == {OUTPUT, LEFT};
    assert BySmallestKey(TAKEN, LEFT) && BySmallestKey(OUTPUT, LEFT);
    hide AsSet, ListingOf, TwoLevels, Replaced;
    LevelsReplaced(SECOND, [FIRST], FIRST, [TAKEN, LEFT], [TAKEN, LEFT]);
    LevelsReplaced(THIRD, [TAKEN, LEFT], TAKEN, [OUTPUT], [OUTPUT, LEFT]);
  }

  lemma CompactionsAreSteps()
    ensures Next(States()[8], States()[9], Steps()[8]) && Next(States()[13], States()[14], Steps()[13])
  {
    hide ChosenInputs, MergedInputs, OutputFiles, Kept, Replaced, TwoLevels, Deep;
    InputsAreChosen();
    InputsAreMerged();
    FirstKeeps();
    SecondKeeps();
    OutputsAreFiles();
    InputsAreReplaced();
  }

  lemma EveryStep(i: nat)
    requires i < |Steps()|
    ensures Next(States()[i], States()[i + 1], Steps()[i])
  {
    WritesAreSteps();
    SecondWriteIsStep();
    OthersAreSteps();
    FirstFlush();
    LaterFlushes();
    CompactionsAreSteps();
    hide Next, At;
  }

  // ---------------------------------------------------------------------------- the reads

  lemma EntriesAt(i: nat)
    requires i == 13 || i == 14
    ensures Entries(States()[i]) == if i == 13 then {NEAR, FAR, GONE, OLD} else {NEAR, OLD}
  {
    var levels := States()[i].levels;
    assert forall l :: 0 <= l < |levels| && l != 1 && l != 2 ==> levels[l] == [];
    assert i == 13 ==> THIRD in levels[1] && TAKEN in levels[2] && LEFT in levels[2];
    assert i == 14 ==> OUTPUT in levels[2] && LEFT in levels[2];
    var all := if i == 13 then {NEAR, FAR, GONE, OLD} else {NEAR, OLD};
    forall e ensures e in VersionEntries(levels) <==> e in all {
      if l, f :| 0 <= l < |levels| && f in levels[l] && e in f.entries {
        assert l == 1 || l == 2;
      }
    }
  }

  lemma ReadsInTheExample()
    ensures Read({NEAR, FAR, GONE, OLD}, 2.0, 4) == None
    ensures Read({NEAR, OLD}, 2.0, 4) == Some("old")
  {
    var before, after := {NEAR, FAR, GONE, OLD}, {NEAR, OLD};
    assert DistinctSequences(before) && DistinctSequences(after);
    assert Newest(before, 2.0, 4, GONE) && Newest(after, 2.0, 4, OLD);
    ReadIs(before, 2.0, 4, GONE);
    ReadIs(after, 2.0, 4, OLD);
  }

  /** A run of the database, from empty, that writes a key, deletes it, and reads nothing for
      it until a last compaction makes it read as its old value again. */
  lemma DeletedKeyComesBack(maxFileSize: nat) returns (states: seq<State>, steps: seq<Step>)
    requires maxFileSize >= 1
    ensures Runs.IsRun(states, steps) && Init(states[0]) && |steps| == 14 && steps[13].Compact?
    ensures LastWrite(steps, 2.0) == None
    ensures Read(Entries(states[13]), 2.0, states[13].lastSequence) == None
    ensures Read(Entries(states[14]), 2.0, states[14].lastSequence) == Some("old")
    // The levels of the flushes and the inputs of the compactions are those the engine chooses.
    ensures FlushesArePicked(states, steps, maxFileSize)
    ensures states == States() && steps == Steps() && ForcedAt(8) && ForcedAt(13)
  {
    FlushesArePickedHere(maxFileSize);
    InputsAreForced();
    states, steps := States(), Steps();
    Starts();
    LastWriteIsDeletion();
    EntriesAt(13);
    EntriesAt(14);
    ReadsInTheExample();
    IsExampleRun();
    hide Next, Init, Entries, Read, At, LastWrite, ForcedAt, FlushesArePicked, Runs.IsRun;
  }

  lemma IsExampleRun()
    ensures Runs.IsRun(States(), Steps())
  {
    hide Next, At;
    forall i | 0 <= i < |Steps()| ensures Next(States()[i], States()[i + 1], Steps()[i]) {
      EveryStep(i);
    }
  }

  lemma LastWriteIsDeletion()
    ensures LastWrite(Steps(), 2.0) == None
  {
    var steps := Steps();
    assert LastWrite(steps[..6], 2.0) == None;
    SameLastWrite(steps, 6);
  }

  /** Later steps that do not write the key. */
  lemma {:induction false} SameLastWrite(steps: seq<Step>, n: nat)
    requires n <= |steps| && forall i :: n <= i < |steps| ==> !(steps[i].Write? && steps[i].user == 2.0)
    ensures LastWrite(steps, 2.0) == LastWrite(steps[..n], 2.0)
  {
    if n < |steps| {
      SameLastWrite(steps[..|steps| - 1], n);
      assert steps[..|steps| - 1][..n] == steps[..n];
    } else {
      assert steps[..n] == steps;
    }
  }
}
