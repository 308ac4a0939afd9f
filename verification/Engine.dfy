/** The engine itself: the database operations as the program runs them, each shown to be
    one step of the state machine of module `Database`. */
module Engine {
  import opened Keys
  import opened Files
  import opened Inputs
  import opened Covers
  import opened Merger
  import opened Compactions
  import opened Versions
  import opened Manifest
  import opened VersionSets
  import opened Replacement
  import opened Database
  import opened DropRules
  import opened Lookup
  import opened DbIter
  import opened Edits
  import opened MergeInputs
  import opened ManualRanges
  import opened Picks
  import opened Cuts
  import Runs

  // ------------------------------------------------------------------- choosing a level

  /** A memtable file may sink to level m + 1: nothing there overlaps it, and not too much
      of level m + 2 does. */
  ghost predicate MaySink(levels: Levels, m: nat, smallest: UserKey, largest: UserKey, maxFileSize: nat)
    requires m + 2 < NUM_LEVELS
  {
    && (forall g :: g in levels[m + 1] ==> !Overlaps(g, Some(smallest), Some(largest)))
    && TotalFileSize(Overlapping(levels[m + 2], Some(smallest),
                                 Some(largest))) <= MaxGrandParentOverlapBytes(maxFileSize)
  }

  /** The deepest level, up to the limit, that the file of a memtable may go to. */
  ghost predicate PickedLevel(levels: Levels, smallest: UserKey, largest: UserKey, maxFileSize: nat, level: nat) {
    && level <= MAX_MEM_COMPACT_LEVEL
    && (level > 0 ==> forall l, g :: 0 <= l <= level && g in levels[l] ==> !Overlaps(g, Some(smallest), Some(largest)))
    && (forall m :: 0 <= m < level ==> MaySink(levels, m, smallest, largest, maxFileSize))
    && (level == 0 ==>
          || (exists g :: g in levels[0] && Overlaps(g, Some(smallest), Some(largest)))
          || !MaySink(levels, 0, smallest, largest, maxFileSize))
    && (0 < level < MAX_MEM_COMPACT_LEVEL ==> !MaySink(levels, level, smallest, largest, maxFileSize))
  }

  /** The step makes a file of a memtable, if it holds anything, for the level it is due. */
  ghost predicate Flushes(levels: Levels, run: seq<Entry>, maxFileSize: nat, step: Step) {
    if run == [] then step == FlushNothing
    else
      && step.Flush? && step.file.entries == run
      && PickedLevel(levels, step.file.smallest.user, step.file.largest.user, maxFileSize, step.level)
  }

  method PickLevelForMemTableOutput(levels: Levels, smallest: UserKey, largest: UserKey, maxFileSize: nat)
    returns (level: nat)
    requires forall l :: 1 <= l < NUM_LEVELS ==> Ordered(levels[l])
    ensures PickedLevel(levels, smallest, largest, maxFileSize, level)
  {
    hide Ordered, Overlaps, Overlapping;
    level := 0;
    var overlaps := SomeFileOverlapsRange(false, levels[0], Some(smallest), Some(largest));
    if !overlaps {
      while level < MAX_MEM_COMPACT_LEVEL
        invariant level <= MAX_MEM_COMPACT_LEVEL
        invariant forall l, g :: 0 <= l <= level && g in levels[l] ==> !Overlaps(g, Some(smallest), Some(largest))
        invariant forall m :: 0 <= m < level ==> MaySink(levels, m, smallest, largest, maxFileSize)
      {
        overlaps := SomeFileOverlapsRange(true, levels[level + 1], Some(smallest), Some(largest));
        if overlaps {
          break;
        }
        if level + 2 < NUM_LEVELS {
          var files, _, _ := GetOverlappingInputs(false, levels[level + 2], Some(smallest), Some(largest));
          if TotalFileSize(files) > MaxGrandParentOverlapBytes(maxFileSize) {
            break;
          }
        }
        level := level + 1;
      }
    }
  }

  // ----------------------------------------------------------------------- point lookups

  /** An answer found in a newer run holds for everything; otherwise the rest decides. */
  lemma NewerRunFirst(run: seq<Entry>, rest: set<Entry>, user: UserKey, sequence: Sequence, r: Saver)
    requires Sorted(run)
    requires forall x, y :: x in run && y in rest && x.key.user == y.key.user ==> x.key.sequence > y.key.sequence
    requires if FindInRun(run, user, sequence) != NotFound then r == FindInRun(run, user, sequence)
             else Answers(rest, user, sequence, r)
    ensures Answers(SetOf(run) + rest, user, sequence, r)
  {
    RunAnswers(run, user, sequence);
    hide FindInRun, Sorted;
    if FindInRun(run, user, sequence) != NotFound {
      var e := AnsweringEntry(SetOf(run), user, sequence, r);
      assert Newest(SetOf(run) + rest, user, sequence, e);
    } else if r != NotFound {
      var e := AnsweringEntry(rest, user, sequence, r);
      assert Newest(SetOf(run) + rest, user, sequence, e);
    } else {
      assert !HasVisible(SetOf(run) + rest, user, sequence);
    }
  }

  lemma AnsweringEntry(es: set<Entry>, user: UserKey, sequence: Sequence, r: Saver) returns (e: Entry)
    requires Answers(es, user, sequence, r) && r != NotFound
    ensures Newest(es, user, sequence, e)
    ensures r == if e.key.kind.Value? then Found(e.value) else Deleted
  {
    match r
    case Found(v) => e :| Newest(es, user, sequence, e) && e.key.kind.Value? && e.value == v;
    case Deleted => e :| Newest(es, user, sequence, e) && e.key.kind.Deletion?;
  }

  /** A right answer is the read. */
  lemma AnswerIsRead(es: set<Entry>, user: UserKey, sequence: Sequence, r: Saver)
    requires Answers(es, user, sequence, r) && DistinctSequences(es)
    ensures Read(es, user, sequence) == if r.Found? then Some(r.value) else None
  {
    match r
    case NotFound => ReadNothing(es, user, sequence);
    case Found(v) =>
      var e :| Newest(es, user, sequence, e) && e.key.kind.Value? && e.value == v;
      ReadIs(es, user, sequence, e);
    case Deleted =>
      var e :| Newest(es, user, sequence, e) && e.key.kind.Deletion?;
      ReadIs(es, user, sequence, e);
  }

  lemma NewerThanAllFiles(run: seq<Entry>, levels: Levels)
    requires NewerThanVersion(run, levels)
    ensures forall x, y :: x in run && y in VersionEntries(levels) && x.key.user == y.key.user ==>
      x.key.sequence > y.key.sequence
  {
    forall x, y | x in run && y in VersionEntries(levels) && x.key.user == y.key.user
      ensures x.key.sequence > y.key.sequence
    {
      var l, f :| 0 <= l < |levels| && f in levels[l] && y in f.entries;
      assert Newer(run, f.entries);
    }
  }

  // ----------------------------------------------------------------------- the database

  /** What this model leaves open: when an output table is full and how big tables get. */
  datatype Sizes = Sizes(isFull: seq<Entry> -> bool, tableSize: seq<Entry> -> nat)

  /** What a background compaction is for: a level that grew too large, a file that was
      searched too often in vain, or a range somebody asked for. */
  datatype Work =
    | Nothing
    | Size(level: nat)
    | Seek(level: nat, file: File)
    | Manual(level: nat, begin: Bound, end: Bound)

  class DB {
    const versions: VersionSet
    const maxFileSize: nat
    const sizes: Sizes
    var mem: seq<Entry>
    var imm: Option<seq<Entry>>
    var logFileNumber: nat
    var snapshots: seq<nat>

    ghost function Abs(): State
      reads this, versions
    {
      State(mem, imm, versions.current, versions.lastSequence, versions.nextFileNumber, snapshots)
    }

    /** The invariant of the state machine, and what lets a manifest be replayed. */
    ghost predicate Consistent()
      reads this, versions
    {
      && Inv(Abs()) && versions.Valid()
      && NeverDeeper(versions.descriptor, versions.current, versions.nextFileNumber)
      && versions.logNumber <= logFileNumber < versions.nextFileNumber
    }

    constructor (comparator: string, maxFileSize: nat, sizes: Sizes)
      ensures Consistent() && Init(Abs()) && fresh(versions)
    {
      var v := new VersionSet(comparator);
      versions, this.maxFileSize, this.sizes := v, maxFileSize, sizes;
      mem, imm, logFileNumber, snapshots := [], None, 0, [];
      new;
      InitHasInv(Abs());
    }

    method Write(user: UserKey, kind: Kind, value: string)
      requires Consistent() && versions.lastSequence + 1 < MAX_SEQUENCE
      modifies `mem, versions`lastSequence
      ensures Consistent() && Next(old(Abs()), Abs(), Step.Write(user, kind, value))
    {
      hide Inv, NeverDeeper, EverIn;
      ghost var before := Abs();
      versions.lastSequence := versions.lastSequence + 1;
      mem := InsertSorted(mem, Entry(InternalKey(user, versions.lastSequence, kind), value));
      NextKeepsInv(before, Abs(), Step.Write(user, kind, value));
    }

    /** The full memtable becomes the immutable one, and writes go to a new log. */
    method SwitchMemTable()
      requires Consistent() && imm.None?
      modifies this, versions`nextFileNumber
      ensures Consistent() && Next(old(Abs()), Abs(), Step.SwitchMemTable)
      ensures mem == [] && imm == Some(old(mem))
    {
      hide Inv, EverIn;
      ghost var before := Abs();
      logFileNumber := versions.NewFileNumber();
      mem, imm := [], Some(mem);
      NextKeepsInv(before, Abs(), Step.SwitchMemTable);
    }

    method GetSnapshot() returns (sequence: nat)
      requires Consistent()
      modifies `snapshots
      ensures Consistent() && Next(old(Abs()), Abs(), TakeSnapshot)
      ensures sequence == versions.lastSequence && sequence in snapshots
    {
      hide Inv, NeverDeeper, EverIn;
      ghost var before := Abs();
      sequence := versions.lastSequence;
      snapshots := snapshots + [sequence];
      NextKeepsInv(before, Abs(), TakeSnapshot);
    }

    method ReleaseSnapshot(index: nat)
      requires Consistent() && index < |snapshots|
      modifies `snapshots
      ensures Consistent() && Next(old(Abs()), Abs(), Step.ReleaseSnapshot(index))
    {
      hide Inv, NeverDeeper, EverIn;
      ghost var before := Abs();
      snapshots := snapshots[..index] + snapshots[index + 1..];
      NextKeepsInv(before, Abs(), Step.ReleaseSnapshot(index));
    }

    /** Logs and applies an edit that adds files to one level. */
    method Install(e: Edit, ghost level: nat, ghost spent: nat)
      requires versions.Valid() && WellFormed(e) && e.comparator.None? && level < NUM_LEVELS
      requires spent <= versions.nextFileNumber && NeverDeeper(versions.descriptor, versions.current, spent)
      requires Numbered(versions.current, spent)
      requires AddsOnce(versions.current, e, level, spent, versions.nextFileNumber)
      requires e.logNumber.Some? ==> versions.logNumber <= e.logNumber.value < versions.nextFileNumber
      modifies versions
      ensures versions.Valid() && Applied(old(versions.current), versions.current, e)
      ensures NeverDeeper(versions.descriptor, versions.current, versions.nextFileNumber)
      ensures versions.nextFileNumber == old(versions.nextFileNumber)
      ensures versions.lastSequence == old(versions.lastSequence)
      ensures Some(versions.logNumber) == Later(Some(old(versions.logNumber)), e.logNumber)
      ensures versions.compactPointers == SetPointers(old(versions.compactPointers), e.compactPointers)
    {
      hide Inv, NeverDeeper, AddsOnce, Numbered, FreshIn, Applied, AddedAt, EverIn, WellFormed, VersionSet.Valid,
           SetPointers;
      ghost var descriptor, current := versions.descriptor, versions.current;
      forall l | 0 <= l < NUM_LEVELS ensures FreshIn(versions.EverAt(l), e, l) {
        AddsAreFresh(descriptor, current, e, level, spent, versions.nextFileNumber, l);
      }
      versions.LogAndApply(e);
      forall l | 0 <= l < NUM_LEVELS
        ensures EverIn(versions.descriptor, versions.current, l) == EverIn(descriptor, current, l) + AddedAt(e, l)
      {
        assert versions.EverAt(l) == old(versions.EverAt(l)) + AddedAt(e, l);
      }
      StillNeverDeeper(descriptor, current, versions.descriptor, versions.current, e, level, spent,
                       versions.nextFileNumber);
    }

    /** Builds the table of a memtable, unless it is empty, and picks its level. */
    method WriteLevel0Table(run: seq<Entry>, number: nat) returns (newFiles: seq<NewFile>)
      requires Sorted(run) && forall l :: 1 <= l < NUM_LEVELS ==> Ordered(versions.current[l])
      ensures run == [] ==> newFiles == []
      ensures run != [] ==> |newFiles| == 1 && Placed(versions.current, newFiles[0], run, number, maxFileSize)
    {
      hide Ordered, PickedLevel, ValidFile, Sorted;
      if run == [] {
        newFiles := [];
      } else {
        var f := MakeFile(number, sizes.tableSize(run), run);
        var level := PickLevelForMemTableOutput(versions.current, f.smallest.user, f.largest.user, maxFileSize);
        newFiles := [NewFile(level, f)];
      }
    }

    /** Replaces the immutable memtable by its table. */
    method CompactMemTable() returns (ghost step: Step)
      requires Consistent() && imm.Some?
      modifies `imm, versions
      ensures Consistent() && Next(old(Abs()), Abs(), step) && imm.None?
      ensures Flushes(old(versions.current), old(imm.value), maxFileSize, step)
    {
      hide Inv, NeverDeeper, AddsOnce, Applied, EverIn, VersionSet.Valid, Added, Placed, PickedLevel, Sorted, Ordered,
           Next, Numbered;
      ghost var before := Abs();
      NumbersOf(before);
      var number := versions.NewFileNumber();
      var newFiles := WriteLevel0Table(imm.value, number);
      var edit := NO_EDIT.(prevLogNumber := Some(0), logNumber := Some(logFileNumber), newFiles := newFiles);
      ghost var level := if newFiles == [] then 0 else newFiles[0].level;
      PlacedAddsOnce(before.levels, edit, imm.value, number, maxFileSize);
      Install(edit, level, number);
      imm := None;
      step := if newFiles == [] then FlushNothing else Step.Flush(level, newFiles[0].file);
      FlushIsStep(before, Abs(), edit, step, maxFileSize);
      NextKeepsInv(before, Abs(), step);
    }

    /** The files two levels down that overlap the inputs. */
    method Grandparents(L: nat, inputs0: seq<File>, inputs1: seq<File>) returns (grandparents: seq<File>)
      requires L + 1 < NUM_LEVELS && inputs0 != []
      ensures AreGrandparents(versions.current, L, inputs0, inputs1, grandparents)
    {
      hide InRange;
      grandparents := [];
      if L + 2 < NUM_LEVELS {
        var allStart, allLimit := GetRange(inputs0 + inputs1);
        ghost var b, e;
        grandparents, b, e := GetOverlappingInputs(false, versions.current[L + 2], Some(allStart.user),
                                                   Some(allLimit.user));
        assert InRange(false, versions.current[L + 2], Some(allStart.user), Some(allLimit.user), grandparents) by {
          NotLevelZero(versions.current[L + 2], Some(allStart.user), Some(allLimit.user), grandparents);
        }
        InRangeFrom(false, versions.current[L + 2], inputs0 + inputs1, allStart, allLimit, grandparents);
      }
    }

    method IsTrivialMove(L: nat, inputs0: seq<File>, inputs1: seq<File>, grandparents: seq<File>) returns (r: bool)
      requires L + 1 < NUM_LEVELS && inputs0 != []
      requires AreGrandparents(versions.current, L, inputs0, inputs1, grandparents)
      ensures r <==> IsTrivial(versions.current, L, inputs0, inputs1, maxFileSize)
    {
      hide Overlaps, Overlapping;
      r := |inputs0| == 1 && |inputs1| == 0 && TotalFileSize(grandparents) <= MaxGrandParentOverlapBytes(maxFileSize);
      if inputs1 == [] {
        assert inputs0 + inputs1 == inputs0;
        ghost var s, l := RangeOf(inputs0);
        forall s', l' | IsRange(inputs0, s', l') ensures s' == s && l' == l {
          RangeIsUnique(inputs0, s', l', s, l);
        }
      }
    }

    /** The file changes level and keeps its number. */
    method MoveFile(L: nat, f: File, pointer: InternalKey) returns (ghost step: Step)
      requires Consistent() && L + 1 < NUM_LEVELS && ChosenInputs(versions.current, L, [f], [])
      modifies versions
      ensures Consistent() && Next(old(Abs()), Abs(), step) && step == Step.Move(L, f)
      ensures PointerSet(old(versions.compactPointers), versions.compactPointers, L, pointer)
    {
      hide SetPointers, PointerSet, Inv, NeverDeeper, EverIn, VersionSet.Valid, ChosenInputs, AddsOnce, Applied,
           Numbered, Replaced, Ordered, Sorted;
      ghost var before := Abs();
      NumbersOf(before);
      var edit := CompactionEdit(L, [f], [], [f], pointer);
      OnePointer(versions.compactPointers, L, pointer);
      MoveAddsOnce(before.levels, L, f, pointer, before.nextFile);
      Install(edit, L + 1, before.nextFile);
      CompactionEditReplaces(before.levels, versions.current, before.nextFile, before.nextFile, L, [f], [], [f],
                             pointer);
      step := Step.Move(L, f);
      NextKeepsInv(before, Abs(), step);
    }

    /** Merges the inputs, drops what no snapshot needs and replaces them by the outputs. */
    method CompactFiles(L: nat, inputs0: seq<File>, inputs1: seq<File>, grandparents: seq<File>, pointer: InternalKey)
      returns (ghost step: Step)
      requires Consistent() && L + 1 < NUM_LEVELS && ChosenInputs(versions.current, L, inputs0, inputs1)
      requires AreGrandparents(versions.current, L, inputs0, inputs1, grandparents)
      requires NoDuplicates(inputs0) && (L > 0 ==> Ordered(inputs0))
      modifies versions
      ensures Consistent() && Next(old(Abs()), Abs(), step)
      ensures step.Compact? && step.upper == L && step.inputs0 == inputs0 && step.inputs1 == inputs1
      ensures PointerSet(old(versions.compactPointers), versions.compactPointers, L, pointer)
      ensures CutRight(old(versions.current), L, maxFileSize, sizes.isFull, step)
    {
      hide SetPointers, PointerSet, Inv, NeverDeeper, EverIn, VersionSet.Valid, ChosenInputs, AddsOnce, Applied,
           Numbered, Replaced, Ordered, Sorted, OutputFiles, Kept, NoDuplicates, MergedInputs, OutputsNumbered,
           Subset, ValidVersion, AllValid, DrawnFrom, Survivors, Contents, Flatten, AreGrandparents, CutRight,
           Cutter.WellCut;
      ghost var before := Abs();
      var snapshot := SmallestSnapshot(before);
      InputsOfChosen(before, L, inputs0, inputs1);
      var outputs, merged := MergeFiles(L, inputs0, inputs1, grandparents);
      for i := 0 to |outputs|
        modifies versions`nextFileNumber
        invariant versions.Valid() && versions.nextFileNumber == before.nextFile + i
      {
        var _ := versions.NewFileNumber();
      }
      OutputsAreDrawn(inputs0, inputs1, merged, outputs, before.nextFile, snapshot, Deep(before.levels, L));
      var edit := CompactionEdit(L, inputs0, inputs1, outputs, pointer);
      OnePointer(versions.compactPointers, L, pointer);
      OutputsAddOnce(before.levels, L, inputs0, inputs1, outputs, pointer, before.nextFile,
                     Kept(merged, snapshot, Deep(before.levels, L), |merged|));
      Install(edit, L + 1, before.nextFile);
      CompactionEditReplaces(before.levels, versions.current, before.nextFile, versions.nextFileNumber, L, inputs0,
                             inputs1,
                             outputs, pointer);
      step := Step.Compact(L, inputs0, inputs1, merged, outputs);
      CutsAreRight(before, L, maxFileSize, step,
                   Cutter(grandparents, MaxGrandParentOverlapBytes(maxFileSize), merged, sizes.isFull));
      NextKeepsInv(before, Abs(), step);
    }

    /** The merging iterator over the inputs, run through the compaction loop. */
    method MergeFiles(L: nat, inputs0: seq<File>, inputs1: seq<File>, grandparents: seq<File>)
      returns (outputs: seq<File>, ghost merged: seq<Entry>)
      requires Inv(Abs()) && L + 2 < NUM_LEVELS + 1
      requires Subset(inputs0, versions.current[L]) && NoDuplicates(inputs0) && (L > 0 ==> Ordered(inputs0))
      requires Subset(inputs1, versions.current[L + 1]) && Ordered(inputs1)
      ensures MergedInputs(inputs0, inputs1, merged)
      ensures OutputFiles(outputs, versions.nextFileNumber,
                          Kept(merged, SmallestSnapshot(Abs()), Deep(versions.current, L), |merged|))
      ensures Cutter(grandparents, MaxGrandParentOverlapBytes(maxFileSize), merged, sizes.isFull).WellCut(outputs)
    {
      hide CompactionState.Progress, Cutter.WellCut, ValidVersion, Ordered, Sorted, OutputFiles, Kept, NoDuplicates,
           MergedInputs, Newer, WrittenBy, DistinctSequences;
      var snapshot := if snapshots == [] then versions.lastSequence else snapshots[0];
      NumbersOf(Abs());
      var input := MakeInputIterator(versions.current, versions.nextFileNumber, L, inputs0, inputs1);
      var scan := new BaseLevelScan(versions.current[L + 2..]);
      var c := new CompactionState(versions.nextFileNumber, snapshot, grandparents,
                                   MaxGrandParentOverlapBytes(maxFileSize), sizes.isFull, sizes.tableSize);
      merged := input.order.merged;
      outputs := DoCompactionWork(input, scan, c);
    }

    /** Completes the first choice of files in the current version. */
    method SetupInputs(L: nat, seed: seq<File>)
      returns (inputs0: seq<File>, inputs1: seq<File>, ghost first0: seq<File>, ghost grown0: seq<File>)
      requires Inv(Abs()) && L + 1 < NUM_LEVELS && Seed(L == 0, versions.current[L], seed)
      ensures Seed(L == 0, versions.current[L], inputs0) && Subset(seed, inputs0)
      ensures ChosenInputs(versions.current, L, inputs0, inputs1)
      ensures LeadsTo(L == 0, versions.current[L], versions.current[L + 1], seed, maxFileSize, first0, grown0, inputs0,
                        inputs1)
      ensures GapFree(seed) ==> GapFree(inputs0 + inputs1)
    {
      hide Inv, Seed, ChosenInputs, LowerInputs, BoundaryClosed, Subset, GapFree, ValidVersion, NoDuplicates, LeadsTo;
      LevelsHaveNoDuplicates(Abs(), L);
      inputs0, inputs1, first0, grown0 := SetupOtherInputs(L == 0, versions.current[L], versions.current[L + 1], seed,
                                                           maxFileSize);
      SetupIsChosen(versions.current, versions.nextFileNumber, L, inputs0, inputs1);
    }

    /** Runs one compaction of level L from its first choice of files: moves a lone file
        down when nothing stands in its way, merges otherwise. */
    method Compact(L: nat, seed: seq<File>, manual: bool) returns (last: File, ghost step: Step)
      requires Consistent() && L + 1 < NUM_LEVELS && Seed(L == 0, versions.current[L], seed)
      modifies versions
      ensures Consistent() && Next(old(Abs()), Abs(), step)
      ensures CompactsSeed(old(versions.current), L, seed, maxFileSize, manual, step)
      ensures PointerMoved(old(versions.compactPointers), versions.compactPointers, L, UpperFiles(step))
      ensures last == UpperFiles(step)[|UpperFiles(step)| - 1]
      ensures Seed(L == 0, old(versions.current)[L], UpperFiles(step))
      ensures GapFree(seed) ==> GapFree(UpperFiles(step) + LowerFiles(step))
      ensures CutRight(old(versions.current), L, maxFileSize, sizes.isFull, step)
    {
      hide Inv, NeverDeeper, EverIn, VersionSet.Valid, Seed, ChosenInputs, Ordered, Next, Subset, GapFree, LeadsTo,
           PointerSet, IsRange, LowerInputs, CutRight, AreGrandparents;
      ghost var first0, grown0, smallest;
      ghost var before := versions.current;
      var inputs0, inputs1;
      inputs0, inputs1, first0, grown0 := SetupInputs(L, seed);
      SeedFacts(L, versions.current[L], inputs0);
      last := inputs0[|inputs0| - 1];
      var pointer;
      smallest, pointer := GetRange(inputs0);
      var grandparents := Grandparents(L, inputs0, inputs1);
      var trivial := IsTrivialMove(L, inputs0, inputs1, grandparents);
      if !manual && trivial {
        assert inputs0 == [inputs0[0]];
        step := MoveFile(L, inputs0[0], pointer);
        NothingCut(before, L, maxFileSize, sizes.isFull, step);
      } else {
        step := CompactFiles(L, inputs0, inputs1, grandparents, pointer);
      }
    }

    /** The first file past the level's compaction pointer, wrapping around. */
    method PickFile(level: nat) returns (f: File)
      requires level < NUM_LEVELS && versions.current[level] != []
      ensures f in versions.current[level] && NextToCompact(versions.current[level], versions.compactPointers[level], f)
    {
      var files := versions.current[level];
      for i := 0 to |files|
        invariant forall k :: 0 <= k < i ==> !PastPointer(files[k], versions.compactPointers[level])
      {
        if PastPointer(files[i], versions.compactPointers[level]) {
          return files[i];
        }
      }
      return files[0];
    }

    /** One turn of the background thread. */
    method BackgroundCompaction(work: Work) returns (rest: Option<Bound>, ghost step: Option<Step>)
      requires Consistent() && (work.Size? || work.Seek? || work.Manual? ==> work.level + 1 < NUM_LEVELS)
      requires work.Size? ==> versions.current[work.level] != []
      requires work.Seek? ==> work.file in versions.current[work.level]
      modifies `imm, versions
      ensures Consistent()
      ensures if step.Some? then Next(old(Abs()), Abs(), step.value) else Abs() == old(Abs())
      ensures imm.None? && (old(imm).Some? ==> step.Some?)
      // A memtable goes first.
      ensures old(imm).Some? ==> Flushes(old(versions.current), old(imm.value), maxFileSize, step.value)
      ensures old(imm).None? && work.Nothing? ==> step.None?
      // A file searched too often is compacted, or the next one of a level that grew too large.
      ensures old(imm).None? && work.Seek? ==>
        step.Some? && CompactsFile(old(versions.current), work.level, work.file, maxFileSize, step.value)
      ensures old(imm).None? && work.Size? ==>
        && step.Some?
        && exists f ::
             && NextToCompact(old(versions.current)[work.level], old(versions.compactPointers)[work.level], f)
             && CompactsFile(old(versions.current), work.level, f, maxFileSize, step.value)
      // An automatic compaction leaves no gap among its inputs.
      ensures old(imm).None? && (work.Size? || work.Seek?) ==>
        GapFree(UpperFiles(step.value) + LowerFiles(step.value))
      ensures old(imm).None? && work.Manual? ==>
        && (step.Some? <==> exists f :: f in old(versions.current)[work.level] && Overlaps(f, work.begin, work.end))
        && (step.Some? ==>
              CompactsPiece(old(versions.current), work.level, work.begin, work.end, maxFileSize, step.value))
        && IsPiece(old(versions.current), versions.current, work.level, work.begin, work.end, rest, step)
      // The level's pointer moves to the end of what was taken from it, and no output comes to
      // overlap too much of the level below it.
      ensures old(imm).None? && step.Some? ==>
        && PointerMoved(old(versions.compactPointers), versions.compactPointers, work.level, UpperFiles(step.value))
        && CutRight(old(versions.current), work.level, maxFileSize, sizes.isFull, step.value)
      // A manual compaction waits for the memtable; otherwise it goes on from where a piece ended.
      ensures old(imm).Some? && work.Manual? ==> rest == Some(work.begin)
    {
      hide Consistent, Next, NextToCompact, Overlaps, IsPiece, GapFree, CompactsFile, CompactsPiece, PointerMoved,
           Flushes, CutRight;
      rest, step := None, None;
      if imm.Some? {
        var s := CompactMemTable();
        return if work.Manual? then Some(work.begin) else None, Some(s);
      }
      match work {
        case Nothing =>
        case Size(level) =>
          var picked := PickFile(level);
          var s := CompactFrom(level, picked);
          step := Some(s);
        case Seek(level, file) =>
          var s := CompactFrom(level, file);
          step := Some(s);
        case Manual(level, begin, end) =>
          rest, step := CompactPiece(level, begin, end);
      }
    }

    /** One piece of a manual compaction, and where the next one begins. */
    method CompactPiece(level: nat, begin: Bound, end: Bound) returns (rest: Option<Bound>, ghost step: Option<Step>)
      requires Consistent() && level + 1 < NUM_LEVELS
      modifies versions
      ensures Consistent()
      ensures if step.Some? then Next(old(Abs()), Abs(), step.value) else Abs() == old(Abs())
      ensures step.Some? <==> exists f :: f in old(versions.current)[level] && Overlaps(f, begin, end)
      ensures IsPiece(old(versions.current), versions.current, level, begin, end, rest, step)
      ensures step.Some? ==>
        && CompactsPiece(old(versions.current), level, begin, end, maxFileSize, step.value)
        && PointerMoved(old(versions.compactPointers), versions.compactPointers, level, UpperFiles(step.value))
        && CutRight(old(versions.current), level, maxFileSize, sizes.isFull, step.value)
    {
      hide CutRight, Inv, NeverDeeper, EverIn, VersionSet.Valid, Seed, Ordered, Next, NoDuplicates, Overlaps,
           Overlapping, PieceDone, Replaced, ValidVersion, Numbered, Sorted, Subset, InputsFor, IsTrivial,
           PointerMoved, RangeChoice, GapFree;
      ghost var before := Abs();
      NumbersOf(Abs());
      LevelsHaveNoDuplicates(Abs(), level);
      var seed := RangeSeed(level == 0, versions.current[level], begin, end, maxFileSize);
      if seed == [] {
        return None, None;
      }
      ghost var files := versions.current[level];
      var last, s := Compact(level, seed, true);
      SeedFacts(level, files, s.inputs0);
      StepReplaces(before, Abs(), s);
      PieceIsDone(before.levels, versions.current, level, s.inputs0, s.inputs1, s.outputs, seed, begin, end);
      return Some(Some(last.largest.user)), Some(s);
    }

    /** Compacts a range of a level piece by piece until none of its files is in the range. */
    method CompactLevel(level: nat, begin: Bound, end: Bound) returns (ghost states: seq<State>, ghost steps: seq<Step>)
      requires Consistent() && level + 1 < NUM_LEVELS
      modifies `imm, versions
      ensures Consistent() && imm.None?
      ensures Runs.IsRun(states, steps) && |states| == |steps| + 1
      ensures states[0] == old(Abs()) && states[|steps|] == Abs()
      ensures forall f :: f in versions.current[level] ==> !Overlaps(f, begin, end)
      ensures old(imm).None? ==> OthersKept(old(versions.current), versions.current, level)
    {
      hide Consistent, Next, Overlaps, Runs.IsRun, PieceDone;
      ghost var start := versions.current;
      var from, done := begin, false;
      states, steps := [Abs()], [];
      assert Runs.IsRun(states, steps) by { Runs.NoStepsYet(Abs()); }
      while !done
        invariant Consistent() && Runs.IsRun(states, steps) && |states| == |steps| + 1
        invariant states[0] == old(Abs()) && states[|steps|] == Abs()
        invariant imm.Some? ==> from == begin && !done
        invariant forall f :: f in versions.current[level] && Overlaps(f, begin, end) ==> Overlaps(f, from, end)
        invariant done ==> forall f :: f in versions.current[level] ==> !Overlaps(f, from, end)
        invariant old(imm).None? ==> imm.None? && OthersKept(start, versions.current, level)
        decreases if imm.Some? then 1 else 0, |AsSet(versions.current[level])|, !done
      {
        ghost var before := Abs();
        var rest, step := BackgroundCompaction(Manual(level, from, end));
        if before.imm.None? {
          PieceOf(before.levels, versions.current, level, begin, from, end, rest, step);
          if old(imm).None? {
            OthersKeptOn(start, before.levels, versions.current, level);
          }
        }
        if step.Some? {
          Runs.OneStepMore(states, steps, step.value, Abs());
          states, steps := states + [Abs()], steps + [step.value];
        }
        match rest {
          case None => done := true;
          case Some(b) => from := b;
        }
      }
    }

    /** Makes a file of the memtable now. */
    method CompactMemTableNow() returns (ghost states: seq<State>, ghost steps: seq<Step>)
      requires Consistent()
      modifies this, versions
      ensures Consistent() && imm.None? && mem == []
      ensures Runs.IsRun(states, steps) && |states| == |steps| + 1
      ensures states[0] == old(Abs()) && states[|steps|] == Abs()
    {
      hide Consistent, Next, Runs.IsRun;
      states, steps := [Abs()], [];
      Runs.NoStepsYet(Abs());
      if imm.Some? {
        var s := CompactMemTable();
        Runs.OneStepMore(states, steps, s, Abs());
        states, steps := states + [Abs()], steps + [s];
      }
      SwitchMemTable();
      Runs.OneStepMore(states, steps, Step.SwitchMemTable, Abs());
      states, steps := states + [Abs()], steps + [Step.SwitchMemTable];
      var s := CompactMemTable();
      Runs.OneStepMore(states, steps, s, Abs());
      states, steps := states + [Abs()], steps + [s];
    }

    /** The deepest level in which a file overlaps the range, but not level zero. */
    method DeepestOverlap(begin: Bound, end: Bound) returns (deepest: nat)
      requires Consistent()
      ensures 1 <= deepest < NUM_LEVELS
      ensures forall l, f :: deepest < l < NUM_LEVELS && f in versions.current[l] ==> !Overlaps(f, begin, end)
      ensures deepest > 1 ==> exists f :: f in versions.current[deepest] && Overlaps(f, begin, end)
    {
      hide Inv, NeverDeeper, EverIn, VersionSet.Valid, Overlaps, Ordered;
      NumbersOf(Abs());
      deepest := 1;
      for level := 1 to NUM_LEVELS
        invariant 1 <= deepest < NUM_LEVELS && (deepest == 1 || deepest < level)
        invariant forall l, f :: deepest < l < level && f in versions.current[l] ==> !Overlaps(f, begin, end)
        invariant deepest > 1 ==> exists f :: f in versions.current[deepest] && Overlaps(f, begin, end)
      {
        var overlaps := SomeFileOverlapsRange(true, versions.current[level], begin, end);
        if overlaps {
          deepest := level;
        }
      }
    }

    /** Brings everything in a range down to the deepest level that held some of it: nothing
        of the range stays in the memtables or in the levels above. */
    method CompactRange(begin: Bound, end: Bound) returns (deepest: nat, ghost states: seq<State>,
                                                           ghost steps: seq<Step>)
      requires Consistent()
      modifies this, versions
      ensures Consistent() && 1 <= deepest < NUM_LEVELS
      ensures Runs.IsRun(states, steps) && |states| == |steps| + 1
      ensures states[0] == old(Abs()) && states[|steps|] == Abs()
      ensures forall l, f :: deepest < l < NUM_LEVELS && f in old(versions.current)[l] ==> !Overlaps(f, begin, end)
      ensures deepest > 1 ==> exists f :: f in old(versions.current)[deepest] && Overlaps(f, begin, end)
      ensures mem == [] && imm.None?
      ensures forall l, f :: 0 <= l < deepest && f in versions.current[l] ==> !Overlaps(f, begin, end)
    {
      hide Consistent, Next, Overlaps, Runs.IsRun;
      deepest := DeepestOverlap(begin, end);
      states, steps := CompactMemTableNow();
      for level := 0 to deepest
        invariant Consistent() && mem == [] && imm.None?
        invariant Runs.IsRun(states, steps) && |states| == |steps| + 1
        invariant states[0] == old(Abs()) && states[|steps|] == Abs()
        invariant forall l, f :: 0 <= l < level && f in versions.current[l] ==> !Overlaps(f, begin, end)
      {
        ghost var before := versions.current;
        var states', steps' := CompactLevel(level, begin, end);
        Runs.RunsJoin(states, steps, states', steps');
        states, steps := states + states'[1..], steps + steps';
        forall l, f | 0 <= l < level + 1 && f in versions.current[l] ensures !Overlaps(f, begin, end) {
          if l < level {
            assert f in AsSet(versions.current[l]) && f in before[l];
          }
        }
      }
    }

    method CompactFrom(level: nat, picked: File) returns (ghost step: Step)
      requires Consistent() && level + 1 < NUM_LEVELS && picked in versions.current[level]
      modifies versions
      ensures Consistent() && Next(old(Abs()), Abs(), step)
      ensures CompactsFile(old(versions.current), level, picked, maxFileSize, step)
      ensures PointerMoved(old(versions.compactPointers), versions.compactPointers, level, UpperFiles(step))
      ensures GapFree(UpperFiles(step) + LowerFiles(step))
      ensures CutRight(old(versions.current), level, maxFileSize, sizes.isFull, step)
    {
      hide CutRight, Inv, NeverDeeper, EverIn, VersionSet.Valid, Seed, Ordered, Next, NoDuplicates, ValidVersion,
           Numbered, GapFree, InputsFor, IsTrivial, PointerMoved, InRangeOf;
      NumbersOf(Abs());
      LevelsHaveNoDuplicates(Abs(), level);
      var seed := PickSeed(level == 0, versions.current[level], picked);
      var _, s := Compact(level, seed, false);
      step := s;
    }

    /** One child for each memtable, for each file of level zero and for each other level. */
    method NewInternalIterator() returns (input: MergingIterator)
      requires Consistent()
      ensures input.Invariant() && fresh(input) && fresh(input.pos) && SetOf(input.order.merged) == Entries(Abs())
    {
      hide Inv, Interleaves, Flatten, NeverDeeper, EverIn, VersionSet.Valid, Entries;
      var levels := versions.current;
      var list := [mem];
      if imm.Some? {
        list := list + [imm.value];
      }
      ghost var memtables := list;
      for i := 0 to |levels[0]|
        invariant list == memtables + Streams(Singles(levels[0][..i]))
      {
        SingleStream(levels[0][i]);
        OneMoreStream(Singles(levels[0][..i]), [levels[0][i]]);
        assert Singles(levels[0][..i + 1]) == Singles(levels[0][..i]) + [[levels[0][i]]];
        list := list + [levels[0][i].entries];
      }
      assert levels[0][..|levels[0]|] == levels[0];
      for l := 1 to NUM_LEVELS
        invariant list == memtables + Streams(VersionGroups(levels, l))
      {
        OneMoreStream(VersionGroups(levels, l), levels[l]);
        if levels[l] != [] {
          list := list + [Flatten(levels[l])];
        }
      }
      ghost var order := StateInterleaves(Abs());
      input := new MergingIterator(list, order);
    }

    /** An iterator over the database as the snapshot, or the present, sees it. */
    method NewIterator(snapshot: Option<nat>) returns (it: DBIter)
      requires Consistent() && (snapshot.Some? ==> snapshot.value in snapshots)
      ensures it.Invariant() && fresh(it) && fresh(it.iter) && fresh(it.iter.pos) && it.at == -1
      ensures forall i, j :: 0 <= i < j < |it.Map()| ==> it.Map()[i].user < it.Map()[j].user
      ensures forall user, value :: (Pair(user, value) in it.Map() <==>
        Read(Entries(Abs()), user, if snapshot.Some? then snapshot.value else versions.lastSequence) == Some(value))
    {
      hide ValidVersion, NeverDeeper, EverIn, VersionSet.Valid, Entries, View, Read, DistinctSequences, WrittenBy,
           NewerThanVersion;
      var input := NewInternalIterator();
      var sequence := if snapshot.Some? then snapshot.value else versions.lastSequence;
      it := new DBIter(input, sequence);
      input.UnionIsSorted();
      ViewIsTheVisibleMap(input.order.merged, sequence);
    }

    /** Reads the memtable, then the immutable one, then the version. */
    method Get(user: UserKey, snapshot: Option<nat>) returns (r: Option<string>)
      requires Consistent() && (snapshot.Some? ==> snapshot.value in snapshots)
      ensures r == Read(Entries(Abs()), user, if snapshot.Some? then snapshot.value else versions.lastSequence)
    {
      hide ValidVersion, VersionEntries, NewerThanVersion, Sorted, Answers, FindInRun, NeverDeeper, DistinctSequences,
           WrittenBy, Read;
      var sequence := if snapshot.Some? then snapshot.value else versions.lastSequence;
      NewerThanAllFiles(mem, versions.current);
      NewerThanAllFiles(ImmEntries(Abs()), versions.current);
      ghost var rest := VersionEntries(versions.current);
      ghost var frozen := SetOf(ImmEntries(Abs())) + rest;

      var s := FindInRun(mem, user, sequence);
      if s == NotFound {
        if imm.Some? {
          s := FindInRun(imm.value, user, sequence);
        }
        if s == NotFound {
          s := VersionGet(versions.current, versions.nextFileNumber, user, sequence);
        }
        NothingFound(user, sequence);
        NewerRunFirst(ImmEntries(Abs()), rest, user, sequence, s);
      }
      NewerRunFirst(mem, frozen, user, sequence, s);
      assert SetOf(mem) + frozen == Entries(Abs());
      AnswerIsRead(Entries(Abs()), user, sequence, s);
      r := if s.Found? then Some(s.value) else None;
    }
  }

  lemma StepReplaces(s: State, s': State, step: Step)
    requires Next(s, s', step) && step.Compact?
    ensures Replaced(s.levels, s'.levels, step.upper, step.inputs0, step.inputs1, step.outputs)
  {
    hide ChosenInputs, MergedInputs, OutputFiles, Kept, Replaced;
  }

  lemma LevelsHaveNoDuplicates(s: State, l: nat)
    requires Inv(s) && l < NUM_LEVELS
    ensures NoDuplicates(s.levels[l]) && ValidVersion(s.levels, s.nextFile)
  {
    hide AgeOrdered, AgeNumbered, Ordered, DistinctSequences, Newer, Numbered, AllValid, NoDuplicates, BySmallestKey;
    ListingHasNoDuplicates(s.levels[l], AsSet(s.levels[l]));
  }

  lemma NotLevelZero(files: seq<File>, b: Bound, e: Bound, r: seq<File>)
    requires r == Overlapping(files, b, e)
    ensures InRange(false, files, b, e, r)
  {
  }

  lemma NothingCut(levels: Levels, L: nat, maxFileSize: nat, isFull: seq<Entry> -> bool, step: Step)
    requires !step.Compact?
    ensures CutRight(levels, L, maxFileSize, isFull, step)
  {
  }

  lemma CutsAreRight(s: State, L: nat, maxFileSize: nat, step: Step, c: Cutter)
    requires Inv(s) && step.Compact? && ChosenInputs(s.levels, L, step.inputs0, step.inputs1)
    requires AreGrandparents(s.levels, L, step.inputs0, step.inputs1, c.grandparents)
    requires c.limit == MaxGrandParentOverlapBytes(maxFileSize) && c.stream == step.merged && c.WellCut(step.outputs)
    requires MergedInputs(step.inputs0, step.inputs1, step.merged)
    requires DrawnFrom(step.inputs0, step.inputs1, step.outputs)
    ensures CutRight(s.levels, L, maxFileSize, c.isFull, step)
  {
    NumbersOf(s);
    InputsOfChosen(s, L, step.inputs0, step.inputs1);
    hide Ordered, Sorted, Cutter.WellCut, AreGrandparents, CutRight, Contents, ValidFile, LowerInputs, UpperClosed;
    forall f, x | f in step.outputs && x in f.entries ensures x in step.merged {
      assert x in SetOf(step.merged);
    }
    OutputsAreCutRight(s.levels, L, maxFileSize, step, c);
  }

  lemma SeedFacts(L: nat, files: seq<File>, inputs0: seq<File>)
    requires Seed(L == 0, files, inputs0)
    ensures inputs0 != [] && NoDuplicates(inputs0) && (L > 0 ==> Ordered(inputs0))
    ensures (|inputs0| == 1 ==> inputs0 == [inputs0[0]])
  {
    hide Ordered, Contiguous, Detached, NoDuplicates;
  }

  lemma InputsOfChosen(s: State, L: nat, inputs0: seq<File>, inputs1: seq<File>)
    requires Inv(s) && ChosenInputs(s.levels, L, inputs0, inputs1)
    ensures L + 1 < NUM_LEVELS && Subset(inputs0, s.levels[L]) && Subset(inputs1, s.levels[L + 1]) && Ordered(inputs1)
    ensures Numbered(s.levels, s.nextFile)
  {
    hide AgeOrdered, AgeNumbered, Ordered, DistinctSequences, Newer, Numbered, AllValid, Overlaps, ListingOf,
         UpperClosed;
    var lo, hi := RangeOf(inputs0);
    var a, c := OverlappingIsSlice(s.levels[L + 1], Some(lo.user), Some(hi.user));
    if a < c {
      SliceIsRun(s.levels[L + 1], a, c);
    } else {
      NoFilesAreOrdered();
    }
  }

  lemma NoFilesAreOrdered()
    ensures Ordered([])
  {
  }

  lemma MoveAddsOnce(levels: Levels, L: nat, f: File, pointer: InternalKey, nextFile: nat)
    requires ChosenInputs(levels, L, [f], []) && Numbered(levels, nextFile)
    ensures WellFormed(CompactionEdit(L, [f], [], [f], pointer)) && L + 1 < NUM_LEVELS
    ensures AddsOnce(levels, CompactionEdit(L, [f], [], [f], pointer), L + 1, nextFile, nextFile)
    ensures OutputsNumbered([f], [f], nextFile, nextFile) && Subset([f], levels[L]) && Subset([], levels[L + 1])
  {
    hide UpperClosed, LowerInputs, Numbered, AddedAt, DeletedAt, RemovedAt;
    var e := CompactionEdit(L, [f], [], [f], pointer);
    forall l: nat ensures AddedAt(e, l) == if l == L + 1 then AsSet([f]) else {} {
      CompactionAdds(L, [f], [], [f], pointer, l);
    }
    CompactionDeletes(L, [f], [], [f], pointer, L);
    RemovedIsDeleted(e, L);
    assert f in AsSet([f]);
    assert Numbers({}) == {};
  }

  lemma OutputsAddOnce(levels: Levels, L: nat, inputs0: seq<File>, inputs1: seq<File>, outputs: seq<File>,
                       pointer: InternalKey, nextFile: nat, entries: seq<Entry>)
    requires L + 1 < NUM_LEVELS && OutputFiles(outputs, nextFile, entries)
    ensures WellFormed(CompactionEdit(L, inputs0, inputs1, outputs, pointer))
    ensures AddsOnce(levels, CompactionEdit(L, inputs0, inputs1, outputs, pointer), L + 1, nextFile,
                     nextFile + |outputs|)
  {
    hide AddedAt, RemovedAt, Flatten, AllValid;
    var e := CompactionEdit(L, inputs0, inputs1, outputs, pointer);
    forall l: nat ensures AddedAt(e, l) == if l == L + 1 then AsSet(outputs) else {} {
      CompactionAdds(L, inputs0, inputs1, outputs, pointer, l);
    }
  }

  lemma PickedIsFree(levels: Levels, maxFileSize: nat, level: nat, f: File)
    requires PickedLevel(levels, f.smallest.user, f.largest.user, maxFileSize, level)
    ensures level > 0 ==> FreeDownTo(levels, level, f)
  {
    hide MaySink;
    forall l, g | level > 0 && 0 <= l <= level && l < |levels| && g in levels[l]
      ensures g.largest.user < f.smallest.user || f.largest.user < g.smallest.user
    {
      assert !Overlaps(g, Some(f.smallest.user), Some(f.largest.user));
    }
  }

  /** A table file as a flush of `run` may add it. */
  ghost predicate Placed(levels: Levels, n: NewFile, run: seq<Entry>, number: nat, maxFileSize: nat) {
    && ValidFile(n.file) && n.file.number == number && n.file.entries == run
    && PickedLevel(levels, n.file.smallest.user, n.file.largest.user, maxFileSize, n.level)
  }

  lemma PlacedAddsOnce(levels: Levels, e: Edit, run: seq<Entry>, number: nat, maxFileSize: nat)
    requires e.deletedFiles == {} && e.compactPointers == []
    requires if run == [] then e.newFiles == []
             else |e.newFiles| == 1 && Placed(levels, e.newFiles[0], run, number, maxFileSize)
    ensures WellFormed(e)
    ensures AddsOnce(levels, e, if e.newFiles == [] then 0 else e.newFiles[0].level, number, number + 1)
  {
    hide ValidFile, MaySink;
  }

  lemma FlushIsStep(before: State, after: State, e: Edit, step: Step, maxFileSize: nat)
    requires Inv(before) && before.imm.Some? && e.deletedFiles == {} && Applied(before.levels, after.levels, e)
    requires if before.imm.value == [] then e.newFiles == [] && step == FlushNothing
             else |e.newFiles| == 1 && Placed(before.levels, e.newFiles[0], before.imm.value, before.nextFile,
                                              maxFileSize)
                  && step == Step.Flush(e.newFiles[0].level, e.newFiles[0].file)
    requires after == before.(imm := None, levels := after.levels, nextFile := before.nextFile + 1)
    ensures Next(before, after, step)
    ensures step == FlushNothing || (step.Flush? && step.file.entries == before.imm.value)
    ensures step.Flush? ==>
      PickedLevel(before.levels, step.file.smallest.user, step.file.largest.user, maxFileSize, step.level)
  {
    hide Inv, ValidFile, FreeDownTo, Settles, Applied, Added, MaySink;
    if before.imm.value == [] {
      assert AllListed(before.levels) by { InvLists(before); }
      EmptyEditKeeps(before.levels, after.levels, e);
    } else {
      var n := e.newFiles[0];
      assert e.newFiles == [NewFile(n.level, n.file)];
      FlushEditAdds(before.levels, after.levels, n.level, n.file, e);
      if n.level > 0 {
        InvIsValid(before);
        PickedIsFree(before.levels, maxFileSize, n.level, n.file);
        FreeSettles(before.levels, n.level, n.file);
      }
    }
  }

  lemma InvIsValid(s: State)
    requires Inv(s)
    ensures forall l :: 0 <= l < |s.levels| ==> AllValid(s.levels[l])
  {
    hide ValidFile;
  }

  lemma InvLists(s: State)
    requires Inv(s)
    ensures AllListed(s.levels)
  {
    hide AgeOrdered, AgeNumbered, Ordered, DistinctSequences, BySmallestKey, NewerThanVersion, Newer;
  }

  lemma StateInterleaves(s: State) returns (order: Order)
    requires Inv(s)
    ensures Interleaves(StateStreams(s), order) && SetOf(order.merged) == Entries(s)
  {
    StateStreamsShareNothing(s);
    hide *;
    DisjointSortedRunsDoNotRepeat(StateStreams(s));
    order := OrderExists(StateStreams(s));
    SameMembers(order.merged, Entries(s));
  }

  lemma SameMembers(run: seq<Entry>, es: set<Entry>)
    requires forall e :: e in run <==> e in es
    ensures SetOf(run) == es
  {
  }

  lemma NumbersOf(s: State)
    requires Inv(s)
    ensures Numbered(s.levels, s.nextFile) && Sorted(ImmEntries(s))
    ensures forall l :: 1 <= l < NUM_LEVELS ==> Ordered(s.levels[l])
  {
  }

  ghost function StateStreams(s: State): seq<seq<Entry>> {
    [s.mem] + (if s.imm.Some? then [s.imm.value] else []) + Streams(VersionGroups(s.levels, NUM_LEVELS))
  }

  lemma StateStreamsShareNothing(s: State)
    requires Inv(s)
    ensures (forall c :: 0 <= c < |StateStreams(s)| ==> Sorted(StateStreams(s)[c])) && ShareNothing(StateStreams(s))
    ensures AllOf(StateStreams(s)) == Entries(s) && DistinctSequences(Entries(s))
  {
    hide ValidVersion, Sorted, VersionEntries, ReadableGroups, NewerThanVersion, DistinctSequences, WrittenBy,
         Flatten, Contents, VersionGroups;
    var groups := VersionGroups(s.levels, NUM_LEVELS);
    var streams, memtables := Streams(groups), [s.mem] + (if s.imm.Some? then [s.imm.value] else []);
    VersionIsReadable(s.levels, s.nextFile);
    AllOfStreams(s.levels, s.nextFile, groups);
    NewerThanAllFiles(s.mem, s.levels);
    NewerThanAllFiles(ImmEntries(s), s.levels);
    forall c | 0 <= c < |groups| ensures Sorted(streams[c]) {
      StreamIsSorted(s.levels, s.nextFile, groups, c);
    }
    forall c, d, e | 0 <= c < d < |groups| && e in streams[c] ensures e !in streams[d] {
      StreamsShareNothing(s.levels, s.nextFile, groups, c, d, e);
    }
    forall c, e | 0 <= c < |groups| && e in streams[c] ensures e in VersionEntries(s.levels) {
      assert streams[c] in streams && e in AllOf(streams);
    }
    forall c, d, e | 0 <= c < |memtables| && 0 <= d < |streams| && e in memtables[c] ensures e !in streams[d] {
      assert memtables[c] == s.mem || memtables[c] == ImmEntries(s);
      assert e !in VersionEntries(s.levels);
    }
    AllOfJoin(memtables, streams);
    MemtableEntries(s, memtables);
    MemtablesFirst(memtables, streams);
  }

  lemma AllOfJoin(a: seq<seq<Entry>>, b: seq<seq<Entry>>)
    ensures AllOf(a + b) == AllOf(a) + AllOf(b)
  {
  }

  lemma MemtableEntries(s: State, memtables: seq<seq<Entry>>)
    requires memtables == [s.mem] + (if s.imm.Some? then [s.imm.value] else [])
    ensures AllOf(memtables) == SetOf(s.mem) + SetOf(ImmEntries(s))
  {
    assert s.mem in memtables && (s.imm.Some? ==> memtables[1] in memtables);
    forall e ensures e in AllOf(memtables) <==> e in SetOf(s.mem) + SetOf(ImmEntries(s)) {
    }
  }

  lemma MemtablesFirst(memtables: seq<seq<Entry>>, streams: seq<seq<Entry>>)
    requires ShareNothing(memtables) && ShareNothing(streams)
    requires forall c, d, e :: 0 <= c < |memtables| && 0 <= d < |streams| && e in memtables[c] ==> e !in streams[d]
    ensures ShareNothing(memtables + streams)
  {
  }

  lemma NothingFound(user: UserKey, sequence: Sequence)
    ensures FindInRun([], user, sequence) == NotFound
  {
  }
}
