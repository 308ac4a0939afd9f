/** The database as a state machine: writes, memtable switches and flushes, moves,
    compactions and snapshots, and what every run of them keeps. */
module Database {
  import opened Keys
  import opened Files
  import opened Inputs
  import opened Compactions
  import opened Versions
  import opened Replacement
  import opened DropRules

  datatype State = State(mem: seq<Entry>, imm: Option<seq<Entry>>, levels: Levels,
                         lastSequence: nat, nextFile: nat, snapshots: seq<nat>)

  function ImmEntries(s: State): seq<Entry> {
    match s.imm
    case None => []
    case Some(entries) => entries
  }

  ghost function Entries(s: State): set<Entry> {
    SetOf(s.mem) + SetOf(ImmEntries(s)) + VersionEntries(s.levels)
  }

  /** The oldest live snapshot, or the present when there is none. */
  function SmallestSnapshot(s: State): nat {
    if s.snapshots == [] then s.lastSequence else s.snapshots[0]
  }

  ghost predicate NewerThanVersion(run: seq<Entry>, levels: Levels) {
    forall l, f :: 0 <= l < |levels| && f in levels[l] ==> Newer(run, f.entries)
  }

  ghost predicate SnapshotsOrdered(snapshots: seq<nat>, lastSequence: nat) {
    && (forall i, j :: 0 <= i < j < |snapshots| ==> snapshots[i] <= snapshots[j])
    && forall i :: 0 <= i < |snapshots| ==> snapshots[i] <= lastSequence
  }

  ghost predicate WrittenBy(es: set<Entry>, lastSequence: nat) {
    forall e :: e in es ==> e.key.sequence <= lastSequence
  }

  ghost predicate Inv(s: State) {
    && Sorted(s.mem) && Sorted(ImmEntries(s))
    && ValidVersion(s.levels, s.nextFile)
    && Newer(s.mem, ImmEntries(s))
    && NewerThanVersion(s.mem, s.levels) && NewerThanVersion(ImmEntries(s), s.levels)
    && DistinctSequences(Entries(s))
    && WrittenBy(Entries(s), s.lastSequence) && s.lastSequence < MAX_SEQUENCE
    && SnapshotsOrdered(s.snapshots, s.lastSequence)
  }

  ghost predicate Init(s: State) {
    s == State([], None, seq(NUM_LEVELS, _ => []), 0, 2, [])
  }

  // ------------------------------------------------------------------------- the steps

  datatype Step =
    | Write(user: UserKey, kind: Kind, value: string)
    | SwitchMemTable
    | FlushNothing
    | Flush(level: nat, file: File)
    | Move(from: nat, file: File)
    | Compact(upper: nat, inputs0: seq<File>, inputs1: seq<File>, merged: seq<Entry>, outputs: seq<File>)
    | TakeSnapshot
    | ReleaseSnapshot(index: nat)

  function InsertSorted(run: seq<Entry>, e: Entry): seq<Entry> {
    var i := LowerBound(run, e.key);
    run[..i] + [e] + run[i..]
  }

  ghost function Deep(levels: Levels, L: nat): seq<seq<File>>
    requires L + 2 <= |levels|
  {
    levels[L + 2..]
  }

  ghost predicate WriteStep(s: State, s': State, user: UserKey, kind: Kind, value: string) {
    && s.lastSequence + 1 < MAX_SEQUENCE
    && s' == s.(mem := InsertSorted(s.mem, Entry(InternalKey(user, s.lastSequence + 1, kind), value)),
                lastSequence := s.lastSequence + 1)
  }

  ghost predicate FlushStep(s: State, s': State, level: nat, f: File) {
    && s.imm.Some? && s.imm.value != []
    && ValidFile(f) && f.number == s.nextFile && f.entries == s.imm.value
    && level < NUM_LEVELS && (level > 0 ==> Settles(s.levels, level, f))
    && s' == s.(imm := None, levels := s'.levels, nextFile := s.nextFile + 1)
    && Added(s.levels, s'.levels, level, f)
  }

  ghost predicate MoveStep(s: State, s': State, L: nat, f: File) {
    && ChosenInputs(s.levels, L, [f], [])
    && s' == s.(levels := s'.levels)
    && Replaced(s.levels, s'.levels, L, [f], [], [f])
  }

  /** `merged` is what the merging iterator over the inputs yields. */
  ghost predicate MergedInputs(inputs0: seq<File>, inputs1: seq<File>, merged: seq<Entry>) {
    Sorted(merged) && SetOf(merged) == Contents(inputs0) + Contents(inputs1)
  }

  ghost predicate CompactStep(s: State, s': State, L: nat, inputs0: seq<File>, inputs1: seq<File>,
                              merged: seq<Entry>, outputs: seq<File>) {
    && ChosenInputs(s.levels, L, inputs0, inputs1)
    && MergedInputs(inputs0, inputs1, merged)
    && OutputFiles(outputs, s.nextFile, Kept(merged, SmallestSnapshot(s), Deep(s.levels, L), |merged|))
    && s' == s.(levels := s'.levels, nextFile := s.nextFile + |outputs|)
    && Replaced(s.levels, s'.levels, L, inputs0, inputs1, outputs)
  }

  ghost predicate Next(s: State, s': State, step: Step) {
    match step
    case Write(user, kind, value) => WriteStep(s, s', user, kind, value)
    case SwitchMemTable => s.imm.None? && s' == s.(imm := Some(s.mem), mem := [], nextFile := s.nextFile + 1)
    case FlushNothing => s.imm == Some([]) && s' == s.(imm := None, nextFile := s.nextFile + 1)
    case Flush(level, f) => FlushStep(s, s', level, f)
    case Move(from, file) => MoveStep(s, s', from, file)
    case Compact(upper, inputs0, inputs1, merged, outputs) =>
      CompactStep(s, s', upper, inputs0, inputs1, merged, outputs)
    case TakeSnapshot => s' == s.(snapshots := s.snapshots + [s.lastSequence])
    case ReleaseSnapshot(i) => i < |s.snapshots| && s' == s.(snapshots := s.snapshots[..i] + s.snapshots[i + 1..])
  }

  // ------------------------------------------------------------- the invariant, step by step

  lemma EmptyVersion(levels: Levels, nextFile: nat)
    requires forall l :: 0 <= l < |levels| ==> levels[l] == []
    ensures ValidVersion(levels, nextFile) && VersionEntries(levels) == {}
  {
    hide Newer, ValidFile;
  }

  lemma InitHasInv(s: State)
    requires Init(s)
    ensures Inv(s)
  {
    hide ValidVersion, VersionEntries;
    EmptyVersion(s.levels, s.nextFile);
    assert Entries(s) == {};
  }

  lemma InsertSplits(run: seq<Entry>, e: Entry, j: nat)
    requires Sorted(run) && forall x :: x in run ==> x.key.user != e.key.user || x.key.sequence < e.key.sequence
    requires j < |run|
    ensures if j < LowerBound(run, e.key) then Precedes(run[j].key, e.key) else Precedes(e.key, run[j].key)
  {
    var i := LowerBound(run, e.key);
    assert run[j] in run;
    if j >= i {
      assert run[i] in run && (i < j ==> Precedes(run[i].key, run[j].key));
    }
  }

  lemma SortedJoin(a: seq<Entry>, e: Entry, b: seq<Entry>)
    requires Sorted(a) && Sorted(b)
    requires forall i :: 0 <= i < |a| ==> Precedes(a[i].key, e.key)
    requires forall i :: 0 <= i < |b| ==> Precedes(e.key, b[i].key)
    ensures Sorted(a + [e] + b)
  {
  }

  lemma InsertMembers(run: seq<Entry>, e: Entry)
    requires Sorted(run) && forall x :: x in run ==> x.key.user != e.key.user || x.key.sequence < e.key.sequence
    ensures Sorted(InsertSorted(run, e)) && SetOf(InsertSorted(run, e)) == SetOf(run) + {e}
  {
    hide Precedes, LowerBound;
    var i := LowerBound(run, e.key);
    forall j | 0 <= j < |run|
      ensures if j < i then Precedes(run[j].key, e.key) else Precedes(e.key, run[j].key)
    {
      InsertSplits(run, e, j);
    }
    SortedJoin(run[..i], e, run[i..]);
    assert run == run[..i] + run[i..];
  }

  lemma FileEntries(levels: Levels, l: nat, f: File)
    requires l < |levels| && f in levels[l]
    ensures forall e :: e in f.entries ==> e in VersionEntries(levels)
  {
  }

  lemma NewestWrite(es: set<Entry>, run: seq<Entry>, e: Entry, last: nat)
    requires WrittenBy(es, last) && e.key.sequence == last + 1
    requires forall x :: x in run ==> x in es
    ensures forall x :: x in run ==> x.key.sequence < e.key.sequence
  {
  }

  lemma NewerWithWrite(run: seq<Entry>, run': seq<Entry>, older: seq<Entry>, e: Entry)
    requires SetOf(run') == SetOf(run) + {e} && Newer(run, older)
    requires forall x :: x in older ==> x.key.sequence < e.key.sequence
    ensures Newer(run', older)
  {
    forall x, y | x in run' && y in older && x.key.user == y.key.user ensures x.key.sequence > y.key.sequence {
      assert x in SetOf(run');
    }
  }

  lemma WriteKeepsInv(s: State, s': State, user: UserKey, kind: Kind, value: string)
    requires Inv(s) && WriteStep(s, s', user, kind, value)
    ensures Inv(s')
    ensures Entries(s') == Entries(s) + {Entry(InternalKey(user, s.lastSequence + 1, kind), value)}
  {
    hide ValidVersion, VersionEntries, Newer, InsertSorted, Sorted, WrittenBy;
    var e := Entry(InternalKey(user, s.lastSequence + 1, kind), value);
    NewestWrite(Entries(s), s.mem, e, s.lastSequence);
    NewestWrite(Entries(s), ImmEntries(s), e, s.lastSequence);
    InsertMembers(s.mem, e);
    NewerWithWrite(s.mem, s'.mem, ImmEntries(s), e);
    forall l, f | 0 <= l < |s.levels| && f in s.levels[l] ensures Newer(s'.mem, f.entries) {
      FileEntries(s.levels, l, f);
      NewestWrite(Entries(s), f.entries, e, s.lastSequence);
      NewerWithWrite(s.mem, s'.mem, f.entries, e);
    }
    assert Entries(s') == Entries(s) + {e};
    WriteStaysDistinct(Entries(s), e, s.lastSequence);
  }

  lemma WriteStaysDistinct(es: set<Entry>, e: Entry, last: nat)
    requires WrittenBy(es, last) && DistinctSequences(es) && e.key.sequence == last + 1
    ensures WrittenBy(es + {e}, last + 1) && DistinctSequences(es + {e})
  {
  }

  lemma FlushKeepsInv(s: State, s': State, level: nat, f: File)
    requires Inv(s) && FlushStep(s, s', level, f)
    ensures Inv(s') && Entries(s') == Entries(s)
  {
    hide ValidVersion, VersionEntries, Added, Settles, DistinctSequences, Newer, Sorted, ValidFile;
    assert Flushable(s.levels, level, f, s.nextFile) by {
      assert VersionEntries(s.levels) + (set e | e in f.entries) <= Entries(s);
      DistinctSubset(Entries(s), VersionEntries(s.levels) + set e | e in f.entries);
    }
    FlushKeepsVersion(s.levels, s'.levels, level, f, s.nextFile);
    forall l, g | 0 <= l < |s'.levels| && g in s'.levels[l] ensures Newer(s.mem, g.entries) {
      InAdded(s.levels, s'.levels, level, f, l, g);
    }
    forall l, g | 0 <= l < |s'.levels| && g in s'.levels[l] ensures Newer([], g.entries) {
      NewerThanNothing(g.entries);
    }
    NewerThanNothing(s.mem);
    assert ImmEntries(s') == [];
    assert Entries(s') == Entries(s);
  }

  lemma NewerThanNothing(run: seq<Entry>)
    ensures Newer(run, []) && Newer([], run) && Sorted([])
  {
  }

  /** A file number may be spent on something else, such as a log. */
  lemma SpendNumber(levels: Levels, nextFile: nat)
    requires ValidVersion(levels, nextFile)
    ensures ValidVersion(levels, nextFile + 1)
  {
    hide VersionEntries, DistinctSequences, Newer, AgeOrdered, AgeNumbered, Ordered, ListingOf, ValidFile;
  }

  lemma SwitchKeepsInv(s: State, s': State)
    requires Inv(s) && s.imm.None? && s' == s.(imm := Some(s.mem), mem := [], nextFile := s.nextFile + 1)
    ensures Inv(s') && Entries(s') == Entries(s)
  {
    SpendNumber(s.levels, s.nextFile);
    hide ValidVersion, VersionEntries, DistinctSequences, Newer, Sorted;
    NewerThanNothing(s.mem);
    assert Entries(s') == Entries(s);
    forall l, g | 0 <= l < |s'.levels| && g in s'.levels[l] ensures Newer([], g.entries) {
      NewerThanNothing(g.entries);
    }
  }

  lemma FlushNothingKeepsInv(s: State, s': State)
    requires Inv(s) && s.imm == Some([]) && s' == s.(imm := None, nextFile := s.nextFile + 1)
    ensures Inv(s') && Entries(s') == Entries(s)
  {
    SpendNumber(s.levels, s.nextFile);
    hide ValidVersion, VersionEntries, DistinctSequences, Newer, Sorted;
    assert ImmEntries(s') == ImmEntries(s);
  }

  // ------------------------------------------------------------ moves and compactions

  /** Everything a compaction leaves alone: the memtables and the files outside its inputs. */
  ghost function Rest(s: State, L: nat, inputs0: seq<File>, inputs1: seq<File>): set<Entry> {
    SetOf(s.mem) + SetOf(ImmEntries(s)) + Outside(s.levels, L, inputs0, inputs1)
  }

  lemma EntriesAround(s: State, L: nat, inputs0: seq<File>, inputs1: seq<File>)
    requires ChosenInputs(s.levels, L, inputs0, inputs1)
    ensures Entries(s) == Rest(s, L, inputs0, inputs1) + (Contents(inputs0) + Contents(inputs1))
  {
    hide ChosenInputs, Outside, Contents;
    EntriesSplit(s.levels, L, inputs0, inputs1);
  }

  /** Replacing inputs by drawn outputs keeps the invariant of the database. */
  lemma ReplacementKeepsInv(s: State, s': State, L: nat, inputs0: seq<File>, inputs1: seq<File>, outputs: seq<File>)
    requires Inv(s) && ChosenInputs(s.levels, L, inputs0, inputs1)
    requires s' == s.(levels := s'.levels, nextFile := s'.nextFile)
    requires DrawnFrom(inputs0, inputs1, outputs) && OutputsNumbered(inputs0, outputs, s.nextFile, s'.nextFile)
    requires Replaced(s.levels, s'.levels, L, inputs0, inputs1, outputs)
    ensures Inv(s') && Entries(s') == Rest(s, L, inputs0, inputs1) + Contents(outputs)
  {
    hide ChosenInputs, Replaced, DrawnFrom, OutputsNumbered, ValidVersion, VersionEntries, Outside, Contents,
         Newer, Sorted, DistinctSequences;
    ReplacementKeepsVersion(s.levels, s'.levels, L, inputs0, inputs1, outputs, s.nextFile, s'.nextFile);
    assert ImmEntries(s') == ImmEntries(s);
    assert Entries(s') <= Entries(s);
    DistinctSubset(Entries(s), Entries(s'));
    RunStaysNewer(s.mem, s.levels, s'.levels, L, inputs0, inputs1, outputs);
    RunStaysNewer(ImmEntries(s), s.levels, s'.levels, L, inputs0, inputs1, outputs);
  }

  lemma RunStaysNewer(run: seq<Entry>, before: Levels, after: Levels, L: nat, inputs0: seq<File>, inputs1: seq<File>,
                      outputs: seq<File>)
    requires NewerThanVersion(run, before) && ChosenInputs(before, L, inputs0, inputs1)
    requires DrawnFrom(inputs0, inputs1, outputs) && Replaced(before, after, L, inputs0, inputs1, outputs)
    ensures NewerThanVersion(run, after)
  {
    hide ChosenInputs, Replaced, DrawnFrom, Less;
    forall l, g | 0 <= l < |after| && g in after[l] ensures Newer(run, g.entries) {
      InReplaced(before, after, L, inputs0, inputs1, outputs, l, g);
      if g !in before[l] {
        forall x, y | x in run && y in g.entries && x.key.user == y.key.user ensures x.key.sequence > y.key.sequence {
          var m, h := OutputSource(before, L, inputs0, inputs1, outputs, g, y);
          assert Newer(run, h.entries);
        }
      }
    }
  }

  /** Output files of the compaction loop, as a version sees them. */
  lemma OutputsAreDrawn(inputs0: seq<File>, inputs1: seq<File>, merged: seq<Entry>, outputs: seq<File>,
                        firstNumber: nat, snapshot: nat, deep: seq<seq<File>>)
    requires MergedInputs(inputs0, inputs1, merged)
    requires OutputFiles(outputs, firstNumber, Kept(merged, snapshot, deep, |merged|))
    ensures DrawnFrom(inputs0, inputs1, outputs) && Contents(outputs) == Survivors(merged, snapshot, deep)
    ensures OutputsNumbered(inputs0, outputs, firstNumber, firstNumber + |outputs|)
  {
    hide Sorted, ValidFile, Kept, Ordered;
    var kept := Kept(merged, snapshot, deep, |merged|);
    FlattenMembers(outputs);
    SurvivorsAreInputs(merged, snapshot, deep);
    KeptIsSorted(merged, snapshot, deep, |merged|);
    FlattenOrdered(outputs);
    assert Contents(outputs) == SetOf(kept);
    forall o, x | o in outputs && x in o.entries ensures x in Contents(inputs0) || x in Contents(inputs1) {
      assert x in Contents(outputs);
      assert x in SetOf(merged);
    }
  }

  lemma {:induction false} FlattenOrdered(files: seq<File>)
    requires AllValid(files) && Sorted(Flatten(files))
    ensures Ordered(files)
  {
    if files != [] {
      var front, last := files[..|files| - 1], files[|files| - 1];
      assert files == front + [last];
      SortedParts(Flatten(front), last.entries);
      FlattenOrdered(front);
      forall i | 0 <= i < |front| ensures Less(front[i].largest, last.smallest) {
        FileBeforeLast(front, last, i);
      }
    }
  }

  lemma SortedParts(a: seq<Entry>, b: seq<Entry>)
    requires Sorted(a + b)
    ensures Sorted(a)
  {
    assert forall i :: 0 <= i < |a| ==> a[i] == (a + b)[i];
  }

  lemma FileBeforeLast(front: seq<File>, last: File, i: nat)
    requires AllValid(front) && ValidFile(last) && Sorted(Flatten(front) + last.entries) && i < |front|
    ensures Less(front[i].largest, last.smallest)
  {
    hide Sorted, Flatten;
    assert front[i] in front && ValidFile(front[i]);
    var e := front[i].entries[|front[i].entries| - 1];
    assert e in Flatten(front) by { FlattenMembers(front); assert e in front[i].entries; }
    LastBelowFirst(Flatten(front), last.entries, e);
  }

  lemma LastBelowFirst(a: seq<Entry>, b: seq<Entry>, e: Entry)
    requires Sorted(a + b) && e in a && |b| > 0
    ensures Precedes(e.key, b[0].key)
  {
    var i :| 0 <= i < |a| && a[i] == e;
    assert (a + b)[i] == e && (a + b)[|a|] == b[0];
  }

  lemma CompactKeepsInv(s: State, s': State, L: nat, inputs0: seq<File>, inputs1: seq<File>, merged: seq<Entry>,
                        outputs: seq<File>)
    requires Inv(s) && CompactStep(s, s', L, inputs0, inputs1, merged, outputs)
    ensures Inv(s')
    ensures Entries(s) == Rest(s, L, inputs0, inputs1) + SetOf(merged)
    ensures Entries(s') == Rest(s, L, inputs0, inputs1) + Survivors(merged, SmallestSnapshot(s), Deep(s.levels, L))
  {
    hide Inv, ChosenInputs, Replaced, OutputFiles, Rest, Kept;
    assert L + 2 <= |s.levels| by { ChosenFacts(s.levels, L, inputs0, inputs1); }
    OutputsAreDrawn(inputs0, inputs1, merged, outputs, s.nextFile, SmallestSnapshot(s), Deep(s.levels, L));
    ReplacementKeepsInv(s, s', L, inputs0, inputs1, outputs);
    EntriesAround(s, L, inputs0, inputs1);
  }

  lemma MovedFileIsDrawn(f: File)
    requires ValidFile(f)
    ensures DrawnFrom([f], [], [f])
  {
    hide ValidFile;
    OneFile(f);
    assert forall o :: o in [f] ==> o == f;
  }

  lemma MoveKeepsInv(s: State, s': State, L: nat, f: File)
    requires Inv(s) && MoveStep(s, s', L, f)
    ensures Inv(s') && Entries(s') == Entries(s)
  {
    hide Replaced, Rest, ChosenInputs, DrawnFrom, Contents, ValidVersion, Newer, Sorted, DistinctSequences,
         VersionEntries;
    assert ValidFile(f) by { MovedFileIsValid(s.levels, s.nextFile, L, f); }
    MovedFileIsDrawn(f);
    ReplacementKeepsInv(s, s', L, [f], [], [f]);
    EntriesAround(s, L, [f], []);
    OneFile(f);
  }

  lemma MovedFileIsValid(levels: Levels, nextFile: nat, L: nat, f: File)
    requires ValidVersion(levels, nextFile) && ChosenInputs(levels, L, [f], [])
    ensures ValidFile(f)
  {
    hide UpperClosed, LowerInputs, Newer, AgeOrdered, Numbered, ListingOf, ValidFile;
    assert f in [f];
  }

  lemma OneFile(f: File)
    ensures Contents([f]) == SetOf(f.entries) && Contents([]) == {}
  {
  }

  lemma SnapshotStepKeepsInv(s: State, s': State, step: Step)
    requires Inv(s) && Next(s, s', step) && (step.TakeSnapshot? || step.ReleaseSnapshot?)
    ensures Inv(s') && Entries(s') == Entries(s)
  {
    hide ValidVersion, VersionEntries, DistinctSequences, Newer, Sorted;
    assert ImmEntries(s') == ImmEntries(s);
    assert Entries(s') == Entries(s);
  }

  /** Every step keeps the invariant. */
  lemma NextKeepsInv(s: State, s': State, step: Step)
    requires Inv(s) && Next(s, s', step)
    ensures Inv(s')
  {
    hide Inv, WriteStep, FlushStep, MoveStep, CompactStep;
    match step {
      case Write(user, kind, value) => WriteKeepsInv(s, s', user, kind, value);
      case SwitchMemTable => SwitchKeepsInv(s, s');
      case FlushNothing => FlushNothingKeepsInv(s, s');
      case Flush(level, f) => FlushKeepsInv(s, s', level, f);
      case Move(from, file) => MoveKeepsInv(s, s', from, file);
      case Compact(upper, inputs0, inputs1, merged, outputs) =>
        CompactKeepsInv(s, s', upper, inputs0, inputs1, merged, outputs);
      case TakeSnapshot => SnapshotStepKeepsInv(s, s', step);
      case ReleaseSnapshot(i) => SnapshotStepKeepsInv(s, s', step);
    }
  }
}
