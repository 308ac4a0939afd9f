/** A compaction during which the memtable is written out, as the loop allows: exactly when
    that comes to the same as writing it out afterwards. */
module Interruptions {
  import opened Keys
  import opened Files
  import opened Inputs
  import opened Covers
  import opened Compactions
  import opened Versions
  import opened Replacement
  import opened Manifest
  import opened Database
  import Runs

  /** What may happen between the start of a compaction and the installation of its outputs. */
  ghost predicate Foreground(step: Step) {
    !step.Move? && !step.Compact?
  }

  ghost predicate AllForeground(steps: seq<Step>) {
    forall k :: 0 <= k < |steps| ==> Foreground(steps[k])
  }

  /** Inputs, snapshot and deeper levels are those of the moment the compaction starts. */
  ghost predicate Started(s: State, c: Step) {
    && c.Compact? && ChosenInputs(s.levels, c.upper, c.inputs0, c.inputs1)
    && MergedInputs(c.inputs0, c.inputs1, c.merged)
    && OutputFiles(c.outputs, s.nextFile, Kept(c.merged, SmallestSnapshot(s), Deep(s.levels, c.upper), |c.merged|))
  }

  /** The compaction c starts, other steps are taken, and its outputs replace its inputs in
      the version that is current by then. */
  ghost predicate Interrupted(start: State, c: Step, states: seq<State>, steps: seq<Step>, end: State) {
    && Started(start, c) && Runs.IsRun(states, steps)
    && AllForeground(steps)
    && states[0] == start.(nextFile := start.nextFile + |c.outputs|)
    && end == states[|steps|].(levels := end.levels)
    && Replaced(states[|steps|].levels, end.levels, c.upper, c.inputs0, c.inputs1, c.outputs)
  }

  /** No file that has come to the output level meanwhile overlaps an output. */
  ghost predicate KeepsApart(before: Levels, after: Levels, c: Step)
    requires c.Compact? && c.upper + 1 < NUM_LEVELS
  {
    forall f, o :: f in after[c.upper + 1] && f !in before[c.upper + 1] && o in c.outputs ==> Separated(f, o)
  }

  // -------------------------------------------------------------------------- listings

  lemma ListingWith(files: seq<File>, members: set<File>, f: File)
    requires ListingOf(files, members) && forall g :: g in files ==> g.number != f.number
    ensures ListingOf(InsertFile(files, f), members + {f})
  {
    hide BySmallestKey, InsertFile;
    InsertFileSorted(files, f);
  }

  lemma {:induction false} ListingWithAll(files: seq<File>, members: set<File>, more: seq<File>) returns (r: seq<File>)
    requires ListingOf(files, members)
    requires forall f, g :: f in files && g in more ==> f.number != g.number
    requires forall i, j :: 0 <= i < j < |more| ==> more[i].number != more[j].number
    ensures ListingOf(r, members + AsSet(more))
    decreases more
  {
    hide BySmallestKey, InsertFile;
    if more == [] {
      r := files;
      assert members + AsSet(more) == members;
    } else {
      ListingWith(files, members, more[0]);
      r := ListingWithAll(InsertFile(files, more[0]), members + {more[0]}, more[1..]);
      assert members + {more[0]} + AsSet(more[1..]) == members + AsSet(more);
    }
  }

  lemma {:induction false} ListingWithout(files: seq<File>, members: set<File>, gone: seq<File>) returns (r: seq<File>)
    requires ListingOf(files, members)
    ensures ListingOf(r, members - AsSet(gone)) && Subset(r, files)
  {
    hide BySmallestKey;
    if files == [] {
      r := [];
    } else {
      var n := |files| - 1;
      FrontIsListing(files, members);
      var front := ListingWithout(files[..n], members - {files[n]}, gone);
      r := if files[n] in gone then front else front + [files[n]];
      forall i | 0 <= i < |front| ensures BySmallestKey(front[i], files[n]) {
        assert front[i] in files[..n];
      }
      assert files == files[..n] + [files[n]];
    }
  }

  /** The outputs can be installed. */
  lemma ReplacedExists(levels: Levels, nextFile: nat, L: nat, inputs0: seq<File>, inputs1: seq<File>,
                       outputs: seq<File>)
    returns (after: Levels)
    requires ValidVersion(levels, nextFile) && L + 1 < NUM_LEVELS
    requires forall i :: 0 <= i < |outputs| ==> outputs[i].number == nextFile + i
    ensures Replaced(levels, after, L, inputs0, inputs1, outputs)
  {
    hide ListingOf, Ordered, AgeNumbered, AgeOrdered, DistinctSequences, AllValid;
    var upper := ListingWithout(levels[L], AsSet(levels[L]), inputs0);
    var lower := ListingWithout(levels[L + 1], AsSet(levels[L + 1]), inputs1);
    lower := ListingWithAll(lower, AsSet(levels[L + 1]) - AsSet(inputs1), outputs);
    after := levels[L := upper][L + 1 := lower];
  }

  lemma AddedExists(levels: Levels, nextFile: nat, level: nat, f: File) returns (after: Levels)
    requires ValidVersion(levels, nextFile) && level < NUM_LEVELS && f.number == nextFile
    ensures Added(levels, after, level, f)
  {
    hide ListingOf, Ordered, AgeNumbered, AgeOrdered, DistinctSequences, AllValid;
    ListingWith(levels[level], AsSet(levels[level]), f);
    after := levels[level := InsertFile(levels[level], f)];
    assert forall l :: 0 <= l < NUM_LEVELS ==> AsSet(levels[l]) + {} == AsSet(levels[l]);
  }

  // ------------------------------------------------------------------ the other order

  /** t is s with the outputs of c already installed. */
  ghost predicate Shifted(s: State, t: State, c: Step) {
    && c.Compact? && t == s.(levels := t.levels)
    && Replaced(s.levels, t.levels, c.upper, c.inputs0, c.inputs1, c.outputs)
  }

  /** The inputs are still there, and the outputs hold nothing but what they hold. */
  ghost predicate InPlace(s: State, c: Step) {
    && c.Compact? && c.upper + 1 < NUM_LEVELS
    && Subset(c.inputs0, s.levels[c.upper]) && Subset(c.inputs1, s.levels[c.upper + 1])
    && DrawnFrom(c.inputs0, c.inputs1, c.outputs)
  }

  /** A file that settles beside the inputs settles beside the outputs, if it is apart from
      those in its own level. */
  lemma SettlesAfterwards(s: State, t: State, c: Step, level: nat, f: File)
    requires InPlace(s, c) && Shifted(s, t, c) && 0 < level && Settles(s.levels, level, f)
    requires level == c.upper + 1 ==> forall o :: o in c.outputs ==> Separated(o, f)
    ensures Settles(t.levels, level, f)
  {
    hide Replaced, Separated, ShareNoKey, AllValid, Ordered;
    forall g | g in t.levels[level] ensures Separated(g, f) {
      InReplaced(s.levels, t.levels, c.upper, c.inputs0, c.inputs1, c.outputs, level, g);
    }
    forall l, g | 0 <= l < level && g in t.levels[l] ensures ShareNoKey(g, f) {
      InReplaced(s.levels, t.levels, c.upper, c.inputs0, c.inputs1, c.outputs, l, g);
      if g !in s.levels[l] {
        OutputSharesNoKey(s, c, level, f, g);
      }
    }
  }

  lemma OutputSharesNoKey(s: State, c: Step, level: nat, f: File, o: File)
    requires InPlace(s, c) && Settles(s.levels, level, f) && level > c.upper + 1 && o in c.outputs
    ensures ShareNoKey(o, f)
  {
    hide Separated, AllValid, Ordered;
    forall x, y | x in o.entries && y in f.entries ensures x.key.user != y.key.user {
      if x in Contents(c.inputs0) {
        var g :| g in c.inputs0 && x in g.entries;
        assert ShareNoKey(g, f);
      } else {
        var g :| g in c.inputs1 && x in g.entries;
        assert ShareNoKey(g, f);
      }
    }
  }

  /** Adding a file and replacing inputs by outputs may change places. */
  lemma AddedAndReplaced(before: Levels, before': Levels, after: Levels, after': Levels, c: Step, level: nat, f: File)
    requires c.Compact? && f !in c.inputs0 && f !in c.inputs1
    requires Replaced(before, after, c.upper, c.inputs0, c.inputs1, c.outputs)
    requires Added(before, before', level, f) && Added(after, after', level, f)
    ensures Replaced(before', after', c.upper, c.inputs0, c.inputs1, c.outputs)
  {
    hide BySmallestKey;
    forall l | 0 <= l < |before|
      ensures ListingOf(after'[l], NewMembers(before', c.upper, c.inputs0, c.inputs1, c.outputs, l))
    {
      var new_ := if l == level then {f} else {};
      assert AsSet(before'[l]) == AsSet(before[l]) + new_ && AsSet(after'[l]) == AsSet(after[l]) + new_;
      assert AsSet(after[l]) == NewMembers(before, c.upper, c.inputs0, c.inputs1, c.outputs, l);
      assert AsSet(after'[l]) == NewMembers(before', c.upper, c.inputs0, c.inputs1, c.outputs, l);
    }
  }

  /** One step, taken after the installation instead of before it. */
  lemma StepShifts(s: State, s': State, step: Step, t: State, c: Step) returns (t': State)
    requires Inv(s) && Inv(t) && InPlace(s, c) && Shifted(s, t, c) && Next(s, s', step) && Foreground(step)
    requires step.Flush? && step.level == c.upper + 1 ==> forall o :: o in c.outputs ==> Separated(o, step.file)
    ensures Next(t, t', step) && Shifted(s', t', c)
  {
    hide Replaced, Separated, Added, InPlace, Settles, ValidFile, Inv;
    if step.Flush? {
      t' := FlushShifts(s, s', step, t, c);
    } else {
      t' := s'.(levels := t.levels);
    }
  }

  lemma FlushShifts(s: State, s': State, step: Step, t: State, c: Step) returns (t': State)
    requires Inv(s) && Inv(t) && InPlace(s, c) && Shifted(s, t, c) && step.Flush?
    requires FlushStep(s, s', step.level, step.file)
    requires step.level == c.upper + 1 ==> forall o :: o in c.outputs ==> Separated(o, step.file)
    ensures FlushStep(t, t', step.level, step.file) && Shifted(s', t', c)
  {
    hide Replaced, Separated, Added, InPlace, Settles, ValidFile, Inv, ValidVersion, Numbered;
    InvIsValid(t);
    var after := AddedExists(t.levels, t.nextFile, step.level, step.file);
    if step.level > 0 {
      SettlesAfterwards(s, t, c, step.level, step.file);
    }
    NotAnInput(s, c, step.file);
    AddedAndReplaced(s.levels, s'.levels, t.levels, after, c, step.level, step.file);
    t' := s'.(levels := after);
  }

  lemma InvIsValid(s: State)
    requires Inv(s)
    ensures ValidVersion(s.levels, s.nextFile) && Numbered(s.levels, s.nextFile)
  {
    hide AgeOrdered, AgeNumbered, Ordered, DistinctSequences, AllValid, ListingOf, Numbered;
  }

  lemma NotAnInput(s: State, c: Step, f: File)
    requires Inv(s) && InPlace(s, c) && f.number >= s.nextFile
    ensures f !in c.inputs0 && f !in c.inputs1
  {
    InvIsValid(s);
    hide Inv, DrawnFrom;
  }

  // --------------------------------------------------------------------- what has come

  lemma ForegroundKeepsFiles(s: State, s': State, step: Step, l: nat)
    requires Next(s, s', step) && Foreground(step) && l < NUM_LEVELS
    ensures forall f :: f in s'.levels[l] <==> f in s.levels[l] || (step.Flush? && step.level == l && f == step.file)
    ensures step.Flush? ==> step.level < NUM_LEVELS && step.file.number == s.nextFile
    ensures s'.nextFile >= s.nextFile
  {
    hide Settles, ValidFile;
    if step.Flush? {
      hide Added;
      forall f ensures f in s'.levels[l] <==> f in s.levels[l] || (step.level == l && f == step.file) {
        InAdded(s.levels, s'.levels, step.level, step.file, l, f);
      }
    }
  }

  /** Files stay, and those that come have new numbers. */
  lemma {:induction false} FilesStay(states: seq<State>, steps: seq<Step>, i: nat, j: nat, l: nat)
    requires Runs.IsRun(states, steps) && AllForeground(steps)
    requires i <= j < |states| && l < NUM_LEVELS
    ensures forall f :: f in states[i].levels[l] ==> f in states[j].levels[l]
    ensures forall f :: f in states[j].levels[l] && f !in states[i].levels[l] ==> f.number >= states[i].nextFile
    ensures states[j].nextFile >= states[i].nextFile
    decreases j - i
  {
    hide Next, Foreground;
    if i < j {
      FilesStay(states, steps, i, j - 1, l);
      ForegroundKeepsFiles(states[j - 1], states[j], steps[j - 1], l);
    }
  }

  lemma FlushedIsThere(states: seq<State>, steps: seq<Step>, i: nat)
    requires Runs.IsRun(states, steps) && AllForeground(steps)
    requires i < |steps| && steps[i].Flush?
    ensures steps[i].level < NUM_LEVELS && steps[i].file in states[|steps|].levels[steps[i].level]
    ensures steps[i].file.number >= states[0].nextFile
  {
    hide Next, Foreground;
    assert Next(states[i], states[i + 1], steps[i]);
    ForegroundKeepsFiles(states[i], states[i + 1], steps[i], 0);
    ForegroundKeepsFiles(states[i], states[i + 1], steps[i], steps[i].level);
    FilesStay(states, steps, i + 1, |steps|, steps[i].level);
    FilesStay(states, steps, 0, i, 0);
  }

  /** Numbers may be spent in advance. */
  lemma {:induction false} NumbersSpent(s: State, n: nat)
    requires Inv(s)
    ensures Inv(s.(nextFile := s.nextFile + n))
  {
    hide ValidVersion, VersionEntries, DistinctSequences, Newer, Sorted;
    if n > 0 {
      NumbersSpent(s, n - 1);
      SpendNumber(s.levels, s.nextFile + n - 1);
      var before, after := s.(nextFile := s.nextFile + n - 1), s.(nextFile := s.nextFile + n);
      assert ImmEntries(after) == ImmEntries(before) && Entries(after) == Entries(before);
    }
  }

  lemma StartedInPlace(s: State, c: Step)
    requires Inv(s) && Started(s, c)
    ensures InPlace(s, c) && c.Compact? && c.upper + 1 < NUM_LEVELS
    ensures forall i :: 0 <= i < |c.outputs| ==> c.outputs[i].number == s.nextFile + i
  {
    hide Inv, MergedInputs, OutputFiles, Kept, LowerInputs, UpperClosed;
    OutputsAreDrawn(c.inputs0, c.inputs1, c.merged, c.outputs, s.nextFile, SmallestSnapshot(s),
                    Deep(s.levels, c.upper));
    OutputNumbers(c.outputs, s.nextFile, Kept(c.merged, SmallestSnapshot(s), Deep(s.levels, c.upper), |c.merged|));
    LowerInputsAreThere(s.levels, c.upper, c.inputs0, c.inputs1);
  }

  lemma OutputNumbers(outputs: seq<File>, firstNumber: nat, entries: seq<Entry>)
    requires OutputFiles(outputs, firstNumber, entries)
    ensures forall i :: 0 <= i < |outputs| ==> outputs[i].number == firstNumber + i
  {
  }

  lemma LowerInputsAreThere(levels: Levels, L: nat, inputs0: seq<File>, inputs1: seq<File>)
    requires ChosenInputs(levels, L, inputs0, inputs1)
    ensures Subset(inputs1, levels[L + 1])
  {
    var s, r := RangeOf(inputs0);
  }

  // ------------------------------------------------------------------------ the theorem

  /** The states the run goes through when the outputs are installed first. */
  lemma {:induction false} ShiftedRun(c: Step, states: seq<State>, steps: seq<Step>, first: State, n: nat)
    returns (ts: seq<State>)
    requires Runs.IsRun(states, steps) && AllForeground(steps) && n <= |steps|
    requires Inv(states[0]) && Inv(first) && InPlace(states[0], c) && Shifted(states[0], first, c)
    requires forall k :: 0 <= k < |steps| && steps[k].Flush? && steps[k].level == c.upper + 1 ==>
      forall o :: o in c.outputs ==> Separated(o, steps[k].file)
    ensures |ts| == n + 1 && ts[0] == first && Runs.IsRun(ts, steps[..n]) && Inv(ts[n]) && Shifted(states[n], ts[n], c)
  {
    hide Inv, Next, Foreground, InPlace, Shifted, Separated;
    if n == 0 {
      ts := [first];
    } else {
      ts := ShiftedRun(c, states, steps, first, n - 1);
      Runs.RunKeepsInv(states, steps, n - 1);
      StillInPlace(c, states, steps, n - 1);
      assert Next(states[n - 1], states[n], steps[n - 1]);
      var t := StepShifts(states[n - 1], states[n], steps[n - 1], ts[n - 1], c);
      NextKeepsInv(ts[n - 1], t, steps[n - 1]);
      Runs.OneStepMore(ts, steps[..n - 1], steps[n - 1], t);
      assert steps[..n] == steps[..n - 1] + [steps[n - 1]];
      ts := ts + [t];
    }
  }

  lemma StillInPlace(c: Step, states: seq<State>, steps: seq<Step>, i: nat)
    requires Runs.IsRun(states, steps) && AllForeground(steps) && i < |states|
    requires InPlace(states[0], c)
    ensures InPlace(states[i], c)
  {
    hide Next, Foreground, DrawnFrom, Runs.IsRun;
    FilesStay(states, steps, 0, i, c.upper);
    FilesStay(states, steps, 0, i, c.upper + 1);
  }

  /** A compaction that keeps apart from what comes meanwhile is the compaction taken at once,
      and then the other steps: nothing that holds of runs is lost by the interruption. */
  lemma InterruptionCommutes(start: State, c: Step, states: seq<State>, steps: seq<Step>, end: State)
    returns (after: seq<State>)
    requires Inv(start) && Interrupted(start, c, states, steps, end) && c.upper + 1 < NUM_LEVELS
    requires KeepsApart(start.levels, states[|steps|].levels, c)
    ensures Runs.IsRun([start] + after, [c] + steps) && |after| == |steps| + 1 && after[|steps|] == end && Inv(end)
    ensures Runs.Safe(start, c) ==> Runs.SafeRun([start] + after, [c] + steps)
  {
    hide Inv, Next, Foreground, InPlace, Separated, Replaced, MergedInputs, OutputFiles, Kept, ChosenInputs, Deep;
    StartedInPlace(start, c);
    NumbersSpent(start, |c.outputs|);
    InvIsValid(start);
    var levels := ReplacedExists(start.levels, start.nextFile, c.upper, c.inputs0, c.inputs1, c.outputs);
    var first := states[0].(levels := levels);
    assert Next(start, first, c) by { CompactsAtOnce(start, c, first); }
    NextKeepsInv(start, first, c);
    FlushesKeepApart(start, c, states, steps);
    assert InPlace(states[0], c) by { SameLevelsInPlace(start, states[0], c); }
    after := ShiftedRun(c, states, steps, first, |steps|);
    assert steps[..|steps|] == steps;
    SameEnd(states[|steps|], after[|steps|], end, c);
    hide Runs.IsRun, AllForeground, Runs.Safe, Runs.SafeRun;
    RunFromFirst(start, c, after, steps);
    OtherStepsAreSafe(start, c, after, steps);
  }

  lemma OtherStepsAreSafe(start: State, c: Step, after: seq<State>, steps: seq<Step>)
    requires Runs.IsRun([start] + after, [c] + steps) && AllForeground(steps)
    ensures Runs.Safe(start, c) ==> Runs.SafeRun([start] + after, [c] + steps)
  {
    var states, all := [start] + after, [c] + steps;
    forall i | 0 < i < |all| ensures Runs.Safe(states[i], all[i]) {
      assert Foreground(steps[i - 1]);
    }
    hide Runs.Safe, Runs.IsRun;
  }

  lemma CompactsAtOnce(s: State, c: Step, s': State)
    requires Started(s, c) && s' == s.(levels := s'.levels, nextFile := s.nextFile + |c.outputs|)
    requires Replaced(s.levels, s'.levels, c.upper, c.inputs0, c.inputs1, c.outputs)
    ensures Next(s, s', c)
  {
    hide Replaced, MergedInputs, OutputFiles, Kept, ChosenInputs;
  }

  lemma SameLevelsInPlace(s: State, t: State, c: Step)
    requires InPlace(s, c) && t.levels == s.levels
    ensures InPlace(t, c)
  {
    hide DrawnFrom;
  }

  lemma FlushesKeepApart(start: State, c: Step, states: seq<State>, steps: seq<Step>)
    requires Inv(start) && c.Compact? && c.upper + 1 < NUM_LEVELS && Runs.IsRun(states, steps)
    requires AllForeground(steps) && states[0].nextFile >= start.nextFile
    requires KeepsApart(start.levels, states[|steps|].levels, c)
    ensures forall k :: 0 <= k < |steps| && steps[k].Flush? && steps[k].level == c.upper + 1 ==>
      forall o :: o in c.outputs ==> Separated(o, steps[k].file)
  {
    InvIsValid(start);
    hide Next, Foreground, Inv, Separated, Runs.IsRun;
    forall k, o | 0 <= k < |steps| && steps[k].Flush? && steps[k].level == c.upper + 1 && o in c.outputs
      ensures Separated(o, steps[k].file)
    {
      FlushedIsThere(states, steps, k);
      SeparatedSym(steps[k].file, o);
    }
  }

  lemma SameEnd(last: State, t: State, end: State, c: Step)
    requires Shifted(last, t, c) && end == last.(levels := end.levels)
    requires Replaced(last.levels, end.levels, c.upper, c.inputs0, c.inputs1, c.outputs)
    ensures t == end
  {
    hide ListingOf;
    forall l | 0 <= l < NUM_LEVELS ensures t.levels[l] == end.levels[l] {
      ListingIsUnique(t.levels[l], end.levels[l], NewMembers(last.levels, c.upper, c.inputs0, c.inputs1, c.outputs, l));
    }
  }

  lemma RunFromFirst(start: State, c: Step, after: seq<State>, steps: seq<Step>)
    requires Runs.IsRun(after, steps) && Next(start, after[0], c)
    ensures Runs.IsRun([start] + after, [c] + steps)
  {
    hide Next;
    var states, all := [start] + after, [c] + steps;
    forall i | 0 <= i < |all| ensures Next(states[i], states[i + 1], all[i]) {
      if i > 0 {
        assert Next(after[i - 1], after[i], steps[i - 1]);
      }
    }
  }

  lemma ApartInEnd(start: State, c: Step, last: State, end: State, f: File, o: File)
    requires Inv(end) && Numbered(start.levels, start.nextFile) && c.Compact? && c.upper + 1 < NUM_LEVELS
    requires Subset(c.inputs1, start.levels[c.upper + 1])
    requires Replaced(last.levels, end.levels, c.upper, c.inputs0, c.inputs1, c.outputs)
    requires f in last.levels[c.upper + 1] && f !in start.levels[c.upper + 1] && o in c.outputs && f != o
    ensures Separated(f, o)
  {
    hide Replaced, Separated, AgeOrdered, AgeNumbered, DistinctSequences, ListingOf, AllValid, Newer, Ordered;
    InReplaced(last.levels, end.levels, c.upper, c.inputs0, c.inputs1, c.outputs, c.upper + 1, f);
    InReplaced(last.levels, end.levels, c.upper, c.inputs0, c.inputs1, c.outputs, c.upper + 1, o);
    OrderedSeparates(end.levels[c.upper + 1], f, o);
  }

  /** An interrupted compaction keeps the invariant exactly when no file that came to its
      output level meanwhile overlaps one of its outputs. */
  lemma InterruptionIsSafeExactly(start: State, c: Step, states: seq<State>, steps: seq<Step>, end: State)
    requires Inv(start) && Interrupted(start, c, states, steps, end) && c.upper + 1 < NUM_LEVELS
    ensures Inv(end) <==> KeepsApart(start.levels, states[|steps|].levels, c)
  {
    if KeepsApart(start.levels, states[|steps|].levels, c) {
      hide Inv, Interrupted, KeepsApart;
      var _ := InterruptionCommutes(start, c, states, steps, end);
    }
    if Inv(end) {
      hide Inv, KeepsApart, Separated;
      ValidEndsApart(start, c, states, steps, end);
    }
  }

  lemma ValidEndsApart(start: State, c: Step, states: seq<State>, steps: seq<Step>, end: State)
    requires Inv(start) && Interrupted(start, c, states, steps, end) && c.upper + 1 < NUM_LEVELS && Inv(end)
    ensures KeepsApart(start.levels, states[|steps|].levels, c)
  {
    hide Inv, Separated, Interrupted;
    assert |states| == |steps| + 1 && c.Compact? by {
      InterruptedFacts(start, c, states, steps, end);
    }
    forall f, o | f in states[|steps|].levels[c.upper + 1] && f !in start.levels[c.upper + 1] && o in c.outputs
      ensures Separated(f, o)
    {
      NewFileIsApart(start, c, states, steps, end, f, o);
    }
  }

  lemma InterruptedFacts(start: State, c: Step, states: seq<State>, steps: seq<Step>, end: State)
    requires Interrupted(start, c, states, steps, end)
    ensures Started(start, c) && Runs.IsRun(states, steps) && |states| == |steps| + 1
    ensures states[0].levels == start.levels && states[0].nextFile == start.nextFile + |c.outputs|
    ensures AllForeground(steps)
    ensures Replaced(states[|steps|].levels, end.levels, c.upper, c.inputs0, c.inputs1, c.outputs)
  {
    hide Started, Next, Foreground, Replaced;
  }

  lemma NewFileIsApart(start: State, c: Step, states: seq<State>, steps: seq<Step>, end: State, f: File, o: File)
    requires Inv(start) && Interrupted(start, c, states, steps, end) && c.upper + 1 < NUM_LEVELS && Inv(end)
    requires |states| == |steps| + 1 && f in states[|steps|].levels[c.upper + 1] && f !in start.levels[c.upper + 1]
    requires o in c.outputs
    ensures Separated(f, o)
  {
    InterruptedFacts(start, c, states, steps, end);
    StartedInPlace(start, c);
    InvIsValid(start);
    hide Inv, Interrupted, Separated, Replaced, Started, Runs.IsRun, DrawnFrom, Foreground, Numbered, Subset,
         ValidVersion;
    FilesStay(states, steps, 0, |steps|, c.upper + 1);
    assert f.number >= states[0].nextFile && o.number < states[0].nextFile;
    InputsAreThere(start, c);
    ApartInEnd(start, c, states[|steps|], end, f, o);
  }

  lemma InputsAreThere(s: State, c: Step)
    requires InPlace(s, c)
    ensures Subset(c.inputs1, s.levels[c.upper + 1])
  {
  }

  // ------------------------------------------------------------- inputs without gaps

  /** A key of an output lies in the range of an input. */
  lemma OutputKeyIsReached(s: State, c: Step, o: File, x: Entry) returns (g: File)
    requires InPlace(s, c) && AllValid(s.levels[c.upper]) && AllValid(s.levels[c.upper + 1]) && o in c.outputs
    requires x in o.entries
    ensures g in c.inputs0 + c.inputs1 && Reaches(g, x.key.user)
  {
    hide Ordered, Sorted;
    if x in Contents(c.inputs0) {
      g :| g in c.inputs0 && x in g.entries;
    } else {
      g :| g in c.inputs1 && x in g.entries;
    }
    assert ValidFile(g) && !Less(x.key, g.smallest) && !Less(g.largest, x.key);
  }

  lemma FreeOfInput(s: State, c: Step, level: nat, f: File, g: File)
    requires InPlace(s, c) && c.upper < level < NUM_LEVELS && FreeDownTo(s.levels, level, f)
    requires g in c.inputs0 + c.inputs1
    ensures g.largest.user < f.smallest.user || f.largest.user < g.smallest.user
  {
    hide DrawnFrom;
    if g in c.inputs0 {
      assert g in s.levels[c.upper];
    } else {
      assert g in s.levels[c.upper + 1];
    }
  }

  /** A file free of inputs without gaps is free of the outputs, too. */
  lemma GapFreeKeepsApart(s: State, c: Step, level: nat, f: File, o: File)
    requires c.Compact? && InPlace(s, c) && AllValid(s.levels[c.upper]) && AllValid(s.levels[c.upper + 1])
    requires ValidFile(o)
    requires GapFree(c.inputs0 + c.inputs1) && o in c.outputs
    requires c.upper < level < NUM_LEVELS && FreeDownTo(s.levels, level, f)
    ensures Separated(f, o)
  {
    hide InPlace, AllValid, FreeDownTo, Sorted;
    assert o.entries[0] in o.entries && o.entries[|o.entries| - 1] in o.entries;
    var g := OutputKeyIsReached(s, c, o, o.entries[0]);
    var h := OutputKeyIsReached(s, c, o, o.entries[|o.entries| - 1]);
    FreeOfInput(s, c, level, f, g);
    if f.largest.user > o.smallest.user && f.smallest.user <= o.largest.user {
      var u := f.smallest.user;
      assert !Less(f.largest, f.smallest);
      if u > o.smallest.user {
        FreeOfInput(s, c, level, f, h);
        assert StartBy(c.inputs0 + c.inputs1, u) && EndAfter(c.inputs0 + c.inputs1, u);
        var k :| k in c.inputs0 + c.inputs1 && Reaches(k, u);
        FreeOfInput(s, c, level, f, k);
      }
    }
  }

  /** A file that was not there has come by a flush. */
  lemma {:induction false} CameByFlush(states: seq<State>, steps: seq<Step>, n: nat, l: nat, f: File) returns (i: nat)
    requires Runs.IsRun(states, steps) && AllForeground(steps)
    requires n < |states| && l < NUM_LEVELS && f in states[n].levels[l] && f !in states[0].levels[l]
    ensures i < n && steps[i].Flush? && steps[i].level == l && steps[i].file == f
  {
    hide Next, Foreground;
    assert Next(states[n - 1], states[n], steps[n - 1]);
    ForegroundKeepsFiles(states[n - 1], states[n], steps[n - 1], l);
    if f in states[n - 1].levels[l] {
      i := CameByFlush(states, steps, n - 1, l, f);
    } else {
      i := n - 1;
    }
  }

  /** Below level zero, flushes go only where nothing overlaps the file on the way. */
  ghost predicate FlushesAreFree(states: seq<State>, steps: seq<Step>)
    requires |steps| <= |states|
  {
    forall i :: 0 <= i < |steps| && steps[i].Flush? && steps[i].level > 0 ==>
      FreeDownTo(states[i].levels, steps[i].level, steps[i].file)
  }

  /** A compaction whose inputs leave no gap, as every automatic one, may be interrupted by
      any flushes to levels where nothing above or beside overlaps the file. */
  lemma GapFreeInterruptionIsSafe(start: State, c: Step, states: seq<State>, steps: seq<Step>, end: State)
    requires Inv(start) && Interrupted(start, c, states, steps, end)
    requires GapFree(c.inputs0 + c.inputs1)
    requires FlushesAreFree(states, steps)
    ensures c.upper + 1 < NUM_LEVELS && KeepsApart(start.levels, states[|steps|].levels, c) && Inv(end)
  {
    hide *;
    InterruptedFacts(start, c, states, steps, end);
    StartedInPlace(start, c);
    StartsValid(start, c, states, steps, end);
    SameLevelsInPlace(start, states[0], c);
    FlushedKeepApart(start.levels, c, states, steps);
    InterruptionIsSafeExactly(start, c, states, steps, end);
  }

  lemma FlushedKeepApart(before: Levels, c: Step, states: seq<State>, steps: seq<Step>)
    requires Runs.IsRun(states, steps) && AllForeground(steps) && |states| == |steps| + 1 && states[0].levels == before
    requires c.Compact? && c.upper + 1 < NUM_LEVELS
    requires Inv(states[0]) && InPlace(states[0], c) && GapFree(c.inputs0 + c.inputs1) && FlushesAreFree(states, steps)
    ensures KeepsApart(before, states[|steps|].levels, c)
  {
    hide Runs.IsRun, AllForeground, Inv, InPlace, GapFree, FlushesAreFree, Separated;
    forall f, o | f in states[|steps|].levels[c.upper + 1] && f !in before[c.upper + 1] && o in c.outputs
      ensures Separated(f, o)
    {
      FlushedKeepsApart(c, states, steps, f, o);
    }
  }

  lemma FlushedKeepsApart(c: Step, states: seq<State>, steps: seq<Step>, f: File, o: File)
    requires Runs.IsRun(states, steps) && AllForeground(steps)
    requires Inv(states[0]) && InPlace(states[0], c) && GapFree(c.inputs0 + c.inputs1) && o in c.outputs
    requires FlushesAreFree(states, steps)
    requires f in states[|steps|].levels[c.upper + 1] && f !in states[0].levels[c.upper + 1]
    ensures Separated(f, o)
  {
    assert c.Compact? && c.upper + 1 < NUM_LEVELS && |states| == |steps| + 1;
    OutputsAreValid(states[0], c);
    hide Inv, Separated, GapFree, InPlace, AllForeground, Runs.IsRun, FreeDownTo, ValidFile, AllValid, Next, DrawnFrom,
         Subset;
    var i := CameByFlush(states, steps, |steps|, c.upper + 1, f);
    StillInPlace(c, states, steps, i);
    Runs.RunKeepsInv(states, steps, i);
    LevelsAreValid(states[i]);
    GapFreeKeepsApart(states[i], c, c.upper + 1, f, o);
  }

  lemma StartsValid(start: State, c: Step, states: seq<State>, steps: seq<Step>, end: State)
    requires Inv(start) && Interrupted(start, c, states, steps, end)
    ensures Inv(states[0])
  {
    hide Inv, ChosenInputs, MergedInputs, OutputFiles, Kept, Replaced, Next;
    NumbersSpent(start, |c.outputs|);
  }

  lemma LevelsAreValid(s: State)
    requires Inv(s)
    ensures forall l :: 0 <= l < NUM_LEVELS ==> AllValid(s.levels[l])
  {
    hide AllValid, AgeOrdered, AgeNumbered, Ordered, DistinctSequences, ListingOf, Numbered;
  }

  lemma OutputsAreValid(s: State, c: Step)
    requires InPlace(s, c)
    ensures forall o :: o in c.outputs ==> ValidFile(o)
  {
    hide ValidFile;
  }
}
