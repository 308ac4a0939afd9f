/** Compacting a range of a level piece by piece: what one piece leaves to do. */
module ManualRanges {
  import opened Keys
  import opened Files
  import opened Inputs
  import opened Versions
  import opened Replacement
  import opened Database

  /** Files have left the level and none has come; what still overlaps the range does so from
      `rest` on; only the next level has changed besides. */
  ghost predicate PieceDone(before: Levels, after: Levels, level: nat, begin: Bound, end: Bound, rest: Bound)
    requires level < NUM_LEVELS
  {
    && AsSet(after[level]) < AsSet(before[level])
    && (forall f :: f in after[level] && Overlaps(f, begin, end) ==> Overlaps(f, rest, end))
    && OthersKept(before, after, level)
  }

  /** The next piece begins at the user key at which the last of the files ends. */
  predicate EndsAt(inputs0: seq<File>, rest: Bound) {
    inputs0 != [] && rest == Some(inputs0[|inputs0| - 1].largest.user)
  }

  /** What a turn of a manual compaction does: nothing is left when there is no step to take. */
  ghost predicate IsPiece(before: Levels, after: Levels, level: nat, begin: Bound, end: Bound, rest: Option<Bound>,
                          step: Option<Step>)
    requires level < NUM_LEVELS
  {
    match rest
    case None => step.None? && after == before && forall f :: f in before[level] ==> !Overlaps(f, begin, end)
    case Some(b) =>
      && step.Some? && step.value.Compact? && step.value.upper == level
      && EndsAt(step.value.inputs0, b)
      && PieceDone(before, after, level, begin, end, b)
  }

  /** Only this level and the next one have changed. */
  ghost predicate OthersKept(before: Levels, after: Levels, level: nat) {
    forall l :: 0 <= l < NUM_LEVELS && l != level && l != level + 1 ==> AsSet(after[l]) == AsSet(before[l])
  }

  lemma OthersKeptOn(start: Levels, before: Levels, after: Levels, level: nat)
    requires OthersKept(start, before, level) && OthersKept(before, after, level)
    ensures OthersKept(start, after, level)
  {
  }

  /** What a turn means for the range that the whole compaction began with. */
  lemma PieceOf(before: Levels, after: Levels, level: nat, begin: Bound, from: Bound, end: Bound, rest: Option<Bound>,
                step: Option<Step>)
    requires level < NUM_LEVELS && IsPiece(before, after, level, from, end, rest, step)
    requires forall f :: f in before[level] && Overlaps(f, begin, end) ==> Overlaps(f, from, end)
    ensures OthersKept(before, after, level)
    ensures rest.None? ==> after == before && forall f :: f in after[level] ==> !Overlaps(f, from, end)
    ensures rest.Some? ==>
      && |AsSet(after[level])| < |AsSet(before[level])|
      && forall f :: f in after[level] && Overlaps(f, begin, end) ==> Overlaps(f, rest.value, end)
  {
    hide Overlaps;
    if rest.Some? {
      FewerFiles(AsSet(before[level]), AsSet(after[level]));
      forall f | f in after[level] && Overlaps(f, begin, end) ensures Overlaps(f, rest.value, end) {
        assert f in AsSet(after[level]) && f in before[level];
      }
    }
  }

  /** A file past a run of inputs, all of it past their last one. */
  lemma PastTheRun(files: seq<File>, inputs: seq<File>, first: nat, p: nat)
    requires Seed(false, files, inputs) && first <= p < |files|
    requires files[first] in inputs && files[p] !in inputs
    ensures files[p].largest.user >= inputs[|inputs| - 1].largest.user
  {
    hide NoDuplicates;
    var a: nat, b: nat :| IsRun(files, inputs, a, b);
    var last := inputs[|inputs| - 1];
    assert last in inputs;
    var q :| 0 <= q < |files| && files[q] == last;
    assert q < b <= p;
    assert Less(last.largest, files[p].smallest) && !Less(files[p].largest, files[p].smallest);
  }

  lemma PieceLeavesRest(files: seq<File>, inputs0: seq<File>, seed: seq<File>, begin: Bound, end: Bound, f: File)
    requires Seed(false, files, inputs0) && seed != [] && Subset(seed, inputs0)
    requires seed <= Overlapping(files, begin, end)
    requires f in files && f !in inputs0 && Overlaps(f, begin, end)
    ensures Overlaps(f, Some(inputs0[|inputs0| - 1].largest.user), end)
  {
    hide Overlaps, Ordered, Contiguous, NoDuplicates, Overlapping;
    var a, c := OverlappingIsSlice(files, begin, end);
    assert seed[0] in seed && files[a] == Overlapping(files, begin, end)[0] == seed[0];
    OverlappingHas(files, begin, end, f);
    var k :| 0 <= k < |Overlapping(files, begin, end)| && Overlapping(files, begin, end)[k] == f;
    assert files[a + k] == f;
    PastTheRun(files, inputs0, a, a + k);
    OverlapsFrom(f, begin, end, inputs0[|inputs0| - 1].largest.user);
  }

  lemma OverlappingHas(files: seq<File>, begin: Bound, end: Bound, f: File)
    requires f in files && Overlaps(f, begin, end)
    ensures f in Overlapping(files, begin, end)
  {
  }

  lemma OverlapsFrom(f: File, begin: Bound, end: Bound, from: UserKey)
    requires Overlaps(f, begin, end) && f.largest.user >= from
    ensures Overlaps(f, Some(from), end)
  {
  }

  lemma PieceIsDone(before: Levels, after: Levels, level: nat, inputs0: seq<File>, inputs1: seq<File>,
                    outputs: seq<File>,
                    seed: seq<File>, begin: Bound, end: Bound)
    requires level + 1 < NUM_LEVELS && Replaced(before, after, level, inputs0, inputs1, outputs)
    requires Seed(level == 0, before[level], inputs0) && seed != [] && Subset(seed, inputs0)
    requires level > 0 ==> seed <= Overlapping(before[level], begin, end)
    requires level == 0 ==> forall f :: f in before[0] && Overlaps(f, begin, end) ==> f in seed
    ensures PieceDone(before, after, level, begin, end, Some(inputs0[|inputs0| - 1].largest.user))
  {
    hide Overlaps, Ordered, Contiguous, Detached, NoDuplicates, Overlapping, BySmallestKey;
    assert inputs0[0] in inputs0;
    assert inputs0[0] in AsSet(before[level]) && inputs0[0] !in after[level];
    forall l | 0 <= l < NUM_LEVELS ensures AsSet(after[l]) == NewMembers(before, level, inputs0, inputs1, outputs, l) {
      assert ListingOf(after[l], NewMembers(before, level, inputs0, inputs1, outputs, l));
    }
    forall f | f in after[level] && Overlaps(f, begin, end)
      ensures Overlaps(f, Some(inputs0[|inputs0| - 1].largest.user), end)
    {
      assert f in AsSet(after[level]) && f in before[level] && f !in inputs0;
      if level > 0 {
        PieceLeavesRest(before[level], inputs0, seed, begin, end, f);
      }
    }
  }

  lemma FewerFiles(before: set<File>, after: set<File>)
    requires after < before
    ensures |after| < |before|
  {
    var f :| f in before && f !in after;
    FewerOrEqual(after, before - {f});
  }

  lemma {:induction false} FewerOrEqual(a: set<File>, b: set<File>)
    requires a <= b
    ensures |a| <= |b|
    decreases a
  {
    if a != {} {
      var f :| f in a;
      FewerOrEqual(a - {f}, b - {f});
    }
  }
}
