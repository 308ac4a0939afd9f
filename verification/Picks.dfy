/** What the background thread compacts: the file it begins with, the inputs that follow from
    it, and where the next compaction of the level goes on. */
module Picks {
  import opened Keys
  import opened Files
  import opened Inputs
  import opened Versions
  import opened Manifest
  import opened VersionSets
  import opened Database
  import opened Cuts

  // ------------------------------------------------------------------ picking the first file

  predicate PastPointer(f: File, pointer: Option<InternalKey>) {
    pointer.None? || Compare(f.largest, pointer.value) > 0
  }

  ghost predicate NextToCompact(files: seq<File>, pointer: Option<InternalKey>, f: File) {
    if forall g :: g in files ==> !PastPointer(g, pointer) then files != [] && f == files[0]
    else exists i :: 0 <= i < |files| && f == files[i] && PastPointer(f, pointer)
                     && forall k :: 0 <= k < i ==> !PastPointer(files[k], pointer)
  }

  // --------------------------------------------------------------- the inputs of a compaction

  /** The files a step takes from its level: all that it merges, or the one that it moves. */
  function UpperFiles(step: Step): seq<File> {
    match step
    case Move(_, f) => [f]
    case Compact(_, inputs0, _, _, _) => inputs0
    case _ => []
  }

  function LowerFiles(step: Step): seq<File> {
    if step.Compact? then step.inputs1 else []
  }

  predicate IsOfLevel(step: Step, L: nat) {
    (step.Move? && step.from == L) || (step.Compact? && step.upper == L)
  }

  /** One file without company below, and not too much under it two levels down. */
  ghost predicate IsTrivial(levels: Levels, L: nat, inputs0: seq<File>, inputs1: seq<File>, maxFileSize: nat) {
    && |inputs0| == 1 && inputs1 == []
    && forall s, l :: IsRange(inputs0, s, l) && L + 2 < NUM_LEVELS ==>
         var below := Overlapping(levels[L + 2], Some(s.user), Some(l.user));
         TotalFileSize(below) <= MaxGrandParentOverlapBytes(maxFileSize)
  }

  /** The step moves or merges the files that a first choice in its level leads to. */
  ghost predicate CompactsSeed(levels: Levels, L: nat, seed: seq<File>, maxFileSize: nat, manual: bool, step: Step)
    requires L + 1 < NUM_LEVELS
  {
    && IsOfLevel(step, L) && Subset(seed, UpperFiles(step))
    && (step.Move? <==> !manual && IsTrivial(levels, L, UpperFiles(step), LowerFiles(step), maxFileSize))
    && InputsFor(L == 0, levels[L], levels[L + 1], seed, maxFileSize, UpperFiles(step), LowerFiles(step))
  }

  /** The step compacts the picked file; at level zero with all that lies in the least range
      around it. */
  ghost predicate CompactsFile(levels: Levels, L: nat, f: File, maxFileSize: nat, step: Step)
    requires L + 1 < NUM_LEVELS
  {
    exists seed ::
      && (if L == 0 then InRangeOf(true, levels[0], [f], seed) else seed == [f])
      && f in UpperFiles(step) && CompactsSeed(levels, L, seed, maxFileSize, false, step)
  }

  /** The step compacts the files of a range, or as many of them as go into one piece. */
  ghost predicate CompactsPiece(levels: Levels, L: nat, begin: Bound, end: Bound, maxFileSize: nat, step: Step)
    requires L + 1 < NUM_LEVELS
  {
    exists seed ::
      && RangeChoice(L == 0, levels[L], begin, end, maxFileSize, seed)
      && CompactsSeed(levels, L, seed, maxFileSize, true, step)
  }

  // ------------------------------------------------------------------------- its outputs

  /** The files two levels down that overlap the inputs. */
  ghost predicate AreGrandparents(levels: Levels, L: nat, inputs0: seq<File>, inputs1: seq<File>, files: seq<File>) {
    if L + 2 < NUM_LEVELS then InRangeOf(false, levels[L + 2], inputs0 + inputs1, files) else files == []
  }

  /** The outputs are cut where they are full or overlap too much of the grandparents, so none
      of them overlaps more than that. */
  ghost predicate CutRight(levels: Levels, L: nat, maxFileSize: nat, isFull: seq<Entry> -> bool, step: Step) {
    step.Compact? ==>
      && (exists files ::
            && AreGrandparents(levels, L, step.inputs0, step.inputs1, files)
            && Cutter(files, MaxGrandParentOverlapBytes(maxFileSize), step.merged, isFull).WellCut(step.outputs))
      && (L + 2 < NUM_LEVELS ==>
            BoundedOverlap(levels[L + 2], step.outputs, MaxGrandParentOverlapBytes(maxFileSize)))
  }

  lemma OutputsWithin(inputs: seq<File>, outputs: seq<File>, s: InternalKey, l: InternalKey)
    requires AllValid(inputs) && AllValid(outputs) && IsRange(inputs, s, l)
    requires forall f, x :: f in outputs && x in f.entries ==> x in Contents(inputs)
    ensures forall f :: f in outputs ==> WithinRange(f, Some(s.user), Some(l.user))
  {
    hide IsRange, Contents, Less;
    forall f | f in outputs ensures WithinRange(f, Some(s.user), Some(l.user)) {
      InputAround(inputs, f.entries[0], s, l);
      InputAround(inputs, f.entries[|f.entries| - 1], s, l);
    }
  }

  lemma InputAround(inputs: seq<File>, x: Entry, s: InternalKey, l: InternalKey)
    requires AllValid(inputs) && IsRange(inputs, s, l) && x in Contents(inputs)
    ensures s.user <= x.key.user <= l.user
  {
    var g :| g in inputs && x in g.entries;
    assert ValidFile(g) && !Less(x.key, g.smallest) && !Less(g.largest, x.key);
  }

  lemma ContentsJoin(a: seq<File>, b: seq<File>)
    ensures Contents(a + b) == Contents(a) + Contents(b)
  {
  }

  lemma GrandparentsAreOrdered(files: seq<File>, b: Bound, e: Bound)
    requires Ordered(files)
    ensures Ordered(Overlapping(files, b, e))
  {
    var a, c := OverlappingIsSlice(files, b, e);
  }

  /** The outputs of a compaction are cut right. */
  lemma OutputsAreCutRight(levels: Levels, L: nat, maxFileSize: nat, step: Step, c: Cutter)
    requires step.Compact? && (L + 2 < NUM_LEVELS ==> Ordered(levels[L + 2]))
    requires step.inputs0 != [] && AllValid(step.inputs0) && AllValid(step.inputs1)
    requires AreGrandparents(levels, L, step.inputs0, step.inputs1, c.grandparents)
    requires c.limit == MaxGrandParentOverlapBytes(maxFileSize) && c.stream == step.merged && c.WellCut(step.outputs)
    requires MergedInputs(step.inputs0, step.inputs1, step.merged) && AllValid(step.outputs)
    requires forall f, x :: f in step.outputs && x in f.entries ==> x in step.merged
    ensures CutRight(levels, L, maxFileSize, c.isFull, step)
  {
    hide ValidFile, Ordered, Sorted, Cutter.WellCut, BoundedOverlap;
    assert c == Cutter(c.grandparents, c.limit, c.stream, c.isFull);
    if L + 2 < NUM_LEVELS {
      var inputs := step.inputs0 + step.inputs1;
      ContentsJoin(step.inputs0, step.inputs1);
      var s, l := RangeOf(inputs);
      OutputsWithin(inputs, step.outputs, s, l);
      GrandparentsAreOrdered(levels[L + 2], Some(s.user), Some(l.user));
      OutputsOverlap(c, levels[L + 2], Some(s.user), Some(l.user), step.outputs);
    }
  }

  // ------------------------------------------------------------------- the compaction pointer

  predicate PointerSet(before: Pointers, after: Pointers, L: nat, key: InternalKey) {
    L < NUM_LEVELS && after == before[L := Some(key)]
  }

  /** The next automatic compaction of the level goes on after everything this one took. */
  ghost predicate PointerMoved(before: Pointers, after: Pointers, L: nat, inputs0: seq<File>) {
    exists s, l :: IsRange(inputs0, s, l) && PointerSet(before, after, L, l)
  }

  lemma OnePointer(pointers: Pointers, L: nat, key: InternalKey)
    requires L < NUM_LEVELS
    ensures PointerSet(pointers, SetPointers(pointers, [Pointer(L, key)]), L, key)
  {
    assert [Pointer(L, key)][..0] == [];
    assert SetPointers(pointers, []) == pointers;
  }
}
