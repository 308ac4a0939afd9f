/** Runs in which only levels one and two hold files: what examples are made of. */
module TwoLevelRuns {
  import opened Keys
  import opened Files
  import opened Inputs
  import opened Versions
  import opened Database
  import Engine

  function TwoLevels(one: seq<File>, two: seq<File>): Levels {
    [[], one, two, [], [], [], []]
  }

  ghost function At(mem: seq<Entry>, imm: Option<seq<Entry>>, one: seq<File>, two: seq<File>, lastSequence: nat,
                    nextFile: nat, snapshots: seq<nat>): State
  {
    State(mem, imm, TwoLevels(one, two), lastSequence, nextFile, snapshots)
  }

  /** Every flush goes to the level that the engine picks for it. */
  ghost predicate FlushesArePicked(states: seq<State>, steps: seq<Step>, maxFileSize: nat)
    requires |steps| <= |states|
  {
    forall i :: 0 <= i < |steps| && steps[i].Flush? ==>
      Engine.PickedLevel(states[i].levels, steps[i].file.smallest.user, steps[i].file.largest.user, maxFileSize,
                         steps[i].level)
  }

  /** What is promised of the inputs that complete a first choice of files. */
  ghost predicate Completes(levels: Levels, L: nat, seed: seq<File>, inputs0: seq<File>, inputs1: seq<File>)
    requires L + 1 < NUM_LEVELS
  {
    Seed(L == 0, levels[L], inputs0) && Subset(seed, inputs0) && LowerInputs(levels[L + 1], inputs0, inputs1)
  }

  /** These are the only inputs that complete the choice. */
  ghost predicate OnlyInputs(levels: Levels, L: nat, seed: seq<File>, inputs0: seq<File>, inputs1: seq<File>)
    requires L + 1 < NUM_LEVELS
  {
    forall a, b :: Completes(levels, L, seed, a, b) ==> a == inputs0 && b == inputs1
  }

  lemma OneWithoutDuplicates(files: seq<File>, f: File)
    requires files != [] && NoDuplicates(files) && forall g :: g in files ==> g == f
    ensures files == [f]
  {
    var g := files[if |files| > 1 then 1 else 0];
    assert g in files && files[0] in files;
  }

  lemma Listings(f: File, g: File)
    ensures ListingOf([], {}) && ListingOf([f], {f}) && AsSet([]) == {} && AsSet([f]) == {f} && AsSet([f, g]) == {f, g}
    ensures BySmallestKey(f, g) ==> ListingOf([f, g], {f, g})
  {
    assert {f, g} == {f} + {g};
  }

  lemma Inserted(e: Entry)
    ensures InsertSorted([], e) == [e]
  {
  }

  lemma {:induction false} SmallFiles(files: seq<File>)
    requires forall f :: f in files ==> f.size == 1
    ensures TotalFileSize(files) == |files|
  {
    if files != [] {
      SmallFiles(files[..|files| - 1]);
    }
  }

  /** Level two, unless a file there overlaps. */
  lemma Picks(one: seq<File>, two: seq<File>, f: File, maxFileSize: nat, level: nat)
    requires (forall g :: g in two ==> g.size == 1) && |two| <= 10 * maxFileSize
    requires forall g :: g in one ==> !Overlaps(g, Some(f.smallest.user), Some(f.largest.user))
    requires level == 1 || level == 2
    requires level == 2 <==> forall g :: g in two ==> !Overlaps(g, Some(f.smallest.user), Some(f.largest.user))
    ensures Engine.PickedLevel(TwoLevels(one, two), f.smallest.user, f.largest.user, maxFileSize, level)
  {
    hide Overlaps, Overlapping;
    var levels, s, r := TwoLevels(one, two), f.smallest.user, f.largest.user;
    SmallFiles(Overlapping(two, Some(s), Some(r)));
    SmallFiles(Overlapping([], Some(s), Some(r)));
    assert levels[0] == [] && levels[1] == one && levels[2] == two && levels[3] == [];
    assert Engine.MaySink(levels, 0, s, r, maxFileSize);
    assert Engine.MaySink(levels, 1, s, r, maxFileSize) <==> level == 2;
  }

  /** The lists after f has come to a level. */
  ghost predicate Comes(one: seq<File>, two: seq<File>, level: nat, f: File, one': seq<File>, two': seq<File>) {
    && ListingOf(one, AsSet(one)) && ListingOf(two, AsSet(two))
    && if level == 1 then two' == two && ListingOf(one', AsSet(one) + {f})
       else level == 2 && one' == one && ListingOf(two', AsSet(two) + {f})
  }

  lemma ComesByFlush(one: seq<File>, two: seq<File>, level: nat, f: File, one': seq<File>, two': seq<File>)
    requires Comes(one, two, level, f, one', two')
    ensures Added(TwoLevels(one, two), TwoLevels(one', two'), level, f)
  {
    hide BySmallestKey;
    var before, after := TwoLevels(one, two), TwoLevels(one', two');
    forall l | 0 <= l < |before| ensures ListingOf(after[l], AsSet(before[l]) + if l == level then {f} else {}) {
      assert AsSet(before[l]) + {} == AsSet(before[l]);
      if l == 0 || l > 2 {
        assert before[l] == [] && after[l] == [];
      }
    }
  }

  /** The flush of f to the level the engine picks. */
  lemma FlushIsStep(entries: seq<Entry>, one: seq<File>, two: seq<File>, one': seq<File>, two': seq<File>, level: nat,
                    f: File,
                    last: nat, snapshots: seq<nat>, maxFileSize: nat)
    requires ValidFile(f) && f.entries == entries != [] && AllValid(one) && AllValid(two)
    requires Comes(one, two, level, f, one', two')
    requires Engine.PickedLevel(TwoLevels(one, two), f.smallest.user, f.largest.user, maxFileSize, level)
    ensures Next(At([], Some(entries), one, two, last, f.number, snapshots),
                 At([], None, one', two', last, f.number + 1, snapshots), Flush(level, f))
  {
    var before := TwoLevels(one, two);
    assert forall l :: 0 <= l < |before| ==> AllValid(before[l]);
    hide ValidFile, Engine.PickedLevel, TwoLevels, AllValid, Added;
    ComesByFlush(one, two, level, f, one', two');
    Engine.PickedIsFree(before, maxFileSize, level, f);
    if level > 0 {
      FreeSettles(before, level, f);
    }
  }
}
