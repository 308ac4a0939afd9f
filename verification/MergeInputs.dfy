/** The streams that a compaction or an iterator merges: one for each file that may overlap others,
    one for each run of files that may not. */
module MergeInputs {
  import opened Keys
  import opened Files
  import opened Inputs
  import opened Merger
  import opened Compactions
  import opened Versions
  import opened Replacement
  import opened Database
  import opened Reads

  // ------------------------------------------------------------- the inputs of a compaction

  /** The completed choice meets what the compaction step asks for. */
  lemma SetupIsChosen(levels: Levels, nextFile: nat, L: nat, inputs0: seq<File>, inputs1: seq<File>)
    requires ValidVersion(levels, nextFile) && L + 1 < NUM_LEVELS
    requires Seed(L == 0, levels[L], inputs0) && BoundaryClosed(levels[L], inputs0)
    requires LowerInputs(levels[L + 1], inputs0, inputs1)
    ensures ChosenInputs(levels, L, inputs0, inputs1) && Subset(inputs1, levels[L + 1])
  {
    hide BoundaryClosed, AgeOrdered, AgeNumbered, Numbered, ListingOf, Ordered, Newer, ValidFile, Contiguous,
         DistinctSequences;
    forall f, g | f in levels[L] && g in inputs0 && f !in inputs0 ensures Newer(f.entries, g.entries) {
      if L == 0 {
        DetachedIsNewer(f, g);
      } else {
        TwoFilesDistinct(levels, L, f, g);
        RunIsNewer(levels[L], inputs0, f, g);
      }
    }
    var s, l := RangeOf(inputs0);
  }

  lemma TwoFilesDistinct(levels: Levels, l: nat, f: File, g: File)
    requires DistinctSequences(VersionEntries(levels)) && l < |levels| && f in levels[l] && g in levels[l]
    ensures DistinctSequences(Contents([f, g]))
  {
    DistinctSubset(VersionEntries(levels), Contents([f, g]));
  }

  lemma {:induction false} FlattenSorted(files: seq<File>)
    requires AllValid(files) && Ordered(files) && DistinctSequences(Contents(files))
    ensures Sorted(Flatten(files))
  {
    if files != [] {
      var front, last := files[..|files| - 1], files[|files| - 1];
      assert files == front + [last];
      DistinctSubset(Contents(files), Contents(front));
      FlattenSorted(front);
      FlattenMembers(front);
      forall x, y | x in Flatten(front) && y in last.entries ensures Precedes(x.key, y.key) {
        var f :| f in front && x in f.entries;
        assert x in Contents(files) && y in Contents(files);
        EarlierEntries(f, last, x, y);
      }
      SortedJoins(Flatten(front), last.entries);
    }
  }

  lemma EarlierEntries(f: File, g: File, x: Entry, y: Entry)
    requires ValidFile(f) && ValidFile(g) && Less(f.largest, g.smallest) && x in f.entries && y in g.entries
    requires x.key.user == y.key.user && x.key.sequence == y.key.sequence ==> x == y
    ensures Precedes(x.key, y.key)
  {
  }

  lemma SortedJoins(a: seq<Entry>, b: seq<Entry>)
    requires Sorted(a) && Sorted(b) && forall x, y :: x in a && y in b ==> Precedes(x.key, y.key)
    ensures Sorted(a + b)
  {
  }

  // Each child of a merging iterator reads a group of files of one level, one after another.

  function Streams(groups: seq<seq<File>>): seq<seq<Entry>> {
    seq(|groups|, g requires 0 <= g < |groups| => Flatten(groups[g]))
  }

  /** Groups of files of a version that may be read side by side. */
  ghost predicate ReadableGroups(levels: Levels, groups: seq<seq<File>>) {
    && (forall g :: 0 <= g < |groups| ==>
         Ordered(groups[g]) && exists l :: 0 <= l < |levels| && Subset(groups[g], levels[l]))
    && forall g, h, f :: 0 <= g < h < |groups| && f in groups[g] ==> f !in groups[h]
  }

  ghost function GroupContents(groups: seq<seq<File>>): set<Entry> {
    set g, e | g in groups && e in Contents(g) :: e
  }

  lemma StreamIsSorted(levels: Levels, nextFile: nat, groups: seq<seq<File>>, g: nat)
    requires ValidVersion(levels, nextFile) && ReadableGroups(levels, groups) && g < |groups|
    ensures Sorted(Flatten(groups[g])) && AllValid(groups[g])
    ensures forall e :: e in Flatten(groups[g]) <==> e in Contents(groups[g])
    ensures Contents(groups[g]) <= VersionEntries(levels)
  {
    hide Ordered, ValidFile, AgeOrdered, AgeNumbered, Numbered, ListingOf, Sorted, DistinctSequences;
    var l: nat :| l < |levels| && Subset(groups[g], levels[l]);
    assert AllValid(levels[l]);
    DistinctSubset(VersionEntries(levels), Contents(groups[g]));
    FlattenSorted(groups[g]);
    FlattenMembers(groups[g]);
  }

  lemma StreamsShareNothing(levels: Levels, nextFile: nat, groups: seq<seq<File>>, g: nat, h: nat, e: Entry)
    requires ValidVersion(levels, nextFile) && ReadableGroups(levels, groups) && g < h < |groups|
    ensures !(e in Flatten(groups[g]) && e in Flatten(groups[h]))
  {
    hide Ordered, ValidVersion;
    if e in Flatten(groups[g]) && e in Flatten(groups[h]) {
      FlattenMembers(groups[g]);
      FlattenMembers(groups[h]);
      var f :| f in groups[g] && e in f.entries;
      var f' :| f' in groups[h] && e in f'.entries;
      var l: nat :| l < |levels| && Subset(groups[g], levels[l]);
      var m: nat :| m < |levels| && Subset(groups[h], levels[m]);
      FilesShareNothing(levels, nextFile, l, f, m, f', e);
      assert false;
    }
  }

  ghost predicate ShareNothing(children: seq<seq<Entry>>) {
    forall c, d, e :: 0 <= c < d < |children| && e in children[c] ==> e !in children[d]
  }

  lemma DisjointSortedRunsDoNotRepeat(children: seq<seq<Entry>>)
    requires forall c :: 0 <= c < |children| ==> Sorted(children[c])
    requires ShareNothing(children)
    ensures NoRepeats(children)
  {
    forall c, i, d, j | 0 <= c < |children| && 0 <= i < |children[c]| && 0 <= d < |children| && 0 <= j < |children[d]|
        && children[c][i] == children[d][j] ensures c == d && i == j
    {
      assert children[c][i] in children[c] && children[d][j] in children[d];
      if c == d {
        SortedDoesNotRepeat(children[c], i, j);
      }
    }
  }

  lemma SortedDoesNotRepeat(run: seq<Entry>, i: nat, j: nat)
    requires Sorted(run) && i < |run| && j < |run| && run[i] == run[j]
    ensures i == j
  {
  }

  lemma StreamsInterleave(levels: Levels, nextFile: nat, groups: seq<seq<File>>) returns (order: Order)
    requires ValidVersion(levels, nextFile) && ReadableGroups(levels, groups)
    ensures Interleaves(Streams(groups), order) && Sorted(order.merged) && SetOf(order.merged) == GroupContents(groups)
  {
    hide ValidVersion, ReadableGroups, Sorted, Flatten, Contents, VersionEntries, Interleaves;
    var children := Streams(groups);
    forall c | 0 <= c < |children| ensures Sorted(children[c]) {
      StreamIsSorted(levels, nextFile, groups, c);
    }
    forall c, d, e | 0 <= c < d < |children| && e in children[c] ensures e !in children[d] {
      StreamsShareNothing(levels, nextFile, groups, c, d, e);
    }
    DisjointSortedRunsDoNotRepeat(children);
    AllOfStreams(levels, nextFile, groups);
    VersionIsDistinct(levels, nextFile);
    DistinctSubset(VersionEntries(levels), AllOf(children));
    order := OrderExists(children);
    UnionSorted(children, order);
    assert SetOf(order.merged) == AllOf(children);
  }

  lemma VersionIsDistinct(levels: Levels, nextFile: nat)
    requires ValidVersion(levels, nextFile)
    ensures DistinctSequences(VersionEntries(levels))
  {
  }

  lemma UnionSorted(children: seq<seq<Entry>>, order: Order)
    requires Interleaves(children, order)
    ensures Sorted(order.merged)
  {
  }

  lemma AllOfStreams(levels: Levels, nextFile: nat, groups: seq<seq<File>>)
    requires ValidVersion(levels, nextFile) && ReadableGroups(levels, groups)
    ensures AllOf(Streams(groups)) == GroupContents(groups) && GroupContents(groups) <= VersionEntries(levels)
  {
    hide ValidVersion, ReadableGroups, Flatten, Contents, VersionEntries;
    var children := Streams(groups);
    forall g | 0 <= g < |groups| ensures (forall e :: e in Flatten(groups[g]) <==> e in Contents(groups[g]))
      && Contents(groups[g]) <= VersionEntries(levels)
    {
      StreamIsSorted(levels, nextFile, groups, g);
    }
    forall e ensures e in AllOf(children) <==> e in GroupContents(groups) {
      if child :| child in children && e in child {
        var c :| 0 <= c < |children| && children[c] == child;
        assert groups[c] in groups && e in Contents(groups[c]);
      }
      if g :| g in groups && e in Contents(g) {
        var c :| 0 <= c < |groups| && groups[c] == g;
        assert children[c] in children && e in children[c];
      }
    }
  }

  /** One iterator per file of level zero, otherwise one over all chosen files of a level. */
  method MakeInputIterator(levels: Levels, ghost nextFile: nat, L: nat, inputs0: seq<File>, inputs1: seq<File>)
    returns (input: MergingIterator)
    requires ValidVersion(levels, nextFile) && L + 1 < NUM_LEVELS
    requires Subset(inputs0, levels[L]) && NoDuplicates(inputs0) && (L > 0 ==> Ordered(inputs0))
    requires Subset(inputs1, levels[L + 1]) && Ordered(inputs1)
    ensures input.Invariant() && fresh(input) && fresh(input.pos)
    ensures MergedInputs(inputs0, inputs1, input.order.merged)
  {
    hide ValidVersion, Ordered, Flatten, Contents, Interleaves, Sorted;
    var children := [];
    ghost var groups := [];
    if L == 0 {
      for i := 0 to |inputs0|
        invariant groups == Singles(inputs0[..i]) && children == Streams(groups)
      {
        SingleStream(inputs0[i]);
        assert Singles(inputs0[..i + 1]) == groups + [[inputs0[i]]];
        children, groups := children + [inputs0[i].entries], groups + [[inputs0[i]]];
      }
      assert inputs0[..|inputs0|] == inputs0;
    } else {
      children, groups := [Flatten(inputs0)], [inputs0];
    }
    if inputs1 != [] {
      children, groups := children + [Flatten(inputs1)], groups + [inputs1];
    }
    assert children == Streams(groups);
    assert groups == InputGroups(L, inputs0, inputs1);
    AllNumbered(levels, nextFile);
    InputGroupsReadable(levels, nextFile, L, inputs0, inputs1);
    InputGroupContents(L, inputs0, inputs1);
    ghost var order := StreamsInterleave(levels, nextFile, groups);
    input := new MergingIterator(children, order);
  }

  lemma AllNumbered(levels: Levels, nextFile: nat)
    requires ValidVersion(levels, nextFile)
    ensures Numbered(levels, nextFile)
  {
  }

  function Singles(files: seq<File>): seq<seq<File>> {
    seq(|files|, i requires 0 <= i < |files| => [files[i]])
  }

  lemma OneMoreStream(groups: seq<seq<File>>, g: seq<File>)
    ensures Streams(groups + [g]) == Streams(groups) + [Flatten(g)] && Streams(groups + []) == Streams(groups)
  {
    hide Flatten;
    assert groups + [] == groups;
  }

  lemma SingleStream(f: File)
    ensures Flatten([f]) == f.entries && Ordered([f])
  {
    assert [f][..0] == [];
    assert Flatten([]) == [];
  }

  ghost function InputGroups(L: nat, inputs0: seq<File>, inputs1: seq<File>): seq<seq<File>> {
    (if L == 0 then Singles(inputs0) else [inputs0]) + if inputs1 != [] then [inputs1] else []
  }

  lemma InputGroup(L: nat, inputs0: seq<File>, inputs1: seq<File>, g: nat, f: File)
    requires g < |InputGroups(L, inputs0, inputs1)|
    ensures f in InputGroups(L, inputs0, inputs1)[g]
       <==> if inputs1 != [] && g + 1 == |InputGroups(L, inputs0, inputs1)| then f in inputs1
            else if L == 0 then f == inputs0[g] else f in inputs0
  {
  }

  lemma InputGroupsReadable(levels: Levels, nextFile: nat, L: nat, inputs0: seq<File>, inputs1: seq<File>)
    requires Numbered(levels, nextFile) && L + 1 < NUM_LEVELS
    requires Subset(inputs0, levels[L]) && NoDuplicates(inputs0) && (L > 0 ==> Ordered(inputs0))
    requires Subset(inputs1, levels[L + 1]) && Ordered(inputs1)
    ensures ReadableGroups(levels, InputGroups(L, inputs0, inputs1))
  {
    hide Ordered;
    var groups := InputGroups(L, inputs0, inputs1);
    forall g | 0 <= g < |groups|
      ensures Ordered(groups[g]) && exists l :: 0 <= l < |levels| && Subset(groups[g], levels[l])
    {
      if inputs1 != [] && g + 1 == |groups| {
        assert groups[g] == inputs1;
        assert Subset(groups[g], levels[L + 1]);
      } else if L == 0 {
        SingleStream(inputs0[g]);
        assert groups[g] == [inputs0[g]];
        assert Subset(groups[g], levels[L]);
      } else {
        assert groups[g] == inputs0;
        assert Subset(groups[g], levels[L]);
      }
    }
    hide InputGroups;
    forall g, h, f | 0 <= g < h < |groups| && f in groups[g] ensures f !in groups[h] {
      InputGroup(L, inputs0, inputs1, g, f);
      InputGroup(L, inputs0, inputs1, h, f);
    }
  }

  lemma InputGroupContents(L: nat, inputs0: seq<File>, inputs1: seq<File>)
    ensures GroupContents(InputGroups(L, inputs0, inputs1)) == Contents(inputs0) + Contents(inputs1)
  {
    var groups := InputGroups(L, inputs0, inputs1);
    forall e ensures e in GroupContents(groups) <==> e in Contents(inputs0) + Contents(inputs1) {
      if f :| f in inputs0 && e in f.entries {
        var i :| 0 <= i < |inputs0| && inputs0[i] == f;
        assert groups[if L == 0 then i else 0] in groups && e in Contents(groups[if L == 0 then i else 0]);
      }
      if f :| f in inputs1 && e in f.entries {
        assert groups[|groups| - 1] in groups;
      }
    }
  }

  /** The files of a version as its iterators read them. */
  function VersionGroups(levels: Levels, n: nat): seq<seq<File>>
    requires n <= NUM_LEVELS
  {
    if n == 0 then []
    else if n == 1 then Singles(levels[0])
    else VersionGroups(levels, n - 1) + if levels[n - 1] != [] then [levels[n - 1]] else []
  }

  /** The level that each of those groups comes from. */
  ghost function GroupLevels(levels: Levels, n: nat): seq<nat>
    requires n <= NUM_LEVELS
  {
    if n == 0 then []
    else if n == 1 then seq(|levels[0]|, _ => 0)
    else GroupLevels(levels, n - 1) + if levels[n - 1] != [] then [n - 1] else []
  }

  ghost predicate GroupedBy(levels: Levels, groups: seq<seq<File>>, from: seq<nat>, n: nat)
    requires n <= NUM_LEVELS
  {
    && |groups| == |from|
    && (forall g :: 0 <= g < |groups| ==> from[g] < n)
    && (forall g :: 0 <= g < |groups| ==>
          if from[g] == 0 then g < |levels[0]| && groups[g] == [levels[0][g]] else groups[g] == levels[from[g]])
    && forall g, h :: 0 <= g < h < |groups| ==> from[g] <= from[h] && (from[g] > 0 ==> from[g] < from[h])
  }

  lemma {:induction false} GroupsAreLevels(levels: Levels, n: nat)
    requires n <= NUM_LEVELS
    ensures GroupedBy(levels, VersionGroups(levels, n), GroupLevels(levels, n), n)
  {
    if n > 1 {
      GroupsAreLevels(levels, n - 1);
    }
  }

  lemma {:induction false} VersionGroupContents(levels: Levels, n: nat, e: Entry)
    requires n <= NUM_LEVELS
    ensures e in GroupContents(VersionGroups(levels, n)) <==> exists l :: 0 <= l < n && e in Contents(levels[l])
  {
    hide Contents;
    if n == 1 {
      SinglesContents(levels[0], e);
    } else if n > 1 {
      VersionGroupContents(levels, n - 1, e);
      var front, last := VersionGroups(levels, n - 1), levels[n - 1];
      assert last != [] ==> VersionGroups(levels, n)[|front|] == last;
      GroupsJoin(front, if last != [] then [last] else [], e);
      NothingInNoFiles(e);
      OneGroup(last, e);
    }
  }

  lemma SinglesContents(files: seq<File>, e: Entry)
    ensures e in GroupContents(Singles(files)) <==> e in Contents(files)
  {
    if f :| f in files && e in f.entries {
      var i :| 0 <= i < |files| && files[i] == f;
      assert Singles(files)[i] == [f] && e in Contents([f]);
    }
  }

  lemma GroupsJoin(a: seq<seq<File>>, b: seq<seq<File>>, e: Entry)
    ensures e in GroupContents(a + b) <==> e in GroupContents(a) || e in GroupContents(b)
  {
    hide Contents;
  }

  lemma OneGroup(files: seq<File>, e: Entry)
    ensures e in GroupContents([files]) <==> e in Contents(files)
  {
    hide Contents;
    assert files in [files];
  }

  lemma NothingInNoFiles(e: Entry)
    ensures e !in Contents([]) && e !in GroupContents([])
  {
  }

  lemma VersionIsReadable(levels: Levels, nextFile: nat)
    requires ValidVersion(levels, nextFile)
    ensures ReadableGroups(levels, VersionGroups(levels, NUM_LEVELS))
    ensures GroupContents(VersionGroups(levels, NUM_LEVELS)) == VersionEntries(levels)
  {
    hide AgeOrdered, AgeNumbered, AllValid, ListingOf, Ordered, DistinctSequences, VersionGroups, GroupContents;
    var groups, from := VersionGroups(levels, NUM_LEVELS), GroupLevels(levels, NUM_LEVELS);
    GroupsAreLevels(levels, NUM_LEVELS);
    forall g | 0 <= g < |groups|
      ensures Ordered(groups[g]) && exists l :: 0 <= l < |levels| && Subset(groups[g], levels[l])
    {
      if from[g] == 0 {
        SingleStream(levels[0][g]);
      }
      assert Subset(groups[g], levels[from[g]]);
    }
    ListingHasNoDuplicates(levels[0], AsSet(levels[0]));
    forall g, h, f | 0 <= g < h < |groups| && f in groups[g] ensures f !in groups[h] {
    }
    forall e ensures e in GroupContents(groups) <==> e in VersionEntries(levels) {
      VersionGroupContents(levels, NUM_LEVELS, e);
    }
  }
}
