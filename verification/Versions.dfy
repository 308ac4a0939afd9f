/** What holds of the levels of every version, and why flushes, moves and compactions
    keep it. */
module Versions {
  import opened Keys
  import opened Files
  import opened Inputs

  type Levels = s: seq<seq<File>> | |s| == NUM_LEVELS witness seq(NUM_LEVELS, _ => [])

  ghost function VersionEntries(levels: Levels): set<Entry> {
    set l, f, e | 0 <= l < |levels| && f in levels[l] && e in f.entries :: e
  }

  /** A deeper level holds only older entries of every user key. */
  ghost predicate AgeOrdered(levels: Levels) {
    forall l, m, f, g :: 0 <= l < m < |levels| && f in levels[l] && g in levels[m] ==> Newer(f.entries, g.entries)
  }

  /** In level zero the file with the higher number is the newer one. */
  ghost predicate AgeNumbered(files: seq<File>) {
    forall f, g :: f in files && g in files && f.number > g.number ==> Newer(f.entries, g.entries)
  }

  /** File numbers are used once, and the next one is larger than all of them. */
  ghost predicate Numbered(levels: Levels, nextFile: nat) {
    && (forall l, f :: 0 <= l < |levels| && f in levels[l] ==> f.number < nextFile)
    && forall l, m, f, g :: 0 <= l < |levels| && 0 <= m < |levels| && f in levels[l] && g in levels[m]
         ==> f.number != g.number || (l == m && f == g)
  }

  ghost predicate ValidVersion(levels: Levels, nextFile: nat) {
    && (forall l :: 0 <= l < |levels| ==> AllValid(levels[l]) && ListingOf(levels[l], AsSet(levels[l])))
    && (forall l :: 1 <= l < |levels| ==> Ordered(levels[l]))
    && AgeNumbered(levels[0])
    && AgeOrdered(levels)
    && Numbered(levels, nextFile)
    && DistinctSequences(VersionEntries(levels))
  }

  // ------------------------------------------------------------------ installing edits

  /** The order of files in a level: by smallest key, then by number. */
  predicate BySmallestKey(f: File, g: File) {
    Less(f.smallest, g.smallest) || (f.smallest == g.smallest && f.number < g.number)
  }

  /** `after` lists exactly `members`, each once, in the order of a level. */
  ghost predicate ListingOf(after: seq<File>, members: set<File>) {
    && (forall f :: f in after <==> f in members)
    && forall i, j :: 0 <= i < j < |after| ==> BySmallestKey(after[i], after[j])
  }

  ghost function AsSet(files: seq<File>): set<File> {
    set f | f in files
  }

  ghost predicate Separated(f: File, g: File) {
    Less(f.largest, g.smallest) || Less(g.largest, f.smallest)
  }

  lemma ListingIsOrdered(after: seq<File>, members: set<File>)
    requires ListingOf(after, members)
    requires forall f, g :: f in members && g in members && f != g ==> Separated(f, g)
    ensures Ordered(after)
  {
    forall i, j | 0 <= i < j < |after| ensures Less(after[i].largest, after[j].smallest) {
      assert BySmallestKey(after[i], after[j]);
      assert after[i] in members && after[j] in members && after[i] != after[j];
      assert !Less(after[j].largest, after[j].smallest);
    }
  }

  lemma ListingHasNoDuplicates(after: seq<File>, members: set<File>)
    requires ListingOf(after, members)
    ensures NoDuplicates(after)
  {
    forall i, j | 0 <= i < j < |after| ensures after[i] != after[j] {
      assert BySmallestKey(after[i], after[j]);
    }
  }

  lemma LastIsGreatest(a: seq<File>, members: set<File>)
    requires ListingOf(a, members) && a != []
    ensures forall f :: f in members && f != a[|a| - 1] ==> BySmallestKey(f, a[|a| - 1])
  {
    forall f | f in members && f != a[|a| - 1] ensures BySmallestKey(f, a[|a| - 1]) {
      var i :| 0 <= i < |a| && a[i] == f;
    }
  }

  /** A listing is determined by its members. */
  lemma {:induction false} ListingIsUnique(a: seq<File>, b: seq<File>, members: set<File>)
    requires ListingOf(a, members) && ListingOf(b, members)
    ensures a == b
  {
    ListingLengths(a, members);
    ListingLengths(b, members);
    if a != [] {
      var n := |a| - 1;
      LastIsGreatest(a, members);
      LastIsGreatest(b, members);
      assert a[n] in members && b[n] in members;
      FrontIsListing(a, members);
      FrontIsListing(b, members);
      ListingIsUnique(a[..n], b[..n], members - {a[n]});
      assert a == a[..n] + [a[n]] && b == b[..n] + [b[n]];
    }
  }

  lemma FrontIsListing(a: seq<File>, members: set<File>)
    requires ListingOf(a, members) && a != []
    ensures ListingOf(a[..|a| - 1], members - {a[|a| - 1]})
  {
    var n := |a| - 1;
    ListingHasNoDuplicates(a, members);
    forall f ensures f in a[..n] <==> f in members - {a[n]} {
      assert f in a <==> f in a[..n] || f == a[n];
    }
  }

  lemma {:induction false} ListingLengths(a: seq<File>, members: set<File>)
    requires ListingOf(a, members)
    ensures |a| == |members|
  {
    if a == [] {
      assert members == {};
    } else {
      FrontIsListing(a, members);
      ListingLengths(a[..|a| - 1], members - {a[|a| - 1]});
      assert a[|a| - 1] in members;
    }
  }

  // ------------------------------------------------------- adding a flushed memtable

  /** A file that overlaps no user key of level `level` and above it. */
  ghost predicate FreeDownTo(levels: Levels, level: nat, f: File) {
    forall l, g :: 0 <= l <= level && l < |levels| && g in levels[l]
      ==> g.largest.user < f.smallest.user || f.largest.user < g.smallest.user
  }

  /** What keeps a version valid when f comes to a level below zero: nothing there overlaps
      it, and nothing above holds a key of it. */
  ghost predicate Settles(levels: Levels, level: nat, f: File) {
    && level < |levels| && (forall g :: g in levels[level] ==> Separated(g, f))
    && forall l, g :: 0 <= l < level && g in levels[l] ==> ShareNoKey(g, f)
  }

  lemma FreeSettles(levels: Levels, level: nat, f: File)
    requires level < |levels| && FreeDownTo(levels, level, f)
    requires ValidFile(f) && forall l :: 0 <= l < |levels| ==> AllValid(levels[l])
    ensures Settles(levels, level, f)
  {
    hide ValidFile;
    forall l, g | 0 <= l < level && g in levels[l] ensures ShareNoKey(g, f) {
      ApartShareNoKey(g, f);
    }
  }

  ghost predicate Added(before: Levels, after: Levels, level: nat, f: File) {
    forall l :: 0 <= l < |before| ==> ListingOf(after[l], AsSet(before[l]) + if l == level then {f} else {})
  }

  /** What the file of a flushed memtable satisfies: fresh, newer than the version, and
      placed below level zero only where nothing on the way overlaps it. */
  ghost predicate Flushable(before: Levels, level: nat, f: File, nextFile: nat) {
    && level < NUM_LEVELS && ValidFile(f) && f.number == nextFile
    && (level > 0 ==> Settles(before, level, f))
    && (forall l, g :: 0 <= l < |before| && g in before[l] ==> Newer(f.entries, g.entries))
    && DistinctSequences(VersionEntries(before) + set e | e in f.entries)
  }

  lemma InAdded(before: Levels, after: Levels, level: nat, f: File, l: nat, x: File)
    requires Added(before, after, level, f) && l < |before|
    ensures x in after[l] <==> x in before[l] || (l == level && x == f)
  {
  }

  lemma AddedAgeOrdered(before: Levels, after: Levels, level: nat, f: File, nextFile: nat)
    requires ValidVersion(before, nextFile) && Flushable(before, level, f, nextFile) && Added(before, after, level, f)
    ensures AgeOrdered(after)
  {
    hide Added, Newer, ValidFile, Numbered, Ordered, ListingOf, DistinctSequences;
    forall l, m, x, y | 0 <= l < m < |after| && x in after[l] && y in after[m] ensures Newer(x.entries, y.entries) {
      InAdded(before, after, level, f, l, x);
      InAdded(before, after, level, f, m, y);
      if x in before[l] && y !in before[m] {
        ShareNoKeyIsNewer(x, f);
      }
    }
  }

  lemma AddedAgeNumbered(before: Levels, after: Levels, level: nat, f: File, nextFile: nat)
    requires ValidVersion(before, nextFile) && Flushable(before, level, f, nextFile) && Added(before, after, level, f)
    ensures AgeNumbered(after[0])
  {
    hide Added, Newer, ValidFile, Ordered, ListingOf, DistinctSequences, AgeOrdered;
    forall x, y | x in after[0] && y in after[0] && x.number > y.number ensures Newer(x.entries, y.entries) {
      InAdded(before, after, level, f, 0, x);
      InAdded(before, after, level, f, 0, y);
    }
  }

  lemma AddedEntries(before: Levels, after: Levels, level: nat, f: File)
    requires Added(before, after, level, f) && level < |before|
    ensures VersionEntries(after) == VersionEntries(before) + set e | e in f.entries
  {
    hide Added;
    forall e ensures e in VersionEntries(after) <==> e in VersionEntries(before) || e in f.entries {
      if l, g :| 0 <= l < |before| && g in before[l] && e in g.entries {
        InAdded(before, after, level, f, l, g);
      }
      if l, g :| 0 <= l < |after| && g in after[l] && e in g.entries {
        InAdded(before, after, level, f, l, g);
      }
      InAdded(before, after, level, f, level, f);
    }
  }

  lemma OrderedSeparates(files: seq<File>, x: File, y: File)
    requires Ordered(files) && x in files && y in files && x != y
    ensures Separated(x, y)
  {
    var i :| 0 <= i < |files| && files[i] == x;
    var j :| 0 <= j < |files| && files[j] == y;
    assert i < j || j < i;
  }

  lemma AddedOrdered(before: Levels, after: Levels, level: nat, f: File, l: nat)
    requires 1 <= l < |before| && Ordered(before[l]) && Added(before, after, level, f)
    requires level > 0 ==> Settles(before, level, f)
    ensures Ordered(after[l])
  {
    hide Ordered, ListingOf;
    var members := AsSet(before[l]) + if l == level then {f} else {};
    forall x, y | x in members && y in members && x != y ensures Separated(x, y) {
      if x in before[l] && y in before[l] {
        OrderedSeparates(before[l], x, y);
      } else {
        assert Separated(if x == f then y else x, f);
      }
    }
    ListingIsOrdered(after[l], members);
  }

  lemma AddedNumbered(before: Levels, after: Levels, level: nat, f: File, nextFile: nat)
    requires Numbered(before, nextFile) && f.number == nextFile && Added(before, after, level, f)
    ensures Numbered(after, nextFile + 1)
  {
    hide Added;
    forall l, x | 0 <= l < |after| && x in after[l] ensures x.number < nextFile + 1 {
      InAdded(before, after, level, f, l, x);
    }
    forall l, m, x, y | 0 <= l < |after| && 0 <= m < |after| && x in after[l] && y in after[m]
      ensures x.number != y.number || (l == m && x == y)
    {
      InAdded(before, after, level, f, l, x);
      InAdded(before, after, level, f, m, y);
    }
  }

  lemma AddedListings(before: Levels, after: Levels, level: nat, f: File)
    requires Added(before, after, level, f) && ValidFile(f)
    requires forall l :: 0 <= l < |before| ==> AllValid(before[l])
    ensures forall l :: 0 <= l < |after| ==> AllValid(after[l]) && ListingOf(after[l], AsSet(after[l]))
  {
    hide ValidFile;
    forall l | 0 <= l < |after| ensures AllValid(after[l]) && ListingOf(after[l], AsSet(after[l])) {
      var members := AsSet(before[l]) + if l == level then {f} else {};
      assert AsSet(after[l]) == members;
    }
  }

  lemma FlushKeepsVersion(before: Levels, after: Levels, level: nat, f: File, nextFile: nat)
    requires ValidVersion(before, nextFile) && Flushable(before, level, f, nextFile) && Added(before, after, level, f)
    ensures ValidVersion(after, nextFile + 1)
    ensures VersionEntries(after) == VersionEntries(before) + set e | e in f.entries
  {
    hide Added, ValidFile, Newer, Ordered, AgeOrdered, AgeNumbered, Numbered, ListingOf, DistinctSequences, Settles,
         AllValid;
    AddedAgeOrdered(before, after, level, f, nextFile);
    AddedAgeNumbered(before, after, level, f, nextFile);
    AddedEntries(before, after, level, f);
    AddedNumbered(before, after, level, f, nextFile);
    AddedListings(before, after, level, f);
    forall l | 1 <= l < |after| ensures Ordered(after[l]) {
      AddedOrdered(before, after, level, f, l);
    }
  }
}
