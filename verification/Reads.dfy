/** What reads return over whole runs: the newest write, and for a live snapshot always
    the state of the moment it was taken. */
module Reads {
  import opened Keys
  import opened Files
  import opened Inputs
  import opened Compactions
  import opened Versions
  import opened Replacement
  import opened DropRules
  import opened Database

  // ------------------------------------------------------- what a compaction leaves behind

  /** Entries of the lower level in files a compaction does not take. */
  ghost function LeftOut(lower: seq<File>, inputs1: seq<File>): set<Entry> {
    set f, e | f in lower && f !in inputs1 && e in f.entries :: e
  }

  lemma FilesShareNothing(levels: Levels, nextFile: nat, l: nat, f: File, m: nat, g: File, x: Entry)
    requires ValidVersion(levels, nextFile) && l < |levels| && m < |levels|
    requires f in levels[l] && g in levels[m] && x in f.entries && x in g.entries
    ensures l == m && f == g
  {
    hide ListingOf, DistinctSequences, Sorted;
    assert ValidFile(f) && ValidFile(g);
    if l == m && f != g && l >= 1 {
      OrderedSeparates(levels[l], f, g);
    }
  }

  lemma RestSharesNothing(s: State, L: nat, inputs0: seq<File>, inputs1: seq<File>, merged: seq<Entry>)
    requires Inv(s) && ChosenInputs(s.levels, L, inputs0, inputs1) && MergedInputs(inputs0, inputs1, merged)
    ensures Rest(s, L, inputs0, inputs1) !! SetOf(merged)
  {
    hide ValidVersion, ChosenInputs, Sorted, DistinctSequences, VersionEntries;
    forall x | x in SetOf(merged) ensures x !in Rest(s, L, inputs0, inputs1) {
      var m, g := MergedSource(s.levels, L, inputs0, inputs1, merged, x);
      assert Newer(s.mem, g.entries) && Newer(ImmEntries(s), g.entries);
      if x in Outside(s.levels, L, inputs0, inputs1) {
        var l, f :| 0 <= l < |s.levels| && f in s.levels[l] && !(l == L && f in inputs0) && !(l == L + 1
                    && f in inputs1)
                    && x in f.entries;
        FilesShareNothing(s.levels, s.nextFile, l, f, m, g, x);
      }
    }
  }

  /** The input file a merged entry comes from. */
  lemma MergedSource(levels: Levels, L: nat, inputs0: seq<File>, inputs1: seq<File>, merged: seq<Entry>, x: Entry)
    returns (m: nat, g: File)
    requires ChosenInputs(levels, L, inputs0, inputs1) && MergedInputs(inputs0, inputs1, merged) && x in merged
    ensures (m == L && g in inputs0) || (m == L + 1 && g in inputs1)
    ensures m < |levels| && g in levels[m] && x in g.entries
  {
    hide UpperClosed, Sorted;
    assert x in SetOf(merged);
    if x in Contents(inputs0) {
      m := L;
      g :| g in inputs0 && x in g.entries;
    } else {
      m := L + 1;
      g :| g in inputs1 && x in g.entries;
      var lo, hi := RangeOf(inputs0);
      assert g in Overlapping(levels[L + 1], Some(lo.user), Some(hi.user));
    }
  }

  /** Below a base-level tombstone only left-out files of the lower level can hold anything
      of its user key. */
  lemma OlderRestIsLeftOut(s: State, L: nat, inputs0: seq<File>, inputs1: seq<File>, merged: seq<Entry>, e: Entry,
                           x: Entry)
    requires Inv(s) && ChosenInputs(s.levels, L, inputs0, inputs1) && MergedInputs(inputs0, inputs1, merged)
    requires e in merged && IsBase(Deep(s.levels, L), e.key.user)
    requires x in Rest(s, L, inputs0, inputs1) && x.key.user == e.key.user && x.key.sequence < e.key.sequence
    ensures x in LeftOut(s.levels[L + 1], inputs1)
  {
    hide ChosenInputs, Sorted, DistinctSequences, VersionEntries, ListingOf, Numbered, ValidFile, AgeNumbered,
         Ordered, IsBase, MergedInputs, Newer, WrittenBy;
    var m, g := MergedSource(s.levels, L, inputs0, inputs1, merged, e);
    if x in s.mem {
      NewerIsLater(s.mem, g.entries, x, e);
    }
    if x in ImmEntries(s) {
      NewerIsLater(ImmEntries(s), g.entries, x, e);
    }
    OlderFileIsLeftOut(s, L, inputs0, inputs1, m, g, e, x);
  }

  lemma OlderFileIsLeftOut(s: State, L: nat, inputs0: seq<File>, inputs1: seq<File>, m: nat, g: File, e: Entry,
                           x: Entry)
    requires Inv(s) && ChosenInputs(s.levels, L, inputs0, inputs1) && IsBase(Deep(s.levels, L), e.key.user)
    requires (m == L && g in inputs0) || (m == L + 1 && g in inputs1)
    requires m < |s.levels| && g in s.levels[m] && e in g.entries
    requires x in Rest(s, L, inputs0, inputs1) && x.key.user == e.key.user && x.key.sequence < e.key.sequence
    requires x !in s.mem && x !in ImmEntries(s)
    ensures x in LeftOut(s.levels[L + 1], inputs1)
  {
    hide ChosenInputs, Sorted, DistinctSequences, VersionEntries, ListingOf, Numbered, ValidFile, AgeNumbered,
         Ordered, IsBase, Newer, WrittenBy;
    var l, f :| 0 <= l < |s.levels| && f in s.levels[l] && !(l == L && f in inputs0) && !(l == L + 1 && f in inputs1)
                && x in f.entries;
    NewerIsLater(f.entries, g.entries, x, e);
    if l == L && m == L {
      LeftUpperIsNewer(s.levels, L, inputs0, inputs1, f, g);
    }
    if l > L + 1 {
      DeepFileCovers(s.levels, L, l, f, x);
    }
  }

  lemma NewerIsLater(a: seq<Entry>, b: seq<Entry>, x: Entry, y: Entry)
    requires x in a && y in b && x.key.user == y.key.user
    ensures Newer(a, b) ==> x.key.sequence > y.key.sequence
  {
  }

  lemma LeftUpperIsNewer(levels: Levels, L: nat, inputs0: seq<File>, inputs1: seq<File>, f: File, g: File)
    requires ChosenInputs(levels, L, inputs0, inputs1) && f in levels[L] && f !in inputs0 && g in inputs0
    ensures Newer(f.entries, g.entries)
  {
  }

  lemma DeepFileCovers(levels: Levels, L: nat, l: nat, f: File, x: Entry)
    requires L + 2 <= l < |levels| && f in levels[l] && AllValid(levels[l]) && x in f.entries
    ensures !IsBase(Deep(levels, L), x.key.user)
  {
    assert Deep(levels, L)[l - (L + 2)] == levels[l];
    assert ValidFile(f) && !Less(x.key, f.smallest) && !Less(f.largest, x.key);
  }

  /** What a read below a removed tombstone finds, it finds in the left-out lower files. */
  lemma ReadBelowTombstone(s: State, L: nat, inputs0: seq<File>, inputs1: seq<File>, merged: seq<Entry>, e: Entry)
    requires Inv(s) && ChosenInputs(s.levels, L, inputs0, inputs1) && MergedInputs(inputs0, inputs1, merged)
    requires e in merged && IsBase(Deep(s.levels, L), e.key.user)
    ensures Read(Rest(s, L, inputs0, inputs1), e.key.user, e.key.sequence)
         == Read(LeftOut(s.levels[L + 1], inputs1), e.key.user, e.key.sequence)
  {
    var rest, left := Rest(s, L, inputs0, inputs1), LeftOut(s.levels[L + 1], inputs1);
    var user, q := e.key.user, e.key.sequence;
    assert left <= rest;
    RestSharesNothing(s, L, inputs0, inputs1, merged);
    EntriesAround(s, L, inputs0, inputs1);
    DistinctInv(s);
    hide Inv, ChosenInputs, MergedInputs, Rest, LeftOut, IsBase, Entries, Sorted;
    assert e in SetOf(merged);
    forall x | x in rest && x.key.user == user && x.key.sequence <= q ensures x in left {
      assert x.key.sequence != q by { SameSequenceIsSame(s, rest, merged, x, e, L, inputs0, inputs1); }
      OlderRestIsLeftOut(s, L, inputs0, inputs1, merged, e, x);
    }
    SameReads(rest, left, user, q, Entries(s));
  }

  lemma DistinctInv(s: State)
    requires Inv(s)
    ensures DistinctSequences(Entries(s))
  {
  }

  lemma SameSequenceIsSame(s: State, rest: set<Entry>, merged: seq<Entry>, x: Entry, e: Entry,
                           L: nat, inputs0: seq<File>, inputs1: seq<File>)
    requires DistinctSequences(Entries(s)) && MergedInputs(inputs0, inputs1, merged)
    requires Entries(s) == rest + (Contents(inputs0) + Contents(inputs1)) && rest !! SetOf(merged)
    requires x in rest && e in merged && x.key.user == e.key.user
    ensures x.key.sequence != e.key.sequence
  {
    hide Entries, Contents, Sorted;
    assert e in SetOf(merged);
    assert x in Entries(s) && e in Entries(s);
  }

  /** Two sets with the same visible entries give the same read. */
  lemma SameReads(a: set<Entry>, c: set<Entry>, user: UserKey, q: nat, all: set<Entry>)
    requires c <= a <= all && DistinctSequences(all)
    requires forall x :: x in a && x.key.user == user && x.key.sequence <= q ==> x in c
    ensures Read(a, user, q) == Read(c, user, q)
  {
    if HasVisible(c, user, q) {
      var e := NewestExists(c, user, q);
      assert Newest(a, user, q, e);
      DistinctSubset(all, a);
      DistinctSubset(all, c);
      ReadIs(a, user, q, e);
      ReadIs(c, user, q, e);
    } else {
      assert !HasVisible(a, user, q);
    }
  }

  // --------------------------------------------------- when a compaction keeps every read

  /** Looking only at the files: under every tombstone that the compaction removes while it
      is the newest entry the smallest snapshot sees, the left-out files of the lower level
      hold no value as their newest older entry. */
  ghost predicate UncoversNothing(s: State, L: nat, inputs0: seq<File>, inputs1: seq<File>, merged: seq<Entry>)
    requires L + 2 <= |s.levels|
  {
    forall i :: 0 <= i < |merged| && RemovedTombstone(merged, SmallestSnapshot(s), Deep(s.levels, L), i)
        && Tops(Rest(s, L, inputs0, inputs1), merged[i], SmallestSnapshot(s))
      ==> Read(LeftOut(s.levels[L + 1], inputs1), merged[i].key.user, merged[i].key.sequence) == None
  }

  /** A compaction keeps every read at or after the smallest snapshot if and only if it
      uncovers nothing in the files it leaves out of the lower level. */
  lemma CompactionKeepsReadsExactly(s: State, s': State, L: nat, inputs0: seq<File>, inputs1: seq<File>,
                                    merged: seq<Entry>, outputs: seq<File>)
    requires Inv(s) && CompactStep(s, s', L, inputs0, inputs1, merged, outputs)
    ensures (forall user, q: nat :: q >= SmallestSnapshot(s) ==>
               Read(Entries(s'), user, q) == Read(Entries(s), user, q))
       <==> UncoversNothing(s, L, inputs0, inputs1, merged)
  {
    var rest, snapshot, deep := Rest(s, L, inputs0, inputs1), SmallestSnapshot(s), Deep(s.levels, L);
    CompactKeepsInv(s, s', L, inputs0, inputs1, merged, outputs);
    RestSharesNothing(s, L, inputs0, inputs1, merged);
    DistinctInv(s);
    DropsKeepReadsExactlyWhenHarmless(rest, merged, snapshot, deep);
    assert HarmlessDrops(rest, merged, snapshot, deep) <==> UncoversNothing(s, L, inputs0, inputs1, merged) by {
      hide Read, Tops, Hidden, Inv, ChosenInputs, MergedInputs, Rest, LeftOut, IsBase, Entries, SmallestSnapshot;
      forall i | 0 <= i < |merged| && RemovedTombstone(merged, snapshot, deep, i)
        ensures Read(rest, merged[i].key.user, merged[i].key.sequence)
             == Read(LeftOut(s.levels[L + 1], inputs1), merged[i].key.user, merged[i].key.sequence)
      {
        ReadBelowTombstone(s, L, inputs0, inputs1, merged, merged[i]);
      }
    }
  }

  // ---------------------------------------- a boundary-closed lower level uncovers nothing

  /** When the lower inputs leave no boundary file behind, every left-out entry of a merged
      user key is newer than the merged one. */
  lemma LeftLowerIsNewer(s: State, L: nat, inputs0: seq<File>, inputs1: seq<File>, merged: seq<Entry>,
                         e: Entry, x: Entry)
    requires Inv(s) && ChosenInputs(s.levels, L, inputs0, inputs1) && MergedInputs(inputs0, inputs1, merged)
    requires BoundaryClosed(s.levels[L + 1], inputs1)
    requires e in merged && x in LeftOut(s.levels[L + 1], inputs1) && x.key.user == e.key.user
    ensures x.key.sequence > e.key.sequence
  {
    hide Sorted, Newer, AgeOrdered, AgeNumbered, Numbered, ListingOf, DistinctSequences, UpperClosed, Ordered,
         BoundaryClosed, LowerInputs, IsRange, VersionEntries, ValidFile;
    var m, g := MergedSource(s.levels, L, inputs0, inputs1, merged, e);
    var f :| f in s.levels[L + 1] && f !in inputs1 && x in f.entries;
    var lo, hi := RangeOf(inputs0);
    LowerIs(s.levels[L + 1], inputs0, inputs1, lo, hi);
    InFile(f, x);
    InFile(g, e);
    if m == L {
      InRange(inputs0, lo, hi, g);
    }
    LowerPairIsNewer(s.levels[L + 1], inputs0, inputs1, lo, hi, f, g);
    LevelEntriesDistinct(s, L + 1, f, g);
    EarlierIsNewer(f, g);
    NewerIsLater(f.entries, g.entries, x, e);
  }

  lemma InFile(f: File, x: Entry)
    requires ValidFile(f) && x in f.entries
    ensures f.smallest.user <= x.key.user <= f.largest.user
  {
    assert !Less(x.key, f.smallest) && !Less(f.largest, x.key);
  }

  lemma InRange(inputs: seq<File>, lo: InternalKey, hi: InternalKey, g: File)
    requires IsRange(inputs, lo, hi) && g in inputs
    ensures lo.user <= g.smallest.user && g.largest.user <= hi.user
  {
    assert !Less(g.smallest, lo) && !Less(hi, g.largest);
  }

  lemma LevelEntriesDistinct(s: State, l: nat, f: File, g: File)
    requires Inv(s) && l < |s.levels| && f in s.levels[l] && g in s.levels[l]
    ensures DistinctSequences(Contents([f, g]))
  {
    hide ValidFile, Newer, Sorted, AgeOrdered, AgeNumbered, Numbered, ListingOf, Ordered;
    assert Contents([f, g]) <= VersionEntries(s.levels);
    DistinctSubset(VersionEntries(s.levels), Contents([f, g]));
  }

  /** A left-out lower file that shares a user key with a taken one comes before it. */
  lemma LowerPairIsNewer(lower: seq<File>, inputs0: seq<File>, inputs1: seq<File>, lo: InternalKey, hi: InternalKey,
                         f: File, g: File)
    requires Ordered(lower) && BoundaryClosed(lower, inputs1) && LowerInputs(lower, inputs0, inputs1)
    requires IsRange(inputs0, lo, hi)
    requires f in lower && f !in inputs1 && g in inputs1
    requires f.smallest.user <= g.largest.user && g.smallest.user <= f.largest.user
    ensures Less(f.largest, g.smallest)
  {
    hide Ordered, BoundaryClosed, IsRange, LowerInputs;
    assert inputs1 == Overlapping(lower, Some(lo.user), Some(hi.user)) by { LowerIs(lower, inputs0, inputs1, lo, hi); }
    assert !Overlaps(f, Some(lo.user), Some(hi.user)) && Overlaps(g, Some(lo.user), Some(hi.user));
    assert !Less(f.largest, f.smallest) && !Less(g.largest, g.smallest);
    OrderedSeparates(lower, f, g);
    if Less(g.largest, f.smallest) {
      var first, last := RangeOf(inputs1);
      var h := LastFile(inputs1, first, last);
      assert Overlaps(h, Some(lo.user), Some(hi.user)) && !Less(h.largest, h.smallest) && !Less(last, g.largest);
      OrderedSeparates(lower, f, h);
      ClosedAt(lower, inputs1, first, last, f);
    }
  }

  lemma LowerIs(lower: seq<File>, inputs0: seq<File>, inputs1: seq<File>, lo: InternalKey, hi: InternalKey)
    requires LowerInputs(lower, inputs0, inputs1) && IsRange(inputs0, lo, hi)
    ensures inputs1 == Overlapping(lower, Some(lo.user), Some(hi.user))
  {
  }

  lemma ClosedAt(files: seq<File>, inputs: seq<File>, first: InternalKey, last: InternalKey, f: File)
    requires BoundaryClosed(files, inputs) && IsRange(inputs, first, last) && f in files
    ensures !IsBoundary(f, last)
  {
  }

  lemma LastFile(inputs: seq<File>, first: InternalKey, last: InternalKey) returns (h: File)
    requires IsRange(inputs, first, last)
    ensures h in inputs && h.largest == last
    ensures forall g :: g in inputs ==> !Less(last, g.largest)
  {
    h :| h in inputs && h.largest == last;
  }

  /** Closing the lower inputs under boundary files is enough. */
  lemma BoundaryClosedUncoversNothing(s: State, L: nat, inputs0: seq<File>, inputs1: seq<File>, merged: seq<Entry>)
    requires Inv(s) && ChosenInputs(s.levels, L, inputs0, inputs1) && MergedInputs(inputs0, inputs1, merged)
    requires BoundaryClosed(s.levels[L + 1], inputs1)
    ensures UncoversNothing(s, L, inputs0, inputs1, merged)
  {
    ChosenFacts(s.levels, L, inputs0, inputs1);
    hide Inv, ChosenInputs, MergedInputs, RemovedTombstone, Tops, LeftOut, BoundaryClosed, Rest;
    var left := LeftOut(s.levels[L + 1], inputs1);
    forall i | 0 <= i < |merged| ensures Read(left, merged[i].key.user, merged[i].key.sequence) == None {
      forall x | x in left && x.key.user == merged[i].key.user ensures x.key.sequence > merged[i].key.sequence {
        LeftLowerIsNewer(s, L, inputs0, inputs1, merged, merged[i], x);
      }
      assert !HasVisible(left, merged[i].key.user, merged[i].key.sequence);
    }
  }
}
