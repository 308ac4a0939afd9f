/** Choosing the input files of a compaction: boundary files, growth of the upper level,
    and the overlapping files one level down. */
module Inputs {
  import opened Keys
  import opened Files
  import opened Covers
  import Seqs

  ghost predicate Subset(a: seq<File>, b: seq<File>) {
    forall f :: f in a ==> f in b
  }

  ghost predicate NoDuplicates(files: seq<File>) {
    forall i, j :: 0 <= i < j < |files| ==> files[i] != files[j]
  }

  // ------------------------------------------------------------ ranges of file lists

  /** [smallest, largest] is the least range that covers `inputs`. */
  ghost predicate IsRange(inputs: seq<File>, smallest: InternalKey, largest: InternalKey) {
    && (exists f :: f in inputs && f.smallest == smallest)
    && (exists f :: f in inputs && f.largest == largest)
    && forall f :: f in inputs ==> !Less(f.smallest, smallest) && !Less(largest, f.largest)
  }

  method GetRange(inputs: seq<File>) returns (smallest: InternalKey, largest: InternalKey)
    requires |inputs| > 0
    ensures IsRange(inputs, smallest, largest)
  {
    smallest, largest := inputs[0].smallest, inputs[0].largest;
    for i := 1 to |inputs|
      invariant exists k :: 0 <= k < i && inputs[k].smallest == smallest
      invariant exists k :: 0 <= k < i && inputs[k].largest == largest
      invariant forall k :: 0 <= k < i ==> !Less(inputs[k].smallest, smallest) && !Less(largest, inputs[k].largest)
    {
      if Compare(inputs[i].smallest, smallest) < 0 {
        smallest := inputs[i].smallest;
      }
      if Compare(inputs[i].largest, largest) > 0 {
        largest := inputs[i].largest;
      }
    }
  }

  lemma RangeIsUnique(inputs: seq<File>, s1: InternalKey, l1: InternalKey, s2: InternalKey, l2: InternalKey)
    requires IsRange(inputs, s1, l1) && IsRange(inputs, s2, l2)
    ensures s1 == s2 && l1 == l2
  {
    assert Compare(s1, s2) == 0 && Compare(l1, l2) == 0;
  }

  // ---------------------------------------------------------------- boundary files

  /** `f` starts with the user key of `key` but after `key`: it continues that user key. */
  predicate IsBoundary(f: File, key: InternalKey) {
    Less(key, f.smallest) && f.smallest.user == key.user
  }

  method FindSmallestBoundaryFile(levelFiles: seq<File>, largestKey: InternalKey) returns (r: Option<File>)
    ensures r.None? ==> forall f :: f in levelFiles ==> !IsBoundary(f, largestKey)
    ensures r.Some? ==> r.value in levelFiles && IsBoundary(r.value, largestKey)
    ensures r.Some? ==> forall f :: f in levelFiles && IsBoundary(f, largestKey) ==> !Less(f.smallest, r.value.smallest)
  {
    r := None;
    for i := 0 to |levelFiles|
      invariant r.None? ==> forall k :: 0 <= k < i ==> !IsBoundary(levelFiles[k], largestKey)
      invariant r.Some? ==> r.value in levelFiles && IsBoundary(r.value, largestKey)
      invariant r.Some? ==> forall k :: 0 <= k < i && IsBoundary(levelFiles[k], largestKey)
                              ==> !Less(levelFiles[k].smallest, r.value.smallest)
    {
      var f := levelFiles[i];
      if Compare(f.smallest, largestKey) > 0 && f.smallest.user == largestKey.user {
        if r.None? || Compare(f.smallest, r.value.smallest) < 0 {
          r := Some(f);
        }
      }
    }
  }

  /** The chosen files of an ordered level are those at positions [a, b). */
  ghost predicate IsRun(files: seq<File>, inputs: seq<File>, a: nat, b: nat) {
    && a < b <= |files|
    && forall i :: 0 <= i < |files| ==> (files[i] in inputs <==> a <= i < b)
  }

  ghost predicate Contiguous(files: seq<File>, inputs: seq<File>) {
    exists a, b :: IsRun(files, inputs, a, b)
  }

  /** No file of `files` continues the user key at which `inputs` ends. */
  ghost predicate BoundaryClosed(files: seq<File>, inputs: seq<File>) {
    forall smallest, largest, f ::
      IsRange(inputs, smallest, largest) && f in files ==> !IsBoundary(f, largest)
  }

  lemma FilesDiffer(files: seq<File>, i: nat, j: nat)
    requires Ordered(files) && i < j < |files|
    ensures files[i] != files[j] && Less(files[i].largest, files[j].largest)
  {
    assert Less(files[i].largest, files[j].smallest) && !Less(files[j].largest, files[j].smallest);
  }

  lemma RunEndsAtLargest(files: seq<File>, inputs: seq<File>, smallest: InternalKey, largest: InternalKey, a: nat,
                         b: nat)
    requires Ordered(files) && Subset(inputs, files) && IsRange(inputs, smallest, largest) && IsRun(files, inputs, a, b)
    ensures files[b - 1].largest == largest
  {
    var g :| g in inputs && g.largest == largest;
    var m :| 0 <= m < |files| && files[m] == g;
    assert files[b - 1] in inputs;
    assert m == b - 1;
  }

  lemma BoundaryIsNext(files: seq<File>, m: nat, p: nat)
    requires Ordered(files) && m < p < |files| && IsBoundary(files[p], files[m].largest)
    requires forall g :: g in files && IsBoundary(g, files[m].largest) ==> !Less(g.smallest, files[p].smallest)
    ensures p == m + 1
  {
    if p > m + 1 {
      var g := files[m + 1];
      assert Less(files[m].largest, g.smallest) && !Less(g.largest, g.smallest) && Less(g.largest, files[p].smallest);
      assert IsBoundary(g, files[m].largest);
    }
  }

  lemma RunGrows(files: seq<File>, inputs: seq<File>, smallest: InternalKey, largest: InternalKey, f: File)
    requires Ordered(files) && Contiguous(files, inputs) && Subset(inputs, files)
    requires IsRange(inputs, smallest, largest)
    requires f in files && IsBoundary(f, largest)
    requires forall g :: g in files && IsBoundary(g, largest) ==> !Less(g.smallest, f.smallest)
    ensures Contiguous(files, inputs + [f])
  {
    var a: nat, b: nat :| IsRun(files, inputs, a, b);
    RunEndsAtLargest(files, inputs, smallest, largest, a, b);
    var p :| 0 <= p < |files| && files[p] == f;
    assert !Less(f.largest, f.smallest);
    BoundaryIsNext(files, b - 1, p);
    forall i | 0 <= i < |files| ensures files[i] in inputs + [f] <==> a <= i < b + 1 {
      if i < b { FilesDiffer(files, i, b); }
      if i > b { FilesDiffer(files, b, i); }
    }
    assert IsRun(files, inputs + [f], a, b + 1);
  }

  ghost function FilesAfter(files: seq<File>, key: InternalKey): set<File> {
    set f | f in files && Less(key, f.smallest)
  }

  lemma BoundaryStep(files: seq<File>, r: seq<File>, smallest: InternalKey, largest: InternalKey, f: File)
    requires IsRange(r, smallest, largest) && NoDuplicates(r)
    requires f in files && IsBoundary(f, largest)
    ensures f !in r && NoDuplicates(r + [f])
    ensures IsRange(r + [f], smallest, f.largest)
    ensures Ordered(r) ==> Ordered(r + [f])
    ensures FilesAfter(files, f.largest) < FilesAfter(files, largest)
  {
    assert !Less(f.largest, f.smallest);
    assert Less(largest, f.largest);
    assert f in FilesAfter(files, largest) && f !in FilesAfter(files, f.largest);
    assert forall x :: x in r ==> Less(x.largest, f.smallest);
    RangeStep(r, smallest, largest, f);
  }

  lemma RangeStep(r: seq<File>, smallest: InternalKey, largest: InternalKey, f: File)
    requires IsRange(r, smallest, largest) && IsBoundary(f, largest)
    ensures IsRange(r + [f], smallest, f.largest)
  {
    assert !Less(f.largest, f.smallest);
    var g :| g in r && g.smallest == smallest;
    assert g in r + [f] && f in r + [f];
    forall x | x in r + [f] ensures !Less(x.smallest, smallest) && !Less(f.largest, x.largest) {
      assert !Less(g.largest, g.smallest) && !Less(largest, g.largest);
    }
  }

  lemma BoundaryIsGapFree(r: seq<File>, smallest: InternalKey, largest: InternalKey, f: File)
    requires IsRange(r, smallest, largest) && IsBoundary(f, largest)
    ensures forall other :: GapFree(r + other) ==> GapFree(r + [f] + other)
  {
    hide GapFree;
    forall other | GapFree(r + other) ensures GapFree(r + [f] + other) {
      var g :| g in r && g.largest == largest;
      assert g in r + other && !Less(g.largest, g.smallest) && !Less(f.largest, f.smallest);
      GapFreeWith(r + other, f);
      GapFreeSame(r + other + [f], r + [f] + other);
    }
  }

  lemma RangeEnds(inputs: seq<File>, smallest: InternalKey, largest: InternalKey)
    requires IsRange(inputs, smallest, largest)
    ensures Ends(inputs, smallest.user, largest.user)
  {
  }

  /** The first file of the level that continues the user key at which `inputs` ends. */
  ghost predicate NextBoundary(files: seq<File>, inputs: seq<File>, f: File) {
    && f in files
    && exists smallest, largest ::
         && IsRange(inputs, smallest, largest) && IsBoundary(f, largest)
         && forall g :: g in files && IsBoundary(g, largest) ==> !Less(g.smallest, f.smallest)
  }

  /** `r` is the inputs and then boundary files one after the other until there are no more. */
  ghost predicate BoundaryClosure(files: seq<File>, inputs: seq<File>, r: seq<File>) {
    && inputs <= r && BoundaryClosed(files, r)
    && forall k :: |inputs| <= k < |r| ==> NextBoundary(files, r[..k], r[k])
  }

  ghost predicate StartsDiffer(files: seq<File>) {
    forall f, g :: f in files && g in files && f.smallest == g.smallest ==> f == g
  }

  /** Unless two files begin alike there is only one way to go on. */
  lemma {:induction false} ClosureIsUnique(files: seq<File>, inputs: seq<File>, r: seq<File>, r': seq<File>, k: nat)
    requires StartsDiffer(files) && BoundaryClosure(files, inputs, r) && BoundaryClosure(files, inputs, r')
    requires |inputs| <= k <= |r|
    ensures k <= |r'| && r[..k] == r'[..k] && (k == |r| ==> r == r')
  {
    hide NextBoundary, BoundaryClosed, StartsDiffer;
    assert r[..|r|] == r && r'[..|r'|] == r';
    if k > |inputs| {
      ClosureIsUnique(files, inputs, r, r', k - 1);
      NextEndsNothing(files, r[..k - 1], r[k - 1]);
      OneNextBoundary(files, r[..k - 1], r[k - 1], r'[k - 1]);
    }
    assert r[..k] == r'[..k];
    if k == |r| < |r'| {
      NextEndsNothing(files, r, r'[k]);
    }
  }

  lemma NextEndsNothing(files: seq<File>, inputs: seq<File>, f: File)
    requires NextBoundary(files, inputs, f)
    ensures !BoundaryClosed(files, inputs)
  {
    hide IsRange;
  }

  lemma OneNextBoundary(files: seq<File>, inputs: seq<File>, f: File, g: File)
    requires StartsDiffer(files) && NextBoundary(files, inputs, f) && NextBoundary(files, inputs, g)
    ensures f == g
  {
    var s, l :| IsRange(inputs, s, l) && IsBoundary(f, l)
                && forall h :: h in files && IsBoundary(h, l) ==> !Less(h.smallest, f.smallest);
    var s', l' :| IsRange(inputs, s', l') && IsBoundary(g, l')
                  && forall h :: h in files && IsBoundary(h, l') ==> !Less(h.smallest, g.smallest);
    RangeIsUnique(inputs, s, l, s', l');
    hide IsRange;
    assert Compare(f.smallest, g.smallest) == 0;
  }

  lemma ChainGrows(files: seq<File>, n: nat, r: seq<File>, f: File)
    requires forall k :: n <= k < |r| ==> NextBoundary(files, r[..k], r[k])
    requires NextBoundary(files, r, f)
    ensures forall k :: n <= k < |r + [f]| ==> NextBoundary(files, (r + [f])[..k], (r + [f])[k])
  {
    hide NextBoundary;
    forall k | n <= k < |r + [f]| ensures NextBoundary(files, (r + [f])[..k], (r + [f])[k]) {
      if k < |r| {
        assert (r + [f])[..k] == r[..k];
      } else {
        assert (r + [f])[..k] == r;
      }
    }
  }

  method AddBoundaryInputs(levelFiles: seq<File>, inputs: seq<File>) returns (r: seq<File>)
    requires |inputs| > 0 && Subset(inputs, levelFiles) && NoDuplicates(inputs)
    ensures BoundaryClosure(levelFiles, inputs, r) && Subset(r, levelFiles) && NoDuplicates(r)
    ensures Ordered(levelFiles) && Contiguous(levelFiles, inputs) ==> Contiguous(levelFiles, r)
    ensures Ordered(inputs) ==> Ordered(r)
    ensures BoundaryClosed(levelFiles, inputs) ==> r == inputs
    ensures forall other :: GapFree(inputs + other) ==> GapFree(r + other)
  {
    hide GapFree, NextBoundary;
    r := inputs;
    var smallest, largestKey := GetRange(inputs);
    var continueSearching := true;
    while continueSearching
      invariant inputs <= r && Subset(r, levelFiles) && NoDuplicates(r)
      invariant forall k :: |inputs| <= k < |r| ==> NextBoundary(levelFiles, r[..k], r[k])
      invariant IsRange(r, smallest, largestKey)
      invariant Ordered(levelFiles) && Contiguous(levelFiles, inputs) ==> Contiguous(levelFiles, r)
      invariant Ordered(inputs) ==> Ordered(r)
      invariant BoundaryClosed(levelFiles, inputs) ==> r == inputs
      invariant forall other :: GapFree(inputs + other) ==> GapFree(r + other)
      invariant !continueSearching ==> forall f :: f in levelFiles ==> !IsBoundary(f, largestKey)
      decreases FilesAfter(levelFiles, largestKey), continueSearching
    {
      var b := FindSmallestBoundaryFile(levelFiles, largestKey);
      if b.Some? {
        var f := b.value;
        if Ordered(levelFiles) && Contiguous(levelFiles, r) {
          RunGrows(levelFiles, r, smallest, largestKey, f);
        }
        BoundaryStep(levelFiles, r, smallest, largestKey, f);
        BoundaryIsGapFree(r, smallest, largestKey, f);
        NextIs(levelFiles, r, smallest, largestKey, f);
        ChainGrows(levelFiles, |inputs|, r, f);
        r := r + [f];
        largestKey := f.largest;
      } else {
        continueSearching := false;
      }
    }
    NoBoundaryMeansClosed(levelFiles, r, smallest, largestKey);
  }

  lemma NextIs(files: seq<File>, inputs: seq<File>, smallest: InternalKey, largest: InternalKey, f: File)
    requires IsRange(inputs, smallest, largest) && f in files && IsBoundary(f, largest)
    requires forall g :: g in files && IsBoundary(g, largest) ==> !Less(g.smallest, f.smallest)
    ensures NextBoundary(files, inputs, f)
  {
  }

  lemma NoBoundaryMeansClosed(files: seq<File>, r: seq<File>, smallest: InternalKey, largest: InternalKey)
    requires IsRange(r, smallest, largest)
    requires forall f :: f in files ==> !IsBoundary(f, largest)
    ensures BoundaryClosed(files, r)
  {
    forall s, l, f | IsRange(r, s, l) && f in files ensures !IsBoundary(f, l) {
      RangeIsUnique(r, s, l, smallest, largest);
    }
  }

  // ---------------------------------------------------- properties of overlapping files

  lemma {:induction false} WiderOverlapsMore(files: seq<File>, b: Bound, e: Bound, b': Bound, e': Bound)
    requires Widens(b', e', b, e)
    ensures Subset(Overlapping(files, b, e), Overlapping(files, b', e'))
    ensures |Overlapping(files, b, e)| <= |Overlapping(files, b', e')|
    ensures |Overlapping(files, b, e)| == |Overlapping(files, b', e')| ==>
      Overlapping(files, b, e) == Overlapping(files, b', e')
  {
    if files != [] {
      WiderOverlapsMore(files[..|files| - 1], b, e, b', e');
    }
  }

  lemma {:induction false} OverlapsKeepNoDuplicates(files: seq<File>, b: Bound, e: Bound)
    requires NoDuplicates(files)
    ensures NoDuplicates(Overlapping(files, b, e))
  {
    if files != [] {
      var front := files[..|files| - 1];
      OverlapsKeepNoDuplicates(front, b, e);
    }
  }

  lemma OrderedHasNoDuplicates(files: seq<File>)
    requires Ordered(files)
    ensures NoDuplicates(files)
  {
    forall i, j | 0 <= i < j < |files| ensures files[i] != files[j] {
      FilesDiffer(files, i, j);
    }
  }

  lemma OverlapsBetween(files: seq<File>, i: nat, j: nat, k: nat, begin: Bound, end: Bound)
    requires Ordered(files) && i < j < k < |files|
    requires Overlaps(files[i], begin, end) && Overlaps(files[k], begin, end)
    ensures Overlaps(files[j], begin, end)
  {
    assert Less(files[i].largest, files[j].smallest) && Less(files[j].largest, files[k].smallest);
    assert !Less(files[j].largest, files[j].smallest);
  }

  lemma SliceReachesEnd(files: seq<File>, a: nat, c: nat, n: nat, begin: Bound, end: Bound)
    requires Ordered(files) && n + 1 == |files| && a < c <= n
    requires Overlapping(files[..n], begin, end) == files[a..c] && Overlaps(files[n], begin, end)
    ensures c == n
  {
    hide Ordered, Overlaps, Overlapping;
    if c < n {
      assert files[c] !in files[a..c] by {
        forall k | a <= k < c ensures files[k] != files[c] { FilesDiffer(files, k, c); }
      }
      assert files[c] in files[..n] && files[a] in files[a..c];
      OverlapsBetween(files, a, c, n, begin, end);
    }
  }

  lemma OrderedPrefix(files: seq<File>, n: nat)
    requires Ordered(files) && n <= |files|
    ensures Ordered(files[..n])
  {
  }

  lemma OverlappingLast(files: seq<File>, begin: Bound, end: Bound)
    requires |files| > 0
    ensures Overlapping(files, begin, end) ==
      var front := Overlapping(files[..|files| - 1], begin, end);
      if Overlaps(files[|files| - 1], begin, end) then front + [files[|files| - 1]] else front
  {
  }

  /** In an ordered level the files that overlap a range stand side by side. */
  lemma {:induction false} OverlappingIsSlice(files: seq<File>, begin: Bound, end: Bound) returns (a: nat, c: nat)
    requires Ordered(files)
    ensures a <= c <= |files| && Overlapping(files, begin, end) == files[a..c]
  {
    if files == [] {
      return 0, 0;
    }
    var n := |files| - 1;
    OrderedPrefix(files, n);
    var x, y := OverlappingIsSlice(files[..n], begin, end);
    a, c := ExtendOverlapping(files, x, y, begin, end);
  }

  lemma ExtendOverlapping(files: seq<File>, x: nat, y: nat, begin: Bound, end: Bound) returns (a: nat, c: nat)
    requires Ordered(files) && |files| > 0 && x <= y < |files|
    requires Overlapping(files[..|files| - 1], begin, end) == files[..|files| - 1][x..y]
    ensures a <= c <= |files| && Overlapping(files, begin, end) == files[a..c]
  {
    hide *;
    var n := |files| - 1;
    Seqs.TakeSlice(files, n, x, y);
    OverlappingLast(files, begin, end);
    if Overlaps(files[n], begin, end) {
      if x < y {
        SliceReachesEnd(files, x, y, n, begin, end);
      }
      Seqs.ExtendSlice(files, x, y, n);
      return if x == y then n else x, n + 1;
    }
    return x, y;
  }

  lemma SliceIsRun(files: seq<File>, a: nat, c: nat)
    requires Ordered(files) && a < c <= |files|
    ensures IsRun(files, files[a..c], a, c) && Subset(files[a..c], files) && NoDuplicates(files[a..c])
    ensures Ordered(files[a..c])
  {
    OrderedHasNoDuplicates(files);
    forall i | 0 <= i < |files| ensures files[i] in files[a..c] <==> a <= i < c {
      if a <= i < c { assert files[a..c][i - a] == files[i]; }
    }
  }

  // -------------------------------------------------------------- choosing the inputs

  /** Files left out share no user key with the chosen ones. */
  ghost predicate Detached(files: seq<File>, inputs: seq<File>) {
    forall f, g :: f in files && g in inputs && f !in inputs
      ==> f.largest.user < g.smallest.user || g.largest.user < f.smallest.user
  }

  /** What the first choice of upper-level files must satisfy. */
  ghost predicate Seed(levelZero: bool, files: seq<File>, inputs: seq<File>) {
    && |inputs| > 0 && Subset(inputs, files) && NoDuplicates(inputs)
    && if levelZero then Detached(files, inputs)
       else Ordered(files) && Ordered(inputs) && Contiguous(files, inputs)
  }

  lemma ClosedRangeDetaches(files: seq<File>, b: Bound, e: Bound)
    requires ClosedRange(files, b, e)
    ensures Detached(files, Overlapping(files, b, e))
  {
    forall f, g | f in files && g in Overlapping(files, b, e) && f !in Overlapping(files, b, e)
      ensures f.largest.user < g.smallest.user || g.largest.user < f.smallest.user
    {
      assert WithinRange(g, b, e) && !Overlaps(f, b, e);
    }
  }

  lemma DetachedHasNoBoundary(files: seq<File>, inputs: seq<File>)
    requires Detached(files, inputs)
    ensures BoundaryClosed(files, inputs)
  {
    forall s, l, f | IsRange(inputs, s, l) && f in files ensures !IsBoundary(f, l) {
      var g :| g in inputs && g.largest == l;
      assert !Less(f.largest, f.smallest) && !Less(g.largest, g.smallest);
    }
  }

  /** Entries left behind in the upper level are newer than the chosen ones. */
  ghost predicate UpperClosed(files: seq<File>, inputs: seq<File>) {
    forall f, g :: f in files && g in inputs && f !in inputs ==> Newer(f.entries, g.entries)
  }

  ghost predicate ShareNoKey(f: File, g: File) {
    forall x, y :: x in f.entries && y in g.entries ==> x.key.user != y.key.user
  }

  lemma ApartShareNoKey(f: File, g: File)
    requires ValidFile(f) && ValidFile(g)
    requires f.largest.user < g.smallest.user || g.largest.user < f.smallest.user
    ensures ShareNoKey(f, g)
  {
    forall x, y | x in f.entries && y in g.entries ensures x.key.user != y.key.user {
      assert !Less(x.key, f.smallest) && !Less(f.largest, x.key) && !Less(y.key, g.smallest) && !Less(g.largest, y.key);
    }
  }

  lemma ShareNoKeyIsNewer(f: File, g: File)
    requires ShareNoKey(f, g)
    ensures Newer(f.entries, g.entries)
  {
  }

  lemma DetachedIsNewer(f: File, g: File)
    requires ValidFile(f) && ValidFile(g)
    requires f.largest.user < g.smallest.user || g.largest.user < f.smallest.user
    ensures Newer(f.entries, g.entries)
  {
    ApartShareNoKey(f, g);
  }

  lemma EarlierIsNewer(f: File, g: File)
    requires ValidFile(f) && ValidFile(g) && Less(f.largest, g.smallest)
    requires DistinctSequences(Contents([f, g]))
    ensures Newer(f.entries, g.entries)
  {
    forall x, y | x in f.entries && y in g.entries && x.key.user == y.key.user ensures x.key.sequence > y.key.sequence {
      assert !Less(f.largest, x.key) && !Less(y.key, g.smallest);
      assert x in Contents([f, g]) && y in Contents([f, g]);
    }
  }

  lemma RunIsNewer(files: seq<File>, inputs: seq<File>, f: File, g: File)
    requires Ordered(files) && Contiguous(files, inputs) && BoundaryClosed(files, inputs) && Subset(inputs, files)
    requires f in files && g in inputs && f !in inputs
    requires ValidFile(f) && ValidFile(g) && DistinctSequences(Contents([f, g]))
    ensures Newer(f.entries, g.entries)
  {
    var a: nat, b: nat :| IsRun(files, inputs, a, b);
    var i :| 0 <= i < |files| && files[i] == f;
    var j :| 0 <= j < |files| && files[j] == g;
    if i < a {
      EarlierIsNewer(f, g);
    } else {
      var s, l := RangeOf(inputs);
      RunEndsAtLargest(files, inputs, s, l, a, b);
      assert !IsBoundary(f, l) && Less(l, f.smallest);
      assert !Less(l, g.largest);
      DetachedIsNewer(f, g);
    }
  }

  lemma RangeOf(inputs: seq<File>) returns (s: InternalKey, l: InternalKey)
    requires |inputs| > 0
    ensures IsRange(inputs, s, l)
  {
    var last := inputs[|inputs| - 1];
    if |inputs| == 1 {
      s, l := last.smallest, last.largest;
    } else {
      var front := inputs[..|inputs| - 1];
      s, l := RangeOf(front);
      var fs :| fs in front && fs.smallest == s;
      var fl :| fl in front && fl.largest == l;
      assert fs in inputs && fl in inputs && last in inputs;
      if Less(last.smallest, s) { s := last.smallest; }
      if Less(l, last.largest) { l := last.largest; }
    }
  }

  /** The chosen files of the lower level: all that overlap the user keys of the upper ones. */
  ghost predicate LowerInputs(lower: seq<File>, inputs0: seq<File>, inputs1: seq<File>) {
    forall s, l :: IsRange(inputs0, s, l) ==> inputs1 == Overlapping(lower, Some(s.user), Some(l.user))
  }

  /** `r` is what the level has in [begin, end]; at level zero, in the least range around it
      that no file sticks out of. */
  ghost predicate InRange(levelZero: bool, files: seq<File>, begin: Bound, end: Bound, r: seq<File>) {
    if levelZero then
      exists b, e ::
        && Widens(b, e, begin, end) && ClosedRange(files, b, e) && LeastClosed(files, begin, end, b, e)
        && r == Overlapping(files, b, e)
    else r == Overlapping(files, begin, end)
  }

  /** The same for the range of the user keys of some files. */
  ghost predicate InRangeOf(levelZero: bool, files: seq<File>, inputs: seq<File>, r: seq<File>) {
    forall s, l :: IsRange(inputs, s, l) ==> InRange(levelZero, files, Some(s.user), Some(l.user), r)
  }

  lemma InRangeFrom(levelZero: bool, files: seq<File>, inputs: seq<File>, s: InternalKey, l: InternalKey, r: seq<File>)
    requires IsRange(inputs, s, l) && InRange(levelZero, files, Some(s.user), Some(l.user), r)
    ensures InRangeOf(levelZero, files, inputs, r)
  {
    hide InRange;
    forall s', l' | IsRange(inputs, s', l') ensures InRange(levelZero, files, Some(s'.user), Some(l'.user), r) {
      RangeIsUnique(inputs, s, l, s', l');
    }
  }

  /** There is only one such range and so one such choice. */
  lemma InRangeIsUnique(levelZero: bool, files: seq<File>, begin: Bound, end: Bound, r: seq<File>, r': seq<File>)
    requires InRange(levelZero, files, begin, end, r) && InRange(levelZero, files, begin, end, r')
    ensures r == r'
  {
    hide Overlapping, ClosedRange;
    if levelZero {
      var b, e :| Widens(b, e, begin, end) && ClosedRange(files, b, e) && LeastClosed(files, begin, end, b, e)
                  && r == Overlapping(files, b, e);
      var b', e' :| Widens(b', e', begin, end) && ClosedRange(files, b', e') && LeastClosed(files, begin, end, b', e')
                    && r' == Overlapping(files, b', e');
      assert Widens(b, e, b', e') && Widens(b', e', b, e);
    }
  }

  /** What the upper level would grow to: its files in the range of everything first chosen,
      and their boundary files. */
  ghost predicate Grown(levelZero: bool, upper: seq<File>, chosen: seq<File>, r: seq<File>) {
    exists wide :: InRangeOf(levelZero, upper, chosen, wide) && BoundaryClosure(upper, wide, r)
  }

  function TotalFileSize(files: seq<File>): nat {
    if files == [] then 0 else TotalFileSize(files[..|files| - 1]) + files[|files| - 1].size
  }

  function ExpandedCompactionByteSizeLimit(maxFileSize: nat): nat { 25 * maxFileSize }

  function MaxGrandParentOverlapBytes(maxFileSize: nat): nat { 10 * maxFileSize }

  lemma LowerInputsFrom(lower: seq<File>, inputs0: seq<File>, inputs1: seq<File>, s: InternalKey, l: InternalKey)
    requires IsRange(inputs0, s, l) && inputs1 == Overlapping(lower, Some(s.user), Some(l.user))
    ensures LowerInputs(lower, inputs0, inputs1)
  {
    forall s', l' | IsRange(inputs0, s', l') ensures inputs1 == Overlapping(lower, Some(s'.user), Some(l'.user)) {
      RangeIsUnique(inputs0, s, l, s', l');
    }
  }

  /** A wider choice of the same level stays a legal first choice and keeps the old one. */
  lemma WiderSeed(levelZero: bool, files: seq<File>, old0: seq<File>, start: InternalKey, limit: InternalKey,
                  b: Bound, e: Bound)
    requires Seed(levelZero, files, old0) && NoDuplicates(files)
    requires forall f :: f in old0 ==> !Less(f.smallest, start) && !Less(limit, f.largest)
    requires Widens(b, e, Some(start.user), Some(limit.user))
    requires if levelZero then ClosedRange(files, b, e) else b == Some(start.user) && e == Some(limit.user)
    ensures Seed(levelZero, files, Overlapping(files, b, e)) && Subset(old0, Overlapping(files, b, e))
  {
    var wide := Overlapping(files, b, e);
    forall f | f in old0 ensures f in wide {
      assert !Less(f.largest, f.smallest);
    }
    assert old0[0] in wide;
    OverlapsKeepNoDuplicates(files, b, e);
    if levelZero {
      ClosedRangeDetaches(files, b, e);
    } else {
      var a, c := OverlappingIsSlice(files, b, e);
      SliceIsRun(files, a, c);
    }
  }

  lemma RangeGrows(a: seq<File>, c: seq<File>, s: InternalKey, l: InternalKey, s': InternalKey, l': InternalKey)
    requires IsRange(a, s, l) && IsRange(c, s', l') && Subset(a, c)
    ensures s'.user <= s.user && l.user <= l'.user
  {
    var f :| f in a && f.smallest == s;
    var g :| g in a && g.largest == l;
    assert f in c && g in c;
  }

  /** Boundary files of the level, then the files of the next level under their range. */
  method CloseAndLookBelow(levelZero: bool, upper: seq<File>, lower: seq<File>, seed: seq<File>)
    returns (inputs0: seq<File>, inputs1: seq<File>)
    requires Seed(levelZero, upper, seed)
    ensures Seed(levelZero, upper, inputs0) && BoundaryClosure(upper, seed, inputs0)
    ensures LowerInputs(lower, inputs0, inputs1)
    ensures GapFree(seed) ==> GapFree(inputs0 + inputs1)
    ensures forall other :: GapFree(seed + other) ==> GapFree(inputs0 + other)
  {
    hide GapFree;
    inputs0 := AddBoundaryInputs(upper, seed);
    if levelZero {
      DetachedHasNoBoundary(upper, seed);
    }
    var smallest, largest := GetRange(inputs0);
    ghost var b, e;
    inputs1, b, e := GetOverlappingInputs(false, lower, Some(smallest.user), Some(largest.user));
    LowerInputsFrom(lower, inputs0, inputs1, smallest, largest);
    if GapFree(seed) {
      assert seed + [] == seed && inputs0 + [] == inputs0;
      RangeEnds(inputs0, smallest, largest);
      OverlappingIsGapFree(lower, inputs0, smallest.user, largest.user);
    }
  }

  /** The files of the level that overlap everything chosen so far. */
  method ExpandUpper(levelZero: bool, upper: seq<File>, inputs0: seq<File>, inputs1: seq<File>)
    returns (expanded0: seq<File>)
    requires Seed(levelZero, upper, inputs0) && NoDuplicates(upper)
    ensures Seed(levelZero, upper, expanded0) && Subset(inputs0, expanded0)
    ensures InRangeOf(levelZero, upper, inputs0 + inputs1, expanded0)
    ensures GapFree(inputs0 + inputs1) ==> GapFree(expanded0 + inputs1)
  {
    hide GapFree;
    var allStart, allLimit := GetRange(inputs0 + inputs1);
    ghost var b, e;
    expanded0, b, e := GetOverlappingInputs(levelZero, upper, Some(allStart.user), Some(allLimit.user));
    assert forall f :: f in inputs0 ==> f in inputs0 + inputs1;
    WiderSeed(levelZero, upper, inputs0, allStart, allLimit, b, e);
    assert InRange(levelZero, upper, Some(allStart.user), Some(allLimit.user), expanded0);
    InRangeFrom(levelZero, upper, inputs0 + inputs1, allStart, allLimit, expanded0);
    if GapFree(inputs0 + inputs1) {
      RangeEnds(inputs0 + inputs1, allStart, allLimit);
      if levelZero {
        ClosureIsGapFree(upper, inputs0 + inputs1, allStart.user, allLimit.user, b, e);
      } else {
        OverlappingIsGapFree(upper, inputs0 + inputs1, allStart.user, allLimit.user);
      }
      GapFreeSame(inputs0 + inputs1 + expanded0, expanded0 + inputs1);
    }
  }

  lemma GrowthKeepsLowerInputs(lower: seq<File>, a0: seq<File>, a1: seq<File>, c0: seq<File>, c1: seq<File>)
    requires |a0| > 0 && Subset(a0, c0) && LowerInputs(lower, a0, a1) && LowerInputs(lower, c0, c1)
    requires |a1| == |c1|
    ensures a1 == c1
  {
    assert a0[0] in c0;
    var s, l := RangeOf(a0);
    var s', l' := RangeOf(c0);
    RangeGrows(a0, c0, s, l, s', l');
    WiderOverlapsMore(lower, Some(s.user), Some(l.user), Some(s'.user), Some(l'.user));
  }

  /** Growing is worth it: more upper files, not too much data, and the same lower files. */
  ghost predicate Grows(lower: seq<File>, first0: seq<File>, inputs1: seq<File>, grown0: seq<File>, maxFileSize: nat) {
    && |grown0| > |first0| && LowerInputs(lower, grown0, inputs1)
    && TotalFileSize(inputs1) + TotalFileSize(grown0) < ExpandedCompactionByteSizeLimit(maxFileSize)
  }

  /** The inputs that a first choice leads to.  `first0` is its boundary closure and `grown0`
      what the upper level might grow to because of the lower files. */
  ghost predicate LeadsTo(levelZero: bool, upper: seq<File>, lower: seq<File>, seed: seq<File>, maxFileSize: nat,
                            first0: seq<File>, grown0: seq<File>, inputs0: seq<File>, inputs1: seq<File>) {
    && BoundaryClosure(upper, seed, first0) && LowerInputs(lower, first0, inputs1)
    && (inputs1 != [] ==> Grown(levelZero, upper, first0 + inputs1, grown0))
    && inputs0 == if inputs1 != [] && Grows(lower, first0, inputs1, grown0, maxFileSize) then grown0 else first0
  }

  ghost predicate InputsFor(levelZero: bool, upper: seq<File>, lower: seq<File>, seed: seq<File>, maxFileSize: nat,
                            inputs0: seq<File>, inputs1: seq<File>) {
    exists first0, grown0 :: LeadsTo(levelZero, upper, lower, seed, maxFileSize, first0, grown0, inputs0, inputs1)
  }

  /** Completes the inputs of a compaction from the files first picked in its level. */
  method SetupOtherInputs(levelZero: bool, upper: seq<File>, lower: seq<File>, seed: seq<File>, maxFileSize: nat)
    returns (inputs0: seq<File>, inputs1: seq<File>, ghost first0: seq<File>, ghost grown0: seq<File>)
    requires Seed(levelZero, upper, seed) && NoDuplicates(upper)
    ensures LeadsTo(levelZero, upper, lower, seed, maxFileSize, first0, grown0, inputs0, inputs1)
    // Growing never changes the files chosen below, nor loses any above.
    ensures Seed(levelZero, upper, inputs0) && BoundaryClosed(upper, inputs0)
    ensures LowerInputs(lower, inputs0, inputs1) && Subset(first0, inputs0) && Subset(seed, inputs0)
    ensures GapFree(seed) ==> GapFree(inputs0 + inputs1)
  {
    hide GapFree, BoundaryClosure, BoundaryClosed, Seed, InRangeOf, LowerInputs;
    inputs0, inputs1 := CloseAndLookBelow(levelZero, upper, lower, seed);
    ClosureFacts(levelZero, upper, seed, inputs0);
    first0, grown0 := inputs0, inputs0;
    if |inputs1| > 0 {
      var expanded0 := ExpandUpper(levelZero, upper, inputs0, inputs1);
      ghost var wide := expanded0;
      var expanded1;
      expanded0, expanded1 := CloseAndLookBelow(levelZero, upper, lower, expanded0);
      ClosureFacts(levelZero, upper, wide, expanded0);
      grown0 := expanded0;
      SameLowerInputs(lower, inputs0, inputs1, expanded0, expanded1);
      if |expanded0| > |inputs0|
         && TotalFileSize(inputs1) + TotalFileSize(expanded0) < ExpandedCompactionByteSizeLimit(maxFileSize)
         && |expanded1| == |inputs1| {
        inputs0, inputs1 := expanded0, expanded1;
      }
    }
  }

  lemma ClosureFacts(levelZero: bool, upper: seq<File>, seed: seq<File>, r: seq<File>)
    requires BoundaryClosure(upper, seed, r) && Seed(levelZero, upper, r)
    ensures BoundaryClosed(upper, r) && seed <= r && |r| > 0 && Subset(seed, r)
  {
  }

  /** Comparing the number of lower files is as good as comparing the files. */
  lemma SameLowerInputs(lower: seq<File>, a0: seq<File>, a1: seq<File>, c0: seq<File>, c1: seq<File>)
    requires |a0| > 0 && Subset(a0, c0) && LowerInputs(lower, a0, a1) && LowerInputs(lower, c0, c1)
    ensures |a1| == |c1| <==> LowerInputs(lower, c0, a1)
    ensures |a1| == |c1| ==> a1 == c1
  {
    if |a1| == |c1| {
      GrowthKeepsLowerInputs(lower, a0, a1, c0, c1);
    }
    if LowerInputs(lower, c0, a1) {
      assert a0[0] in c0;
      var s, l := RangeOf(c0);
    }
  }

  // ------------------------------------------------------------------- first choices

  lemma OneFileIsRun(files: seq<File>, k: nat)
    requires Ordered(files) && k < |files|
    ensures Seed(false, files, [files[k]])
  {
    SliceIsRun(files, k, k + 1);
    assert files[k..k + 1] == [files[k]];
  }

  /** The first choice of an automatic compaction, from one file picked by size or by seeks. */
  method PickSeed(levelZero: bool, files: seq<File>, picked: File) returns (seed: seq<File>)
    requires picked in files && NoDuplicates(files) && (!levelZero ==> Ordered(files))
    ensures if levelZero then InRangeOf(true, files, [picked], seed) else seed == [picked]
    ensures Seed(levelZero, files, seed) && picked in seed && GapFree(seed)
  {
    hide GapFree;
    seed := [picked];
    if levelZero {
      var smallest, largest := GetRange(seed);
      ghost var b, e;
      seed, b, e := GetOverlappingInputs(true, files, Some(smallest.user), Some(largest.user));
      assert !Less(picked.largest, picked.smallest) && Overlaps(picked, b, e);
      ClosedRangeDetaches(files, b, e);
      OverlapsKeepNoDuplicates(files, b, e);
      RangeEnds([picked], smallest, largest);
      OneIsGapFree(picked);
      ClosureIsGapFree(files, [picked], smallest.user, largest.user, b, e);
      GapFreeSame([picked] + seed, seed);
      assert InRange(true, files, Some(smallest.user), Some(largest.user), seed);
      InRangeFrom(true, files, [picked], smallest, largest, seed);
    } else {
      OneIsGapFree(picked);
      ghost var k :| 0 <= k < |files| && files[k] == picked;
      OneFileIsRun(files, k);
    }
  }

  /** The least number of files whose sizes reach the limit, or all of them. */
  ghost predicate CutAt(files: seq<File>, limit: nat, n: nat) {
    && 0 < n <= |files| && (n < |files| ==> TotalFileSize(files[..n]) >= limit)
    && forall m :: 0 < m < n ==> TotalFileSize(files[..m]) < limit
  }

  method CutToSize(files: seq<File>, limit: nat) returns (n: nat)
    requires |files| > 0
    ensures CutAt(files, limit, n)
  {
    var total := 0;
    for i := 0 to |files|
      invariant total == TotalFileSize(files[..i])
      invariant forall m :: 0 < m <= i ==> TotalFileSize(files[..m]) < limit
    {
      Seqs.TakeTake(files, i, i + 1);
      total := total + files[i].size;
      if total >= limit {
        return i + 1;
      }
    }
    n := |files|;
  }

  /** The files in [begin, end]; above level zero they are cut short once they are a full file
      of data. */
  ghost predicate RangeChoice(levelZero: bool, files: seq<File>, begin: Bound, end: Bound, maxFileSize: nat,
                              seed: seq<File>) {
    if levelZero then InRange(true, files, begin, end, seed)
    else
      var all := Overlapping(files, begin, end);
      seed <= all && if all == [] then seed == [] else CutAt(all, maxFileSize, |seed|)
  }

  /** The first choice of a manual compaction of [begin, end], empty when nothing overlaps. */
  method RangeSeed(levelZero: bool, files: seq<File>, begin: Bound, end: Bound, maxFileSize: nat)
    returns (seed: seq<File>)
    requires NoDuplicates(files) && (!levelZero ==> Ordered(files))
    ensures seed != [] ==> Seed(levelZero, files, seed)
    ensures seed == [] <==> forall f :: f in files ==> !Overlaps(f, begin, end)
    ensures RangeChoice(levelZero, files, begin, end, maxFileSize, seed)
    ensures !levelZero ==> seed <= Overlapping(files, begin, end)
    ensures levelZero ==> forall f :: f in files && Overlaps(f, begin, end) ==> f in seed
  {
    ghost var b, e;
    seed, b, e := GetOverlappingInputs(levelZero, files, begin, end);
    if seed == [] {
      forall f | f in files ensures !Overlaps(f, begin, end) {
        assert f !in Overlapping(files, b, e);
      }
      return;
    }
    if levelZero {
      ClosedRangeDetaches(files, b, e);
      OverlapsKeepNoDuplicates(files, b, e);
      TouchedRangeIsLeast(files, begin, end, b, e);
    } else {
      assert seed[0] in seed;
      var n := CutToSize(seed, maxFileSize);
      PrefixIsSeed(files, begin, end, n);
      seed := seed[..n];
    }
  }

  lemma PrefixIsSeed(files: seq<File>, begin: Bound, end: Bound, n: nat)
    requires Ordered(files) && 0 < n <= |Overlapping(files, begin, end)|
    ensures Seed(false, files, Overlapping(files, begin, end)[..n])
  {
    hide Ordered, Overlaps, Overlapping;
    var a, c := OverlappingIsSlice(files, begin, end);
    Seqs.SliceTake(files, a, c, n);
    SliceIsRun(files, a, a + n);
  }

  /** The grown range of level zero stays empty when nothing touched the given one. */
  lemma TouchedRangeIsLeast(files: seq<File>, begin: Bound, end: Bound, b: Bound, e: Bound)
    requires Overlapping(files, b, e) != [] && LeastClosed(files, begin, end, b, e) && Widens(b, e, begin, end)
    ensures exists f :: f in files && Overlaps(f, begin, end)
  {
    if forall f :: f in files ==> !Overlaps(f, begin, end) {
      assert ClosedRange(files, begin, end) && Widens(begin, end, begin, end);
      assert Widens(begin, end, b, e);
      assert Overlapping(files, b, e)[0] in Overlapping(files, b, e);
    }
  }
}
