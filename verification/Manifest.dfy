/** Version edits and the builder that applies them, one or many at a time. */
module Manifest {
  import opened Keys
  import opened Files
  import opened Versions

  datatype NewFile = NewFile(level: nat, file: File)
  datatype Pointer = Pointer(level: nat, key: InternalKey)
  datatype DeletedFile = DeletedFile(level: nat, number: nat)

  /** A change from one version to the next, with the counters that go with it. */
  datatype Edit = Edit(comparator: Option<string>, logNumber: Option<nat>, prevLogNumber: Option<nat>,
                       nextFileNumber: Option<nat>, lastSequence: Option<nat>, compactPointers: seq<Pointer>,
                       deletedFiles: set<DeletedFile>, newFiles: seq<NewFile>)

  predicate WellFormed(e: Edit) {
    && (forall i :: 0 <= i < |e.compactPointers| ==> e.compactPointers[i].level < NUM_LEVELS)
    && (forall d :: d in e.deletedFiles ==> d.level < NUM_LEVELS)
    && forall i :: 0 <= i < |e.newFiles| ==> e.newFiles[i].level < NUM_LEVELS
  }

  ghost function AddedAt(e: Edit, l: nat): set<File> {
    set n | n in e.newFiles && n.level == l :: n.file
  }

  /** Numbers taken out of level l.  Deletions go first, so a file the edit also adds stays. */
  ghost function RemovedAt(e: Edit, l: nat): set<nat> {
    (set d | d in e.deletedFiles && d.level == l :: d.number) - (set f | f in AddedAt(e, l) :: f.number)
  }

  ghost function Remaining(files: set<File>, deleted: set<nat>): set<File> {
    set f | f in files && f.number !in deleted
  }

  /** The version after one edit, level by level. */
  ghost predicate Applied(before: Levels, after: Levels, e: Edit) {
    forall l :: 0 <= l < |before| ==>
      ListingOf(after[l], Remaining(AsSet(before[l]) + AddedAt(e, l), RemovedAt(e, l)))
  }

  // ------------------------------------------------------------------------ one level

  ghost predicate SortedBySmallest(files: seq<File>) {
    forall i, j :: 0 <= i < j < |files| ==> BySmallestKey(files[i], files[j])
  }

  /** Insertion into the ordered set of added files; an equal element is not added twice. */
  function InsertFile(files: seq<File>, f: File): (r: seq<File>)
    ensures forall g :: g in files ==> g in r
    ensures forall g :: g in r ==> g in files || g == f
  {
    if files == [] || BySmallestKey(f, files[0]) then [f] + files
    else if BySmallestKey(files[0], f) then [files[0]] + InsertFile(files[1..], f)
    else files
  }

  lemma {:induction false} InsertFileSorted(files: seq<File>, f: File)
    requires SortedBySmallest(files)
    ensures SortedBySmallest(InsertFile(files, f))
    ensures (forall g :: g in files ==> g.number != f.number) ==> f in InsertFile(files, f)
  {
    if files != [] && !BySmallestKey(f, files[0]) && BySmallestKey(files[0], f) {
      var rest := InsertFile(files[1..], f);
      InsertFileSorted(files[1..], f);
      forall j | 0 <= j < |rest| ensures BySmallestKey(files[0], rest[j]) {
        assert rest[j] in rest;
      }
    }
  }

  ghost predicate Leads(r: seq<File>, rest: seq<File>) {
    forall f, k :: f in r && 0 <= k < |rest| ==> BySmallestKey(f, rest[k])
  }

  /** Merges the base files of a level with the added ones and leaves out deleted numbers. */
  method SaveLevel(base: seq<File>, added: seq<File>, deleted: set<nat>) returns (r: seq<File>)
    requires SortedBySmallest(base) && SortedBySmallest(added)
    requires forall f, g :: f in base && g in added ==> f.number != g.number
    ensures ListingOf(r, Remaining(AsSet(base) + AsSet(added), deleted))
  {
    r := [];
    var i := 0;
    for j := 0 to |added|
      invariant 0 <= i <= |base|
      invariant Merged(base, added, deleted, i, j, r)
    {
      // std::upper_bound: everything in base that does not come after the added file.
      while i < |base| && !BySmallestKey(added[j], base[i])
        invariant 0 <= i <= |base|
        invariant Merged(base, added, deleted, i, j, r)
      {
        MergeBase(base, added, deleted, i, j, r);
        if base[i].number !in deleted {
          r := r + [base[i]];
        }
        i := i + 1;
      }
      MergeAdded(base, added, deleted, i, j, r);
      if added[j].number !in deleted {
        r := r + [added[j]];
      }
    }
    while i < |base|
      invariant 0 <= i <= |base|
      invariant Merged(base, added, deleted, i, |added|, r)
    {
      MergeBase(base, added, deleted, i, |added|, r);
      if base[i].number !in deleted {
        r := r + [base[i]];
      }
      i := i + 1;
    }
    MergedAll(base, added, deleted, r);
  }

  /** The first i base files and j added files are merged into r, before all the others. */
  ghost predicate Merged(base: seq<File>, added: seq<File>, deleted: set<nat>, i: nat, j: nat, r: seq<File>)
    requires i <= |base| && j <= |added|
  {
    && SortedBySmallest(r) && Leads(r, base[i..]) && Leads(r, added[j..])
    && AsSet(r) == Remaining(AsSet(base[..i]) + AsSet(added[..j]), deleted)
  }

  /** Taking the head of one list, which comes before the other list. */
  lemma TakeHead(r: seq<File>, head: seq<File>, other: seq<File>)
    requires SortedBySmallest(r) && Leads(r, head) && Leads(r, other) && head != []
    requires SortedBySmallest(head) && SortedBySmallest(other) && (other != [] ==> BySmallestKey(head[0], other[0]))
    ensures Leads(r, head[1..]) && Leads(r + [head[0]], head[1..]) && Leads(r + [head[0]], other)
    ensures SortedBySmallest(r + [head[0]])
  {
    forall k | 0 <= k < |other| ensures BySmallestKey(head[0], other[k]) {
      assert k == 0 || BySmallestKey(other[0], other[k]);
    }
    forall k | 0 <= k < |head| - 1 ensures BySmallestKey(head[0], head[1..][k]) {
      assert BySmallestKey(head[0], head[k + 1]);
    }
    forall f | f in r ensures BySmallestKey(f, head[0]) {
    }
  }

  lemma TakenGrows(files: seq<File>, i: nat)
    requires i < |files|
    ensures AsSet(files[..i + 1]) == AsSet(files[..i]) + {files[i]} && files[i..][1..] == files[i + 1..]
  {
    assert files[..i + 1] == files[..i] + [files[i]];
  }

  lemma MergeBase(base: seq<File>, added: seq<File>, deleted: set<nat>, i: nat, j: nat, r: seq<File>)
    requires SortedBySmallest(base) && SortedBySmallest(added)
    requires forall f, g :: f in base && g in added ==> f.number != g.number
    requires i < |base| && j <= |added| && Merged(base, added, deleted, i, j, r)
    requires j < |added| ==> !BySmallestKey(added[j], base[i])
    ensures Merged(base, added, deleted, i + 1, j, if base[i].number in deleted then r else r + [base[i]])
  {
    assert j < |added| ==> BySmallestKey(base[i], added[j]) by {
      assert base[i] in base && (j < |added| ==> added[j] in added);
    }
    SortedSlice(base, i);
    SortedSlice(added, j);
    hide SortedBySmallest, Leads, BySmallestKey;
    TakeHead(r, base[i..], added[j..]);
    TakenGrows(base, i);
    assert AsSet(r + [base[i]]) == AsSet(r) + {base[i]};
  }

  lemma MergeAdded(base: seq<File>, added: seq<File>, deleted: set<nat>, i: nat, j: nat, r: seq<File>)
    requires SortedBySmallest(base) && SortedBySmallest(added)
    requires i <= |base| && j < |added| && Merged(base, added, deleted, i, j, r)
    requires i < |base| ==> BySmallestKey(added[j], base[i])
    ensures Merged(base, added, deleted, i, j + 1, if added[j].number in deleted then r else r + [added[j]])
  {
    SortedSlice(base, i);
    SortedSlice(added, j);
    hide SortedBySmallest, Leads, BySmallestKey;
    TakeHead(r, added[j..], base[i..]);
    TakenGrows(added, j);
    assert AsSet(r + [added[j]]) == AsSet(r) + {added[j]};
  }

  lemma SortedSlice(files: seq<File>, i: nat)
    requires SortedBySmallest(files) && i <= |files|
    ensures SortedBySmallest(files[i..])
  {
  }

  lemma MergedAll(base: seq<File>, added: seq<File>, deleted: set<nat>, r: seq<File>)
    requires Merged(base, added, deleted, |base|, |added|, r)
    ensures ListingOf(r, Remaining(AsSet(base) + AsSet(added), deleted))
  {
    assert base[..|base|] == base && added[..|added|] == added;
    assert forall f :: f in r <==> f in AsSet(r);
  }

  // ---------------------------------------------------------------- many edits at once

  ghost function Numbers(files: set<File>): set<nat> {
    set f | f in files :: f.number
  }

  ghost function DeletedAt(e: Edit, l: nat): set<nat> {
    set d | d in e.deletedFiles && d.level == l :: d.number
  }

  /** What a builder remembers of level l after a sequence of edits. */
  ghost function DeletedFold(edits: seq<Edit>, l: nat): set<nat> {
    if edits == [] then {} else
      var e := edits[|edits| - 1];
      DeletedFold(edits[..|edits| - 1], l) + DeletedAt(e, l) - Numbers(AddedAt(e, l))
  }

  ghost function AddedFold(edits: seq<Edit>, l: nat): set<File> {
    if edits == [] then {} else AddedFold(edits[..|edits| - 1], l) + AddedAt(edits[|edits| - 1], l)
  }

  /** No number enters a level twice: not by one edit, and not after earlier ones. */
  ghost predicate FreshIn(known: set<File>, e: Edit, l: nat) {
    && Numbers(AddedAt(e, l)) !! Numbers(known)
    && forall f, g :: f in AddedAt(e, l) && g in AddedAt(e, l) && f.number == g.number ==> f == g
  }

  ghost predicate NeverReadded(base: Levels, edits: seq<Edit>) {
    forall k, l :: 0 <= k < |edits| && 0 <= l < NUM_LEVELS ==>
      FreshIn(AsSet(base[l]) + AddedFold(edits[..k], l), edits[k], l)
  }

  /** `versions` are the versions that applying the edits one at a time goes through. */
  ghost predicate Chain(versions: seq<Levels>, edits: seq<Edit>) {
    && |versions| == |edits| + 1
    && forall k :: 0 <= k < |edits| ==> Applied(versions[k], versions[k + 1], edits[k])
  }

  /** Folding edits into one builder keeps track of every version on the way. */
  lemma {:induction false} FoldFollowsChain(versions: seq<Levels>, edits: seq<Edit>, k: nat, l: nat)
    requires Chain(versions, edits) && NeverReadded(versions[0], edits) && k <= |edits| && l < NUM_LEVELS
    ensures AsSet(versions[k][l])
         == Remaining(AsSet(versions[0][l]) + AddedFold(edits[..k], l), DeletedFold(edits[..k], l))
  {
    var base := AsSet(versions[0][l]);
    if k == 0 {
      assert Remaining(base, {}) == base;
    } else {
      FoldFollowsChain(versions, edits, k - 1, l);
      assert edits[..k][..k - 1] == edits[..k - 1];
      ListedSet(versions[k][l], Remaining(AsSet(versions[k - 1][l]) + AddedAt(edits[k - 1], l),
                                          RemovedAt(edits[k - 1], l)));
      FoldStep(base + AddedFold(edits[..k - 1], l), DeletedFold(edits[..k - 1], l), edits[k - 1], l);
      assert base + AddedFold(edits[..k], l) == base + AddedFold(edits[..k - 1], l) + AddedAt(edits[k - 1], l);
    }
  }

  lemma ListedSet(after: seq<File>, members: set<File>)
    requires ListingOf(after, members)
    ensures AsSet(after) == members
  {
  }

  lemma FoldStep(known: set<File>, deleted: set<nat>, e: Edit, l: nat)
    requires FreshIn(known, e, l)
    ensures Remaining(Remaining(known, deleted) + AddedAt(e, l), RemovedAt(e, l))
         == Remaining(known + AddedAt(e, l), deleted + DeletedAt(e, l) - Numbers(AddedAt(e, l)))
  {
    var added := AddedAt(e, l);
    assert RemovedAt(e, l) == DeletedAt(e, l) - Numbers(added);
    forall f | f in known ensures f.number !in Numbers(added) {
      assert f.number in Numbers(known);
    }
    forall f | f in added ensures f.number in Numbers(added) {
    }
  }

  // ---------------------------------------------------------------------- the builder

  class Builder {
    const base: Levels
    var deletedFiles: seq<set<nat>>
    var addedFiles: seq<seq<File>>
    ghost var edits: seq<Edit>

    ghost predicate Holds()
      reads this
    {
      && |deletedFiles| == |addedFiles| == NUM_LEVELS
      && NeverReadded(base, edits)
      && forall l :: 0 <= l < NUM_LEVELS ==>
           && deletedFiles[l] == DeletedFold(edits, l)
           && AsSet(addedFiles[l]) == AddedFold(edits, l)
           && SortedBySmallest(addedFiles[l])
    }

    constructor (base: Levels)
      ensures this.base == base && edits == [] && Holds()
    {
      this.base := base;
      deletedFiles := seq(NUM_LEVELS, _ => {});
      addedFiles := seq(NUM_LEVELS, _ => []);
      edits := [];
    }

    /** Deletions of level l are recorded first, then its new files in order. */
    method Apply(e: Edit)
      requires Holds() && WellFormed(e)
      requires forall l :: 0 <= l < NUM_LEVELS ==> FreshIn(AsSet(base[l]) + AddedFold(edits, l), e, l)
      modifies this
      ensures Holds() && edits == old(edits) + [e]
    {
      var deleted, added := deletedFiles, addedFiles;
      for l := 0 to NUM_LEVELS
        modifies {}
        invariant |deleted| == |added| == NUM_LEVELS
        invariant forall m :: l <= m < NUM_LEVELS ==> deleted[m] == deletedFiles[m] && added[m] == addedFiles[m]
        invariant forall m :: 0 <= m < l ==> LevelFolded(m, deleted[m], added[m], edits + [e])
      {
        var d, a := ApplyToLevel(e, l, deletedFiles[l], addedFiles[l], edits);
        deleted, added := deleted[l := d], added[l := a];
      }
      OneMoreEdit(base, edits, e);
      deletedFiles, addedFiles, edits := deleted, added, edits + [e];
    }

    method SaveTo() returns (v: Levels)
      requires Holds() && forall l :: 0 <= l < NUM_LEVELS ==> SortedBySmallest(base[l])
      ensures forall l :: 0 <= l < NUM_LEVELS ==>
        ListingOf(v[l], Remaining(AsSet(base[l]) + AddedFold(edits, l), DeletedFold(edits, l)))
    {
      var levels: seq<seq<File>> := [];
      for l := 0 to NUM_LEVELS
        invariant |levels| == l
        invariant forall m :: 0 <= m < l ==>
          ListingOf(levels[m], Remaining(AsSet(base[m]) + AddedFold(edits, m), DeletedFold(edits, m)))
      {
        AddedAreNew(base, edits, l);
        assert forall g :: g in addedFiles[l] ==> g in AsSet(addedFiles[l]);
        var files := SaveLevel(base[l], addedFiles[l], deletedFiles[l]);
        levels := levels + [files];
      }
      v := levels;
    }
  }

  ghost predicate LevelFolded(l: nat, deleted: set<nat>, added: seq<File>, edits: seq<Edit>) {
    deleted == DeletedFold(edits, l) && AsSet(added) == AddedFold(edits, l) && SortedBySmallest(added)
  }

  lemma OneMoreEdit(base: Levels, edits: seq<Edit>, e: Edit)
    requires NeverReadded(base, edits)
    requires forall l :: 0 <= l < NUM_LEVELS ==> FreshIn(AsSet(base[l]) + AddedFold(edits, l), e, l)
    ensures NeverReadded(base, edits + [e])
  {
    hide FreshIn;
    var more := edits + [e];
    forall k, l | 0 <= k < |more| && 0 <= l < NUM_LEVELS
      ensures FreshIn(AsSet(base[l]) + AddedFold(more[..k], l), more[k], l)
    {
      assert more[..k] == edits[..k];
      assert edits[..|edits|] == edits;
    }
  }

  /** Numbers added by the edits are not numbers of the base. */
  lemma {:induction false} AddedAreNew(base: Levels, edits: seq<Edit>, l: nat)
    requires NeverReadded(base, edits) && l < NUM_LEVELS
    ensures forall f, g :: f in base[l] && g in AddedFold(edits, l) ==> f.number != g.number
  {
    if edits != [] {
      var n := |edits| - 1;
      FrontNeverReadded(base, edits);
      AddedAreNew(base, edits[..n], l);
      assert FreshIn(AsSet(base[l]) + AddedFold(edits[..n], l), edits[n], l);
      forall f, g | f in base[l] && g in AddedAt(edits[n], l) ensures f.number != g.number {
        assert f.number in Numbers(AsSet(base[l]) + AddedFold(edits[..n], l));
        assert g.number in Numbers(AddedAt(edits[n], l));
      }
    }
  }

  lemma FrontNeverReadded(base: Levels, edits: seq<Edit>)
    requires NeverReadded(base, edits) && edits != []
    ensures NeverReadded(base, edits[..|edits| - 1])
  {
    hide FreshIn;
    var front := edits[..|edits| - 1];
    forall k, l | 0 <= k < |front| && 0 <= l < NUM_LEVELS
      ensures FreshIn(AsSet(base[l]) + AddedFold(front[..k], l), front[k], l)
    {
      assert front[..k] == edits[..k];
    }
  }

  ghost function AddedAmong(newFiles: seq<NewFile>, l: nat): set<File> {
    set n | n in newFiles && n.level == l :: n.file
  }

  /** The loops over deleted and new files, for one level. */
  method ApplyToLevel(e: Edit, l: nat, deleted: set<nat>, added: seq<File>, ghost edits: seq<Edit>)
    returns (d: set<nat>, a: seq<File>)
    requires LevelFolded(l, deleted, added, edits)
    requires Numbers(AddedAt(e, l)) !! Numbers(AddedFold(edits, l))
    requires forall f, g :: f in AddedAt(e, l) && g in AddedAt(e, l) && f.number == g.number ==> f == g
    ensures LevelFolded(l, d, a, edits + [e])
  {
    var numbers := set x | x in e.deletedFiles && x.level == l :: x.number;
    d, a := deleted + numbers, added;
    for i := 0 to |e.newFiles|
      invariant SortedBySmallest(a)
      invariant AsSet(a) == AddedFold(edits, l) + AddedAmong(e.newFiles[..i], l)
      invariant d == deleted + numbers - Numbers(AddedAmong(e.newFiles[..i], l))
    {
      var n := e.newFiles[i];
      AmongGrows(e.newFiles, i, l);
      if n.level == l {
        InsertNew(e, l, i, a, AddedFold(edits, l));
        d := d - {n.file.number};
        a := InsertFile(a, n.file);
      }
    }
    assert e.newFiles[..|e.newFiles|] == e.newFiles;
    assert (edits + [e])[..|edits|] == edits;
  }

  lemma AmongGrows(newFiles: seq<NewFile>, i: nat, l: nat)
    requires i < |newFiles|
    ensures AddedAmong(newFiles[..i + 1], l)
         == AddedAmong(newFiles[..i], l) + if newFiles[i].level == l then {newFiles[i].file} else {}
    ensures Numbers(AddedAmong(newFiles[..i + 1], l))
         == Numbers(AddedAmong(newFiles[..i], l)) + if newFiles[i].level == l then {newFiles[i].file.number} else {}
  {
    assert newFiles[..i + 1] == newFiles[..i] + [newFiles[i]];
    NumbersOfUnion(AddedAmong(newFiles[..i], l), newFiles[i].file);
  }

  lemma NumbersOfUnion(files: set<File>, f: File)
    ensures Numbers(files + {f}) == Numbers(files) + {f.number}
  {
    forall n | n in Numbers(files) + {f.number} ensures n in Numbers(files + {f}) {
      if n in Numbers(files) {
        var g :| g in files && g.number == n;
        assert g in files + {f};
      } else {
        assert f in files + {f};
      }
    }
  }

  lemma InsertNew(e: Edit, l: nat, i: nat, a: seq<File>, known: set<File>)
    requires i < |e.newFiles| && e.newFiles[i].level == l && SortedBySmallest(a)
    requires AsSet(a) == known + AddedAmong(e.newFiles[..i], l)
    requires Numbers(AddedAt(e, l)) !! Numbers(known)
    requires forall f, g :: f in AddedAt(e, l) && g in AddedAt(e, l) && f.number == g.number ==> f == g
    ensures SortedBySmallest(InsertFile(a, e.newFiles[i].file))
    ensures AsSet(InsertFile(a, e.newFiles[i].file)) == AsSet(a) + {e.newFiles[i].file}
  {
    var f := e.newFiles[i].file;
    InsertFileSorted(a, f);
    assert e.newFiles[i] in e.newFiles && f in AddedAt(e, l) && f.number in Numbers(AddedAt(e, l));
    if f !in a {
      forall g | g in a ensures g.number != f.number {
        assert g in AsSet(a);
        if g in known {
          assert g.number in Numbers(known);
        } else {
          assert g in AddedAt(e, l);
        }
      }
    }
  }
}
