/** The edits of flushes, moves and compactions, and what they do to a version. */
module Edits {
  import opened Keys
  import opened Files
  import opened Inputs
  import opened Versions
  import opened Manifest
  import opened VersionSets
  import opened Replacement

  const NO_EDIT: Edit := Edit(None, None, None, None, None, [], {}, [])

  function Deletions(level: nat, inputs: seq<File>): set<DeletedFile> {
    set f | f in inputs :: DeletedFile(level, f.number)
  }

  function Additions(level: nat, outputs: seq<File>): seq<NewFile> {
    seq(|outputs|, i requires 0 <= i < |outputs| => NewFile(level, outputs[i]))
  }

  /** The edit of a compaction or a move from level L. */
  function CompactionEdit(L: nat, inputs0: seq<File>, inputs1: seq<File>, outputs: seq<File>,
                          pointer: InternalKey): Edit {
    Edit(None, None, None, None, None, [Pointer(L, pointer)], Deletions(L, inputs0) + Deletions(L + 1, inputs1),
         Additions(L + 1, outputs))
  }

  // ------------------------------------------------------ what the edits do to a version

  lemma FlushEditAdds(before: Levels, after: Levels, level: nat, f: File, e: Edit)
    requires level < NUM_LEVELS && e.deletedFiles == {} && e.newFiles == [NewFile(level, f)]
    requires Applied(before, after, e)
    ensures Added(before, after, level, f)
    ensures forall l: nat :: AddedAt(e, l) == if l == level then {f} else {}
  {
    hide ListingOf;
    forall l: nat ensures AddedAt(e, l) == if l == level then {f} else {} {
      assert NewFile(level, f) in e.newFiles;
    }
    forall l | 0 <= l < |before| ensures ListingOf(after[l], AsSet(before[l]) + if l == level then {f} else {}) {
      assert Remaining(AsSet(before[l]) + AddedAt(e, l), RemovedAt(e, l)) == AsSet(before[l]) + AddedAt(e, l);
    }
  }

  lemma EmptyEditKeeps(before: Levels, after: Levels, e: Edit)
    requires e.deletedFiles == {} && e.newFiles == [] && Applied(before, after, e) && AllListed(before)
    ensures after == before
    ensures forall l: nat :: AddedAt(e, l) == {}
  {
    hide ListingOf;
    forall l | 0 <= l < |before| ensures after[l] == before[l] {
      assert Remaining(AsSet(before[l]) + AddedAt(e, l), RemovedAt(e, l)) == AsSet(before[l]);
      ListingIsUnique(after[l], before[l], AsSet(before[l]));
    }
    assert after == before;
  }

  lemma CompactionAdds(L: nat, inputs0: seq<File>, inputs1: seq<File>, outputs: seq<File>, pointer: InternalKey, l: nat)
    ensures AddedAt(CompactionEdit(L, inputs0, inputs1, outputs, pointer),
                    l) == if l == L + 1 then AsSet(outputs) else {}
  {
    var e := CompactionEdit(L, inputs0, inputs1, outputs, pointer);
    forall i | 0 <= i < |outputs| ensures NewFile(L + 1, outputs[i]) in e.newFiles {
      assert e.newFiles[i] == NewFile(L + 1, outputs[i]);
    }
    forall f ensures f in AddedAt(e, l) <==> l == L + 1 && f in outputs {
    }
  }

  lemma CompactionDeletes(L: nat, inputs0: seq<File>, inputs1: seq<File>, outputs: seq<File>, pointer: InternalKey,
                          l: nat)
    ensures DeletedAt(CompactionEdit(L, inputs0, inputs1, outputs, pointer), l)
         == if l == L then Numbers(AsSet(inputs0)) else if l == L + 1 then Numbers(AsSet(inputs1)) else {}
  {
    var e := CompactionEdit(L, inputs0, inputs1, outputs, pointer);
    forall n ensures n in DeletedAt(e, l)
      <==> n in (if l == L then Numbers(AsSet(inputs0)) else if l == L + 1 then Numbers(AsSet(inputs1)) else {})
    {
      if f :| f in inputs0 && f.number == n {
        assert DeletedFile(L, n) in e.deletedFiles;
      }
      if f :| f in inputs1 && f.number == n {
        assert DeletedFile(L + 1, n) in e.deletedFiles;
      }
    }
  }

  /** Removing the numbers of some files of a level removes just those files. */
  lemma RemovingInputs(levels: Levels, nextFile: nat, l: nat, inputs: seq<File>)
    requires Numbered(levels, nextFile) && l < |levels| && Subset(inputs, levels[l])
    ensures Remaining(AsSet(levels[l]), Numbers(AsSet(inputs))) == AsSet(levels[l]) - AsSet(inputs)
  {
    forall f | f in levels[l] ensures f.number in Numbers(AsSet(inputs)) <==> f in inputs {
      if f in inputs { assert f in AsSet(inputs); }
    }
  }

  lemma CompactionEditReplaces(before: Levels, after: Levels, nextFile: nat, nextFile': nat, L: nat, inputs0: seq<File>,
                               inputs1: seq<File>, outputs: seq<File>, pointer: InternalKey)
    requires Numbered(before, nextFile) && L + 1 < NUM_LEVELS
    requires Subset(inputs0, before[L]) && Subset(inputs1, before[L + 1])
    requires OutputsNumbered(inputs0, outputs, nextFile, nextFile')
    requires Applied(before, after, CompactionEdit(L, inputs0, inputs1, outputs, pointer))
    ensures Replaced(before, after, L, inputs0, inputs1, outputs)
  {
    hide ListingOf, AddedAt, DeletedAt, Numbered, OutputsNumbered;
    var e := CompactionEdit(L, inputs0, inputs1, outputs, pointer);
    forall l | 0 <= l < |before| ensures ListingOf(after[l], NewMembers(before, L, inputs0, inputs1, outputs, l)) {
      CompactionAdds(L, inputs0, inputs1, outputs, pointer, l);
      CompactionDeletes(L, inputs0, inputs1, outputs, pointer, l);
      RemovingInputs(before, nextFile, L, inputs0);
      RemovingInputs(before, nextFile, L + 1, inputs1);
      RemovedIsDeleted(e, l);
      if l == L + 1 {
        OutputsStay(before, nextFile, nextFile', L, inputs0, inputs1, outputs);
      }
      assert Remaining(AsSet(before[l]) + AddedAt(e, l), RemovedAt(e, l))
          == NewMembers(before, L, inputs0, inputs1, outputs, l);
    }
  }

  lemma RemovedIsDeleted(e: Edit, l: nat)
    ensures RemovedAt(e, l) == DeletedAt(e, l) - Numbers(AddedAt(e, l))
  {
  }

  lemma OutputsStay(before: Levels, nextFile: nat, nextFile': nat, L: nat, inputs0: seq<File>, inputs1: seq<File>,
                    outputs: seq<File>)
    requires Numbered(before, nextFile) && L + 1 < NUM_LEVELS
    requires Subset(inputs0, before[L]) && Subset(inputs1, before[L + 1])
    requires OutputsNumbered(inputs0, outputs, nextFile, nextFile')
    ensures Remaining(AsSet(before[L + 1]) + AsSet(outputs), Numbers(AsSet(inputs1)) - Numbers(AsSet(outputs)))
         == Remaining(AsSet(before[L + 1]), Numbers(AsSet(inputs1))) + AsSet(outputs)
  {
    forall f | f in outputs ensures f.number in Numbers(AsSet(outputs)) {
      assert f in AsSet(outputs);
    }
    forall f | f in before[L + 1] ensures f.number !in Numbers(AsSet(outputs)) {
    }
  }

  // ------------------------------------------------------- file numbers enter a level once

  /** A file of one level was never before listed in a deeper one, and all numbers ever
      listed are below the next one. */
  ghost predicate NeverDeeper(descriptor: Option<seq<Edit>>, current: Levels, nextFile: nat) {
    && (forall l, f :: 0 <= l < NUM_LEVELS && f in EverIn(descriptor, current, l) ==> f.number < nextFile)
    && forall l, m, f, g :: 0 <= l < m < NUM_LEVELS && f in current[l] && g in EverIn(descriptor, current, m)
         ==> f.number != g.number
  }

  /** What the edit adds is new, or comes from the level above. */
  ghost predicate AddsOnce(current: Levels, e: Edit, level: nat, nextFile: nat, nextFile': nat) {
    && nextFile <= nextFile' && level < NUM_LEVELS
    && (forall l: nat :: l != level ==> AddedAt(e, l) == {})
    && (forall f :: f in AddedAt(e, level) ==>
          || nextFile <= f.number < nextFile'
          || (level > 0 && f in current[level - 1] && f.number in RemovedAt(e, level - 1)))
    && forall f, g :: f in AddedAt(e, level) && g in AddedAt(e, level) && f.number == g.number ==> f == g
  }

  lemma AddsAreFresh(descriptor: Option<seq<Edit>>, current: Levels, e: Edit, level: nat,
                     nextFile: nat, nextFile': nat, l: nat)
    requires level < NUM_LEVELS && l < NUM_LEVELS
    requires NeverDeeper(descriptor, current, nextFile) && AddsOnce(current, e, level, nextFile, nextFile')
    ensures FreshIn(EverIn(descriptor, current, l), e, l)
  {
    hide AddedAt, EverIn;
    var known := EverIn(descriptor, current, l);
    forall n | n in Numbers(AddedAt(e, l)) ensures n !in Numbers(known) {
      var f :| f in AddedAt(e, l) && f.number == n;
      forall g | g in known ensures g.number != n {
        assert l == level;
      }
    }
  }

  lemma InApplied(before: Levels, after: Levels, e: Edit, l: nat, f: File)
    requires Applied(before, after, e) && l < NUM_LEVELS && f in after[l]
    ensures (f in before[l] || f in AddedAt(e, l)) && f.number !in RemovedAt(e, l)
  {
    hide AddedAt, RemovedAt, BySmallestKey;
    assert f in Remaining(AsSet(before[l]) + AddedAt(e, l), RemovedAt(e, l));
  }

  lemma StillNeverDeeper(descriptor: Option<seq<Edit>>, current: Levels, descriptor': Option<seq<Edit>>,
                         current': Levels,
                         e: Edit, level: nat, nextFile: nat, nextFile': nat)
    requires level < NUM_LEVELS && Numbered(current, nextFile)
    requires NeverDeeper(descriptor, current, nextFile) && AddsOnce(current, e, level, nextFile, nextFile')
    requires Applied(current, current', e)
    requires forall l :: 0 <= l < NUM_LEVELS ==>
      EverIn(descriptor', current', l) == EverIn(descriptor, current, l) + AddedAt(e, l)
    ensures NeverDeeper(descriptor', current', nextFile')
  {
    hide EverIn, AddedAt, RemovedAt, ListingOf, Applied, Remaining, Numbered;
    forall l, f | 0 <= l < NUM_LEVELS && f in EverIn(descriptor', current', l) ensures f.number < nextFile' {
      NumberBelow(descriptor, current, e, level, nextFile, nextFile', l, f);
    }
    forall l, m, f, g | 0 <= l < m < NUM_LEVELS && f in current'[l] && g in EverIn(descriptor', current', m)
      ensures f.number != g.number
    {
      InApplied(current, current', e, l, f);
      NumbersDiffer(descriptor, current, e, level, nextFile, nextFile', l, m, f, g);
    }
  }

  lemma NumberBelow(descriptor: Option<seq<Edit>>, current: Levels, e: Edit, level: nat, nextFile: nat, nextFile': nat,
                    l: nat, f: File)
    requires level < NUM_LEVELS && l < NUM_LEVELS && Numbered(current, nextFile)
    requires NeverDeeper(descriptor, current, nextFile) && AddsOnce(current, e, level, nextFile, nextFile')
    requires f in EverIn(descriptor, current, l) || f in AddedAt(e, l)
    ensures f.number < nextFile'
  {
    hide EverIn, AddedAt, RemovedAt;
  }

  /** A file that stays in, or comes to, a level and one that was ever listed, or comes, in a deeper one. */
  lemma NumbersDiffer(descriptor: Option<seq<Edit>>, current: Levels, e: Edit, level: nat, nextFile: nat,
                      nextFile': nat,
                      l: nat, m: nat, f: File, g: File)
    requires level < NUM_LEVELS && l < m < NUM_LEVELS && Numbered(current, nextFile)
    requires NeverDeeper(descriptor, current, nextFile) && AddsOnce(current, e, level, nextFile, nextFile')
    requires f in AddedAt(e, l) || (f in current[l] && f.number !in RemovedAt(e, l))
    requires g in EverIn(descriptor, current, m) || g in AddedAt(e, m)
    ensures f.number != g.number
  {
    hide EverIn, AddedAt, RemovedAt;
  }
}
