/** The version set: logging an edit to the manifest while applying it, and getting the
    same version back by replaying the manifest. */
module VersionSets {
  import opened Keys
  import opened Files
  import opened Versions
  import opened Manifest

  type Pointers = s: seq<Option<InternalKey>> | |s| == NUM_LEVELS witness seq(NUM_LEVELS, _ => None)

  const NO_FILES: Levels := [[], [], [], [], [], [], []]
  const NO_POINTERS: Pointers := [None, None, None, None, None, None, None]

  predicate PointersFit(changes: seq<Pointer>) {
    forall i :: 0 <= i < |changes| ==> changes[i].level < NUM_LEVELS
  }

  /** The compaction pointers after the changes of one edit. */
  function SetPointers(pointers: Pointers, changes: seq<Pointer>): (r: Pointers)
    requires PointersFit(changes)
  {
    if changes == [] then pointers
    else
      var last := changes[|changes| - 1];
      SetPointers(pointers, changes[..|changes| - 1])[last.level := Some(last.key)]
  }

  datatype Counters = Counters(logNumber: Option<nat>, prevLogNumber: Option<nat>,
                               nextFileNumber: Option<nat>, lastSequence: Option<nat>)

  function Later(before: Option<nat>, after: Option<nat>): Option<nat> {
    if after.Some? then after else before
  }

  /** The last value each counter was given by a sequence of edits. */
  ghost function CounterFold(edits: seq<Edit>): Counters {
    if edits == [] then Counters(None, None, None, None) else
      var before, e := CounterFold(edits[..|edits| - 1]), edits[|edits| - 1];
      Counters(Later(before.logNumber, e.logNumber), Later(before.prevLogNumber, e.prevLogNumber),
               Later(before.nextFileNumber, e.nextFileNumber), Later(before.lastSequence, e.lastSequence))
  }

  ghost predicate AllWellFormed(edits: seq<Edit>) {
    forall k :: 0 <= k < |edits| ==> WellFormed(edits[k])
  }

  ghost function PointerFold(edits: seq<Edit>): Pointers
    requires AllWellFormed(edits)
  {
    if edits == [] then NO_POINTERS
    else SetPointers(PointerFold(edits[..|edits| - 1]), edits[|edits| - 1].compactPointers)
  }

  predicate ComparatorFits(e: Edit, comparator: string) {
    e.comparator == None || e.comparator == Some(comparator)
  }

  ghost predicate AllReadable(manifest: seq<Edit>, comparator: string) {
    forall k :: 0 <= k < |manifest| ==> WellFormed(manifest[k]) && ComparatorFits(manifest[k], comparator)
  }

  /** Replayed one edit at a time from nothing, the manifest goes through `versions`, never
      adding a file number to a level twice. */
  ghost predicate History(manifest: seq<Edit>, versions: seq<Levels>) {
    Chain(versions, manifest) && versions[0] == NO_FILES && NeverReadded(NO_FILES, manifest)
  }

  /** Every file that the open manifest ever put into level l. */
  ghost function EverIn(descriptor: Option<seq<Edit>>, current: Levels, l: nat): set<File>
    requires l < NUM_LEVELS
  {
    if descriptor.Some? then AddedFold(descriptor.value, l) else AsSet(current[l])
  }

  ghost predicate AllListed(levels: Levels) {
    forall l :: 0 <= l < NUM_LEVELS ==> ListingOf(levels[l], AsSet(levels[l])) && UniqueNumbers(levels[l])
  }

  /** The manifest leads to these files and compaction pointers. */
  ghost predicate Describes(manifest: seq<Edit>, versions: seq<Levels>, comparator: string, current: Levels,
                            pointers: Pointers) {
    && AllReadable(manifest, comparator) && History(manifest, versions)
    && versions[|manifest|] == current && PointerFold(manifest) == pointers
  }

  /** An edit as it is logged: with all counters. */
  function Completed(e: Edit, logNumber: nat, prevLogNumber: nat, nextFileNumber: nat, lastSequence: nat): Edit {
    e.(logNumber := Later(Some(logNumber), e.logNumber), prevLogNumber := Later(Some(prevLogNumber), e.prevLogNumber),
       nextFileNumber := Some(nextFileNumber), lastSequence := Some(lastSequence))
  }

  datatype Status = Ok | Corruption | InvalidArgument

  ghost predicate UniqueNumbers(files: seq<File>) {
    forall f, g :: f in files && g in files && f.number == g.number ==> f == g
  }

  class VersionSet {
    const comparator: string
    var current: Levels
    var compactPointers: Pointers
    var logNumber: nat
    var prevLogNumber: nat
    var nextFileNumber: nat
    var lastSequence: nat
    var manifestFileNumber: nat
    var descriptor: Option<seq<Edit>>   // the records of the open manifest
    ghost var versions: seq<Levels>

    /** The open manifest, when there is one, leads to the current version. */
    ghost predicate Valid()
      reads this
    {
      && AllListed(current)
      && (descriptor.Some? ==>
            && Describes(descriptor.value, versions, comparator, current, compactPointers)
            && CounterFold(descriptor.value).logNumber == Some(logNumber)
            && Later(Some(0), CounterFold(descriptor.value).prevLogNumber) == Some(prevLogNumber))
    }

    ghost function EverAt(l: nat): set<File>
      requires l < NUM_LEVELS
      reads this
    {
      EverIn(descriptor, current, l)
    }

    constructor (comparator: string)
      ensures Valid() && this.comparator == comparator && descriptor == None
      ensures current == NO_FILES && compactPointers == NO_POINTERS
      ensures nextFileNumber == 2 && lastSequence == 0 && logNumber == 0
    {
      this.comparator := comparator;
      current, compactPointers := NO_FILES, NO_POINTERS;
      logNumber, prevLogNumber, nextFileNumber, lastSequence, manifestFileNumber := 0, 0, 2, 0, 0;
      descriptor := None;
    }

    lemma FreshToCurrent(e: Edit)
      requires Valid() && forall l :: 0 <= l < NUM_LEVELS ==> FreshIn(EverAt(l), e, l)
      ensures forall l :: 0 <= l < NUM_LEVELS ==> FreshIn(AsSet(current[l]), e, l)
      ensures descriptor.Some? ==> forall l :: 0 <= l < NUM_LEVELS ==> FreshIn(AddedFold(descriptor.value, l), e, l)
    {
      hide FreshIn, AsSet, NeverReadded, Chain, AddedFold;
      forall l | 0 <= l < NUM_LEVELS
        ensures FreshIn(EverAt(l), e, l) && (descriptor.Some? ==> EverAt(l) == AddedFold(descriptor.value, l))
      {
      }
      forall l | 0 <= l < NUM_LEVELS
        ensures FreshIn(AsSet(current[l]), e, l)
      {
        assert FreshIn(EverAt(l), e, l);
        if descriptor.Some? {
          LastWasAdded(descriptor.value, versions, l);
        }
        FreshInLess(EverAt(l), AsSet(current[l]), e, l);
      }
    }

    method NewFileNumber() returns (number: nat)
      requires Valid()
      modifies `nextFileNumber
      ensures Valid() && number == old(nextFileNumber) && nextFileNumber == number + 1
    {
      number := nextFileNumber;
      nextFileNumber := nextFileNumber + 1;
    }

    method MovePointers(changes: seq<Pointer>)
      requires PointersFit(changes)
      modifies `compactPointers
      ensures compactPointers == SetPointers(old(compactPointers), changes)
    {
      for i := 0 to |changes|
        invariant compactPointers == SetPointers(old(compactPointers), changes[..i])
      {
        assert changes[..i + 1][..i] == changes[..i];
        compactPointers := compactPointers[changes[i].level := Some(changes[i].key)];
      }
      assert changes[..|changes|] == changes;
    }

    /** One record holding the whole current version. */
    method Snapshot() returns (e: Edit)
      ensures e == Edit(Some(comparator), None, None, None, None, e.compactPointers, {}, e.newFiles)
      ensures WellFormed(e) && SetPointers(NO_POINTERS, e.compactPointers) == compactPointers
      ensures forall l :: 0 <= l < NUM_LEVELS ==> AddedAt(e, l) == AsSet(current[l])
    {
      var pointers: seq<Pointer>, files: seq<NewFile> := [], [];
      for l := 0 to NUM_LEVELS
        invariant forall i :: 0 <= i < |pointers| ==> pointers[i].level < l
        invariant forall m :: 0 <= m < NUM_LEVELS ==>
          SetPointers(NO_POINTERS, pointers)[m] == if m < l then compactPointers[m] else None
      {
        if compactPointers[l].Some? {
          pointers := pointers + [Pointer(l, compactPointers[l].value)];
        }
      }
      assert SetPointers(NO_POINTERS, pointers) == compactPointers;
      for l := 0 to NUM_LEVELS
        invariant forall i :: 0 <= i < |files| ==> files[i].level < l
        invariant forall m :: 0 <= m < NUM_LEVELS ==> AddedAmong(files, m) == if m < l then AsSet(current[m]) else {}
      {
        for i := 0 to |current[l]|
          invariant forall i :: 0 <= i < |files| ==> files[i].level <= l
          invariant forall m :: 0 <= m < NUM_LEVELS ==>
            AddedAmong(files, m) == if m < l then AsSet(current[m]) else if m == l then AsSet(current[l][..i]) else {}
        {
          OneMoreNewFile(files, NewFile(l, current[l][i]));
          assert current[l][..i + 1] == current[l][..i] + [current[l][i]];
          files := files + [NewFile(l, current[l][i])];
        }
        assert current[l][..|current[l]|] == current[l];
      }
      e := Edit(Some(comparator), None, None, None, None, pointers, {}, files);
      forall l | 0 <= l < NUM_LEVELS ensures AddedAt(e, l) == AddedAmong(files, l) {
      }
    }

    method ApplyOne(edit: Edit) returns (v: Levels)
      requires AllListed(current) && WellFormed(edit)
      requires forall l :: 0 <= l < NUM_LEVELS ==> FreshIn(AsSet(current[l]), edit, l)
      ensures Applied(current, v, edit) && AllListed(v)
    {
      hide FreshIn, AllListed, Applied, AddedAt, Builder.Holds, AsSet, SortedBySmallest, LevelFolded, Remaining;
      ListingsAreSorted(current);
      NothingAdded();
      var builder := new Builder(current);
      builder.Apply(edit);
      v := builder.SaveTo();
      assert builder.edits == [edit];
      OneEdit(current, v, edit);
      AppliedListings(current, v, edit);
    }

    method StartManifest()
      requires AllListed(current)
      modifies `descriptor, `versions
      ensures descriptor.Some? && Describes(descriptor.value, versions, comparator, current, compactPointers)
      ensures forall l :: 0 <= l < NUM_LEVELS ==> AddedFold(descriptor.value, l) == AsSet(current[l])
    {
      hide AllListed, AddedAt, AddedFold, AsSet, SetPointers, Describes;
      var snapshot := Snapshot();
      DescribesSnapshot(snapshot, comparator, current, compactPointers);
      descriptor, versions := Some([snapshot]), [NO_FILES, current];
    }

    /** Applies an edit to the current version and appends it to the manifest; the first
        time, the manifest is started with a snapshot of the version before the edit. */
    method LogAndApply(change: Edit)
      requires Valid() && WellFormed(change) && ComparatorFits(change, comparator)
      requires change.logNumber.Some? ==> logNumber <= change.logNumber.value < nextFileNumber
      requires forall l :: 0 <= l < NUM_LEVELS ==> FreshIn(EverAt(l), change, l)
      modifies this
      ensures Valid() && descriptor.Some?
      ensures Applied(old(current), current, change)
      ensures compactPointers == SetPointers(old(compactPointers), change.compactPointers)
      ensures nextFileNumber == old(nextFileNumber) && lastSequence == old(lastSequence)
      ensures manifestFileNumber == old(manifestFileNumber)
      ensures Some(logNumber) == Later(Some(old(logNumber)), change.logNumber)
      ensures Some(prevLogNumber) == Later(Some(old(prevLogNumber)), change.prevLogNumber)
      // Together with Valid(), all that Recover needs to go on from exactly here.
      ensures CounterFold(descriptor.value)
           == Counters(Some(logNumber), Some(prevLogNumber), Some(nextFileNumber), Some(lastSequence))
      ensures old(descriptor).Some? ==>
        descriptor.value == old(descriptor).value
                            + [Completed(change, old(logNumber), old(prevLogNumber), old(nextFileNumber),
                                         old(lastSequence))]
      ensures forall l :: 0 <= l < NUM_LEVELS ==> EverAt(l) == old(EverAt(l)) + AddedAt(change, l)
    {
      hide FreshIn, AllListed, ListingOf, Applied, AddedAt, Builder.Holds, AddedFold, DeletedFold, SortedBySmallest,
           Remaining, AsSet, SetPointers, LevelFolded, Describes, CounterFold;
      var edit := change;
      if edit.logNumber.None? {
        edit := edit.(logNumber := Some(logNumber));
      }
      if edit.prevLogNumber.None? {
        edit := edit.(prevLogNumber := Some(prevLogNumber));
      }
      edit := edit.(nextFileNumber := Some(nextFileNumber), lastSequence := Some(lastSequence));
      SameFiles(change, edit);
      FreshToCurrent(edit);

      var v := ApplyOne(edit);
      MovePointers(edit.compactPointers);
      if descriptor.None? {
        StartManifest();
      }
      SetPointersTwice(old(compactPointers), edit.compactPointers);
      var before := if old(descriptor).Some? then old(compactPointers) else compactPointers;
      DescribesMore(descriptor.value, versions, comparator, current, before, edit, v);
      descriptor, versions := Some(descriptor.value + [edit]), versions + [v];
      current, logNumber, prevLogNumber := v, edit.logNumber.value, edit.prevLogNumber.value;
    }

    /** The loop over the records of a manifest. */
    method Replay(manifest: seq<Edit>, ghost history: seq<Levels>, builder: Builder)
      returns (fits: bool, counters: Counters)
      requires AllWellFormed(manifest) && History(manifest, history)
      requires builder.Holds() && builder.edits == [] && builder.base == NO_FILES && compactPointers == NO_POINTERS
      modifies `compactPointers, builder
      ensures fits <==> AllReadable(manifest, comparator)
      ensures fits ==>
        && builder.Holds() && builder.edits == manifest
        && compactPointers == PointerFold(manifest) && counters == CounterFold(manifest)
    {
      hide FreshIn, History, Builder.Holds, AsSet, AddedFold;
      counters := Counters(None, None, None, None);
      for i := 0 to |manifest|
        invariant builder.Holds() && builder.edits == manifest[..i]
        invariant compactPointers == PointerFold(manifest[..i]) && counters == CounterFold(manifest[..i])
        invariant AllReadable(manifest[..i], comparator)
      {
        var edit := manifest[i];
        if edit.comparator.Some? && edit.comparator.value != comparator {
          return false, counters;
        }
        assert manifest[..i + 1][..i] == manifest[..i];
        NextIsFresh(manifest, history, i);
        builder.Apply(edit);
        MovePointers(edit.compactPointers);
        counters := Counters(Later(counters.logNumber, edit.logNumber),
                             Later(counters.prevLogNumber, edit.prevLogNumber),
                             Later(counters.nextFileNumber, edit.nextFileNumber),
                             Later(counters.lastSequence, edit.lastSequence));
      }
      assert manifest[..|manifest|] == manifest;
      fits := true;
    }

    /** Reads a manifest record by record, as when a database is opened. */
    method Recover(manifest: seq<Edit>, ghost history: seq<Levels>, reused: Option<nat>)
      returns (status: Status, saveManifest: bool)
      requires Valid() && descriptor == None && current == NO_FILES && compactPointers == NO_POINTERS
      requires AllWellFormed(manifest) && History(manifest, history)
      modifies this
      ensures Valid()
      ensures status.Ok? <==>
        && AllReadable(manifest, comparator) && CounterFold(manifest).nextFileNumber.Some?
        && CounterFold(manifest).logNumber.Some? && CounterFold(manifest).lastSequence.Some?
      // The version comes back as one that applying the edits one at a time ends in.
      ensures status.Ok? ==>
        && current == history[|manifest|] && compactPointers == PointerFold(manifest)
        && Some(logNumber) == CounterFold(manifest).logNumber
        && Some(prevLogNumber) == Later(Some(0), CounterFold(manifest).prevLogNumber)
        && Some(lastSequence) == CounterFold(manifest).lastSequence
        && Some(nextFileNumber - 1) == CounterFold(manifest).nextFileNumber
        && (if reused.Some? then manifestFileNumber == reused.value && descriptor == Some(manifest) && !saveManifest
            else manifestFileNumber == nextFileNumber - 1 && descriptor == None && saveManifest)
      ensures !status.Ok? ==> current == NO_FILES && descriptor == None && !saveManifest
    {
      hide FreshIn, History, ListingOf, AddedAt, UniqueNumbers, AsSet, AddedFold, LevelFolded, SortedBySmallest,
           Remaining,
           DeletedFold, Builder.Holds, CounterFold, PointerFold, AllReadable;
      var builder := new Builder(current);
      var fits, counters := Replay(manifest, history, builder);
      if !fits {
        return InvalidArgument, false;
      }
      if counters.nextFileNumber.None? || counters.logNumber.None? || counters.lastSequence.None? {
        return Corruption, false;
      }
      ListingsAreSorted(current);
      var v := builder.SaveTo();
      ReplayedVersion(history, manifest, v);
      HistoryListings(history, manifest);
      current := v;
      manifestFileNumber, nextFileNumber := counters.nextFileNumber.value, counters.nextFileNumber.value + 1;
      lastSequence, logNumber := counters.lastSequence.value, counters.logNumber.value;
      prevLogNumber := if counters.prevLogNumber.Some? then counters.prevLogNumber.value else 0;
      status, saveManifest := Ok, false;
      if reused.Some? {
        descriptor, versions, manifestFileNumber := Some(manifest), history, reused.value;
      } else {
        saveManifest := true;
      }
    }
  }

  lemma OneMoreNewFile(files: seq<NewFile>, n: NewFile)
    ensures forall m: nat :: AddedAmong(files + [n], m) == AddedAmong(files, m) + if n.level == m then {n.file} else {}
  {
  }

  /** Only the counters of an edit are filled in when it is logged. */
  lemma SameFiles(change: Edit, edit: Edit)
    requires edit.newFiles == change.newFiles && edit.deletedFiles == change.deletedFiles
    ensures forall l: nat :: AddedAt(edit, l) == AddedAt(change, l) && RemovedAt(edit, l) == RemovedAt(change, l)
    ensures forall l: nat, known: set<File> :: FreshIn(known, edit, l) <==> FreshIn(known, change, l)
    ensures forall before, after :: Applied(before, after, edit) <==> Applied(before, after, change)
  {
  }

  lemma NothingAdded()
    ensures forall l: nat, files: set<File> :: files + AddedFold([], l) == files
  {
  }

  lemma FreshInLess(known: set<File>, less: set<File>, e: Edit, l: nat)
    requires FreshIn(known, e, l) && less <= known
    ensures FreshIn(less, e, l)
  {
  }

  /** What applying one edit through a builder gives. */
  lemma OneEdit(before: Levels, after: Levels, e: Edit)
    requires forall l :: 0 <= l < NUM_LEVELS ==>
      ListingOf(after[l], Remaining(AsSet(before[l]) + AddedFold([e], l), DeletedFold([e], l)))
    ensures Applied(before, after, e)
  {
    hide ListingOf;
    forall l | 0 <= l < NUM_LEVELS
      ensures ListingOf(after[l], Remaining(AsSet(before[l]) + AddedAt(e, l), RemovedAt(e, l)))
    {
      assert [e][..0] == [];
      assert AddedFold([e], l) == AddedAt(e, l);
      assert DeletedFold([e], l) == RemovedAt(e, l);
    }
  }

  /** A file of the last version was added by some edit. */
  lemma LastWasAdded(manifest: seq<Edit>, versions: seq<Levels>, l: nat)
    requires History(manifest, versions) && l < NUM_LEVELS
    ensures AsSet(versions[|manifest|][l]) <= AddedFold(manifest, l)
  {
    FoldFollowsChain(versions, manifest, |manifest|, l);
    assert manifest[..|manifest|] == manifest;
  }

  lemma SnapshotHistory(snapshot: Edit, current: Levels)
    requires snapshot.deletedFiles == {}
    requires AllListed(current) && forall l :: 0 <= l < NUM_LEVELS ==> AddedAt(snapshot, l) == AsSet(current[l])
    ensures History([snapshot], [NO_FILES, current])
    ensures forall l :: 0 <= l < NUM_LEVELS ==> AddedFold([snapshot], l) == AsSet(current[l])
  {
    hide ListingOf, AddedAt;
    assert [snapshot][..0] == [];
    forall l | 0 <= l < NUM_LEVELS
      ensures ListingOf(current[l], Remaining(AsSet(NO_FILES[l]) + AddedAt(snapshot, l), RemovedAt(snapshot, l)))
    {
      assert Remaining(AsSet(NO_FILES[l]) + AddedAt(snapshot, l), RemovedAt(snapshot, l)) == AsSet(current[l]);
    }
    assert Applied(NO_FILES, current, snapshot);
    forall l | 0 <= l < NUM_LEVELS ensures FreshIn(AsSet(NO_FILES[l]) + AddedFold([], l), snapshot, l) {
      assert Numbers(AsSet(NO_FILES[l]) + AddedFold([], l)) == {};
      assert forall f :: f in AsSet(current[l]) ==> f in current[l];
    }
  }

  lemma ListingsAreSorted(levels: Levels)
    requires AllListed(levels)
    ensures forall l :: 0 <= l < NUM_LEVELS ==> SortedBySmallest(levels[l])
  {
    hide BySmallestKey;
  }

  lemma NextIsFresh(manifest: seq<Edit>, versions: seq<Levels>, i: nat)
    requires History(manifest, versions) && i < |manifest|
    ensures forall l :: 0 <= l < NUM_LEVELS ==>
      FreshIn(AsSet(NO_FILES[l]) + AddedFold(manifest[..i], l), manifest[i], l)
  {
    hide FreshIn;
  }

  lemma AppliedListings(before: Levels, after: Levels, e: Edit)
    requires Applied(before, after, e)
    requires AllListed(before) && forall l :: 0 <= l < NUM_LEVELS ==> FreshIn(AsSet(before[l]), e, l)
    ensures AllListed(after)
  {
    hide ListingOf, UniqueNumbers, FreshIn, Applied;
    forall l | 0 <= l < NUM_LEVELS ensures ListingOf(after[l], AsSet(after[l])) && UniqueNumbers(after[l]) {
      AppliedKeepsUnique(before, after, e, l);
    }
  }

  lemma {:induction false} HistoryListings(versions: seq<Levels>, edits: seq<Edit>)
    requires History(edits, versions)
    ensures AllListed(versions[|edits|])
  {
    hide FreshIn, Applied;
    if edits == [] {
      assert forall l :: 0 <= l < NUM_LEVELS ==> NO_FILES[l] == [];
    } else {
      hide ListingOf, UniqueNumbers;
      var n := |edits| - 1;
      FrontNeverReadded(NO_FILES, edits);
      assert Chain(versions[..n + 1], edits[..n]);
      HistoryListings(versions[..n + 1], edits[..n]);
      forall l | 0 <= l < NUM_LEVELS ensures FreshIn(AsSet(versions[n][l]), edits[n], l) {
        LastWasAdded(edits[..n], versions[..n + 1], l);
        NextIsFresh(edits, versions, n);
        FreshInLess(AsSet(NO_FILES[l]) + AddedFold(edits[..n], l), AsSet(versions[n][l]), edits[n], l);
      }
      AppliedListings(versions[n], versions[n + 1], edits[n]);
    }
  }

  lemma ExtendHistory(manifest: seq<Edit>, versions: seq<Levels>, e: Edit, v: Levels)
    requires History(manifest, versions) && Applied(versions[|manifest|], v, e)
    requires forall l :: 0 <= l < NUM_LEVELS ==> FreshIn(AddedFold(manifest, l), e, l)
    ensures History(manifest + [e], versions + [v])
    ensures forall l :: 0 <= l < NUM_LEVELS ==> AddedFold(manifest + [e], l) == AddedFold(manifest, l) + AddedAt(e, l)
  {
    hide FreshIn, Applied, AddedAt, NeverReadded;
    forall l | 0 <= l < NUM_LEVELS ensures FreshIn(AsSet(NO_FILES[l]) + AddedFold(manifest, l), e, l) {
      assert AsSet(NO_FILES[l]) + AddedFold(manifest, l) == AddedFold(manifest, l);
    }
    OneMoreEdit(NO_FILES, manifest, e);
    LongerChain(versions, manifest, e, v);
    assert (manifest + [e])[..|manifest|] == manifest;
  }

  lemma DescribesSnapshot(snapshot: Edit, comparator: string, current: Levels, pointers: Pointers)
    requires snapshot == Edit(Some(comparator), None, None, None, None, snapshot.compactPointers, {}, snapshot.newFiles)
    requires WellFormed(snapshot) && SetPointers(NO_POINTERS, snapshot.compactPointers) == pointers
    requires AllListed(current) && forall l :: 0 <= l < NUM_LEVELS ==> AddedAt(snapshot, l) == AsSet(current[l])
    ensures Describes([snapshot], [NO_FILES, current], comparator, current, pointers)
    ensures forall l :: 0 <= l < NUM_LEVELS ==> AddedFold([snapshot], l) == AsSet(current[l])
  {
    hide ListingOf, History, AddedAt, AddedFold, UniqueNumbers, AsSet;
    SnapshotHistory(snapshot, current);
    assert PointerFold([snapshot][..0]) == NO_POINTERS;
  }

  lemma DescribesMore(manifest: seq<Edit>, versions: seq<Levels>, comparator: string, current: Levels,
                      pointers: Pointers,
                      e: Edit, v: Levels)
    requires Describes(manifest, versions, comparator, current, pointers)
    requires WellFormed(e) && ComparatorFits(e, comparator) && Applied(current, v, e)
    requires e.logNumber.Some? && e.prevLogNumber.Some? && e.nextFileNumber.Some? && e.lastSequence.Some?
    requires forall l :: 0 <= l < NUM_LEVELS ==> FreshIn(AddedFold(manifest, l), e, l)
    ensures Describes(manifest + [e], versions + [v], comparator, v, SetPointers(pointers, e.compactPointers))
    ensures CounterFold(manifest + [e]) == Counters(e.logNumber, e.prevLogNumber, e.nextFileNumber, e.lastSequence)
    ensures forall l :: 0 <= l < NUM_LEVELS ==> AddedFold(manifest + [e], l) == AddedFold(manifest, l) + AddedAt(e, l)
  {
    hide FreshIn, Applied, AddedAt, AddedFold, NeverReadded, SetPointers;
    ExtendHistory(manifest, versions, e, v);
    var more := manifest + [e];
    assert more[..|manifest|] == manifest && more[|manifest|] == e;
    assert AllReadable(more, comparator);
    assert PointerFold(more) == SetPointers(PointerFold(manifest), e.compactPointers);
  }

  lemma LongerChain(versions: seq<Levels>, edits: seq<Edit>, e: Edit, v: Levels)
    requires Chain(versions, edits) && Applied(versions[|edits|], v, e)
    ensures Chain(versions + [v], edits + [e])
  {
    hide Applied;
    var vs, es := versions + [v], edits + [e];
    forall k | 0 <= k < |es| ensures Applied(vs[k], vs[k + 1], es[k]) {
      if k < |edits| {
        assert Applied(versions[k], versions[k + 1], edits[k]);
      }
    }
  }

  /** Repeating the changes of an edit changes nothing more. */
  lemma {:induction false} SetPointersTwice(pointers: Pointers, changes: seq<Pointer>)
    requires PointersFit(changes)
    ensures SetPointers(SetPointers(pointers, changes), changes) == SetPointers(pointers, changes)
  {
    forall l | 0 <= l < NUM_LEVELS
      ensures SetPointers(SetPointers(pointers, changes), changes)[l] == SetPointers(pointers, changes)[l]
    {
      PointerAt(pointers, changes, l);
      PointerAt(SetPointers(pointers, changes), changes, l);
    }
  }

  function LastKey(changes: seq<Pointer>, l: nat): Option<InternalKey> {
    if changes == [] then None
    else if changes[|changes| - 1].level == l then Some(changes[|changes| - 1].key)
    else LastKey(changes[..|changes| - 1], l)
  }

  lemma {:induction false} PointerAt(pointers: Pointers, changes: seq<Pointer>, l: nat)
    requires l < NUM_LEVELS && PointersFit(changes)
    ensures SetPointers(pointers, changes)[l] == if LastKey(changes, l).Some? then LastKey(changes, l) else pointers[l]
  {
    if changes != [] {
      PointerAt(pointers, changes[..|changes| - 1], l);
    }
  }

  lemma AppliedKeepsUnique(before: Levels, after: Levels, e: Edit, l: nat)
    requires l < NUM_LEVELS && UniqueNumbers(before[l]) && FreshIn(AsSet(before[l]), e, l) && Applied(before, after, e)
    ensures UniqueNumbers(after[l]) && ListingOf(after[l], AsSet(after[l]))
  {
    hide BySmallestKey;
    var members := Remaining(AsSet(before[l]) + AddedAt(e, l), RemovedAt(e, l));
    assert ListingOf(after[l], members);
    ListedSet(after[l], members);
    forall f, g | f in after[l] && g in after[l] && f.number == g.number ensures f == g {
      assert f in members && g in members;
      assert f in before[l] ==> f.number in Numbers(AsSet(before[l]));
      assert g in before[l] ==> g.number in Numbers(AsSet(before[l]));
      assert f in AddedAt(e, l) ==> f.number in Numbers(AddedAt(e, l));
      assert g in AddedAt(e, l) ==> g.number in Numbers(AddedAt(e, l));
    }
  }

  lemma ListsNothing(files: seq<File>, members: set<File>)
    requires ListingOf(files, members) && members == {}
    ensures files == []
  {
    if files != [] {
      HasMember(files);
    }
  }

  lemma HasMember(files: seq<File>)
    requires files != []
    ensures exists f :: f in files
  {
    assert files[0] in files;
  }

  lemma ReplayedNothing(v: Levels)
    requires forall l :: 0 <= l < NUM_LEVELS ==>
      ListingOf(v[l], Remaining(AsSet(NO_FILES[l]) + AddedFold([], l), DeletedFold([], l)))
    ensures v == NO_FILES
  {
    forall l | 0 <= l < NUM_LEVELS ensures v[l] == NO_FILES[l] {
      ListsNothing(v[l], Remaining(AsSet(NO_FILES[l]) + AddedFold([], l), DeletedFold([], l)));
    }
  }

  /** The builder's version is the last one of the chain. */
  lemma ReplayedVersion(versions: seq<Levels>, edits: seq<Edit>, v: Levels)
    requires History(edits, versions)
    requires forall l :: 0 <= l < NUM_LEVELS ==>
      ListingOf(v[l], Remaining(AsSet(NO_FILES[l]) + AddedFold(edits, l), DeletedFold(edits, l)))
    ensures v == versions[|edits|]
  {
    hide ListingOf, Remaining, FreshIn, AddedFold, DeletedFold, AddedAt, RemovedAt, AsSet;
    if edits == [] {
      ReplayedNothing(v);
    } else {
      var n := |edits|;
      assert edits[..n] == edits;
      assert Applied(versions[n - 1], versions[n], edits[n - 1]);
      forall l | 0 <= l < NUM_LEVELS ensures v[l] == versions[n][l] {
        FoldFollowsChain(versions, edits, n, l);
        var members := Remaining(AsSet(versions[n - 1][l]) + AddedAt(edits[n - 1], l), RemovedAt(edits[n - 1], l));
        ListedSet(versions[n][l], members);
        ListingIsUnique(v[l], versions[n][l], members);
      }
      assert v == versions[n];
    }
  }
}
