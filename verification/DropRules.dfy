/** What the drop rules of a compaction do to reads: exactly when they are harmless. */
module DropRules {
  import opened Keys
  import opened Files
  import opened Compactions

  ghost function Survivors(stream: seq<Entry>, snapshot: nat, deep: seq<seq<File>>): set<Entry> {
    SetOf(Kept(stream, snapshot, deep, |stream|))
  }

  /** The i-th entry is a tombstone that the tombstone rule alone removes. */
  ghost predicate RemovedTombstone(stream: seq<Entry>, snapshot: nat, deep: seq<seq<File>>, i: nat)
    requires i < |stream|
  {
    Obsolete(stream, snapshot, deep, i) && !Hidden(stream, snapshot, i)
  }

  /** `e` hides every entry of `rest` that the snapshot can see. */
  ghost predicate Tops(rest: set<Entry>, e: Entry, snapshot: nat) {
    forall x :: x in rest && x.key.user == e.key.user && x.key.sequence <= snapshot ==> x.key.sequence < e.key.sequence
  }

  /** Below every tombstone removed from the top, what stays behind reads as absent. */
  ghost predicate HarmlessDrops(rest: set<Entry>, stream: seq<Entry>, snapshot: nat, deep: seq<seq<File>>) {
    forall i :: 0 <= i < |stream| && RemovedTombstone(stream, snapshot, deep, i) && Tops(rest, stream[i], snapshot)
      ==> Read(rest, stream[i].key.user, stream[i].key.sequence) == None
  }

  /** The compaction of `stream` beside the entries `rest` changes no read that a live
      snapshot, or a later one, can make. */
  ghost predicate ReadsKept(rest: set<Entry>, stream: seq<Entry>, snapshot: nat, deep: seq<seq<File>>) {
    forall user, s: nat :: s >= snapshot
      ==> Read(rest + Survivors(stream, snapshot, deep), user, s) == Read(rest + SetOf(stream), user, s)
  }

  lemma SameUserBetween(stream: seq<Entry>, i: nat, j: nat)
    requires Sorted(stream) && i < j < |stream| && stream[i].key.user == stream[j].key.user
    ensures stream[j - 1].key.user == stream[j].key.user
    ensures stream[j - 1].key.sequence <= stream[i].key.sequence && stream[j].key.sequence < stream[i].key.sequence
  {
    assert Precedes(stream[i].key, stream[j].key);
    if i < j - 1 {
      assert Precedes(stream[i].key, stream[j - 1].key) && Precedes(stream[j - 1].key, stream[j].key);
    }
  }

  /** Behind an entry the snapshot sees, every older one of its user key is dropped. */
  lemma OlderAreDropped(stream: seq<Entry>, snapshot: nat, deep: seq<seq<File>>, i: nat, e: Entry)
    requires Sorted(stream) && i < |stream| && stream[i].key.sequence <= snapshot
    requires e in Survivors(stream, snapshot, deep) && e.key.user == stream[i].key.user
    ensures e.key.sequence >= stream[i].key.sequence
    ensures e.key.sequence == stream[i].key.sequence ==> !Dropped(stream, snapshot, deep, i)
  {
    KeptMembers(stream, snapshot, deep, |stream|);
    var j :| 0 <= j < |stream| && stream[j] == e && !Dropped(stream, snapshot, deep, j);
    if i < j {
      SameUserBetween(stream, i, j);
    } else if j < i {
      SameUserBetween(stream, j, i);
    }
  }

  /** A newer entry of the same user key, which every live snapshot sees. */
  ghost predicate Outdated(es: set<Entry>, e: Entry, snapshot: nat) {
    exists x :: x in es && x.key.user == e.key.user && e.key.sequence < x.key.sequence <= snapshot
  }

  lemma HiddenIsOutdated(stream: seq<Entry>, snapshot: nat, i: nat)
    requires Sorted(stream) && i < |stream|
    ensures Hidden(stream, snapshot, i) <==> Outdated(SetOf(stream), stream[i], snapshot)
  {
    if Hidden(stream, snapshot, i) {
      SameUserBetween(stream, i - 1, i);
      assert stream[i - 1] in SetOf(stream);
    }
    if Outdated(SetOf(stream), stream[i], snapshot) {
      var x :| x in SetOf(stream) && x.key.user == stream[i].key.user
               && stream[i].key.sequence < x.key.sequence <= snapshot;
      var j :| 0 <= j < |stream| && stream[j] == x;
      if j < i {
        SameUserBetween(stream, j, i);
      } else if i < j {
        SameUserBetween(stream, i, j);
      }
    }
  }

  /** Which entries survive, whatever stands next to them: all but those outdated and the
      tombstones that every snapshot sees where no deeper file covers the user key. */
  lemma SurvivesExactly(stream: seq<Entry>, snapshot: nat, deep: seq<seq<File>>, e: Entry)
    requires Sorted(stream)
    ensures e in Survivors(stream, snapshot, deep) <==>
      && e in stream && !Outdated(SetOf(stream), e, snapshot)
      && (e.key.kind.Deletion? && e.key.sequence <= snapshot ==>
            exists l, f :: 0 <= l < |deep| && f in deep[l] && f.smallest.user <= e.key.user <= f.largest.user)
  {
    KeptMembers(stream, snapshot, deep, |stream|);
    forall i | 0 <= i < |stream| && stream[i] == e
      ensures Hidden(stream, snapshot, i) <==> Outdated(SetOf(stream), e, snapshot)
    {
      HiddenIsOutdated(stream, snapshot, i);
    }
    hide Hidden, Outdated;
  }

  lemma SurvivorsAreInputs(stream: seq<Entry>, snapshot: nat, deep: seq<seq<File>>)
    ensures Survivors(stream, snapshot, deep) <= SetOf(stream)
  {
    KeptMembers(stream, snapshot, deep, |stream|);
  }

  /** Once a topmost visible tombstone is removed, a read falls through to what stays behind. */
  lemma ReadFallsThrough(rest: set<Entry>, stream: seq<Entry>, snapshot: nat, deep: seq<seq<File>>, i: nat, s: nat)
    requires Sorted(stream) && DistinctSequences(rest + SetOf(stream)) && rest !! SetOf(stream)
    requires i < |stream| && RemovedTombstone(stream, snapshot, deep, i) && s >= snapshot
    requires Newest(rest + SetOf(stream), stream[i].key.user, s, stream[i])
    ensures Read(rest + Survivors(stream, snapshot, deep), stream[i].key.user, s)
         == Read(rest, stream[i].key.user, stream[i].key.sequence)
  {
    hide Obsolete, Hidden;
    var user, top := stream[i].key.user, stream[i].key.sequence;
    var after := rest + Survivors(stream, snapshot, deep);
    SurvivorsAreInputs(stream, snapshot, deep);
    assert Obsolete(stream, snapshot, deep, i) && top <= snapshot by { RemovedIsSeen(stream, snapshot, deep, i); }
    forall x | x in after && x.key.user == user && x.key.sequence <= s ensures x in rest && x.key.sequence <= top {
      assert x in rest + SetOf(stream);
      if x !in rest {
        OlderAreDropped(stream, snapshot, deep, i, x);
      }
    }
    if HasVisible(rest, user, top) {
      var e := NewestExists(rest, user, top);
      assert Newest(after, user, s, e);
      assert DistinctSequences(rest) && DistinctSequences(after);
      ReadIs(rest, user, top, e);
      ReadIs(after, user, s, e);
    } else {
      assert !HasVisible(after, user, s);
    }
  }

  lemma RemovedIsSeen(stream: seq<Entry>, snapshot: nat, deep: seq<seq<File>>, i: nat)
    requires i < |stream| && RemovedTombstone(stream, snapshot, deep, i)
    ensures stream[i].key.kind.Deletion? && stream[i].key.sequence <= snapshot && Dropped(stream, snapshot, deep, i)
    ensures Obsolete(stream, snapshot, deep, i) && !Hidden(stream, snapshot, i)
  {
  }

  lemma NewestIsNotHidden(rest: set<Entry>, stream: seq<Entry>, snapshot: nat, i: nat, s: nat)
    requires Sorted(stream) && i < |stream| && s >= snapshot
    requires Newest(rest + SetOf(stream), stream[i].key.user, s, stream[i])
    ensures !Hidden(stream, snapshot, i)
  {
    if i > 0 {
      assert stream[i - 1] in rest + SetOf(stream);
      assert Precedes(stream[i - 1].key, stream[i].key);
    }
  }

  lemma ReadKept(rest: set<Entry>, stream: seq<Entry>, snapshot: nat, deep: seq<seq<File>>, user: UserKey, s: nat)
    requires Sorted(stream) && DistinctSequences(rest + SetOf(stream)) && rest !! SetOf(stream)
    requires HarmlessDrops(rest, stream, snapshot, deep) && s >= snapshot
    ensures Read(rest + Survivors(stream, snapshot, deep), user, s) == Read(rest + SetOf(stream), user, s)
  {
    var before, after := rest + SetOf(stream), rest + Survivors(stream, snapshot, deep);
    SurvivorsAreInputs(stream, snapshot, deep);
    if !HasVisible(before, user, s) {
      assert !HasVisible(after, user, s);
      return;
    }
    var e := NewestExists(before, user, s);
    ReadIs(before, user, s, e);
    if e in after {
      assert DistinctSequences(after) && Newest(after, user, s, e);
      ReadIs(after, user, s, e);
    } else {
      var i :| 0 <= i < |stream| && stream[i] == e;
      KeptMembers(stream, snapshot, deep, |stream|);
      assert Dropped(stream, snapshot, deep, i);
      NewestIsNotHidden(rest, stream, snapshot, i, s);
      TopOfRest(rest, stream, snapshot, deep, i, s);
      ReadFallsThrough(rest, stream, snapshot, deep, i, s);
    }
  }

  lemma TopOfRest(rest: set<Entry>, stream: seq<Entry>, snapshot: nat, deep: seq<seq<File>>, i: nat, s: nat)
    requires DistinctSequences(rest + SetOf(stream)) && rest !! SetOf(stream)
    requires i < |stream| && s >= snapshot && Newest(rest + SetOf(stream), stream[i].key.user, s, stream[i])
    ensures Tops(rest, stream[i], snapshot)
  {
    forall x | x in rest && x.key.user == stream[i].key.user && x.key.sequence <= snapshot
      ensures x.key.sequence < stream[i].key.sequence
    {
      assert x in rest + SetOf(stream) && stream[i] in SetOf(stream);
    }
  }

  lemma RemovedTombstoneIsNewest(rest: set<Entry>, stream: seq<Entry>, snapshot: nat, deep: seq<seq<File>>, i: nat)
    requires Sorted(stream) && i < |stream|
    requires RemovedTombstone(stream, snapshot, deep, i) && Tops(rest, stream[i], snapshot)
    ensures Newest(rest + SetOf(stream), stream[i].key.user, snapshot, stream[i])
  {
    forall x | x in rest + SetOf(stream) && x.key.user == stream[i].key.user && x.key.sequence <= snapshot
      ensures x.key.sequence <= stream[i].key.sequence
    {
      if x !in rest {
        var j :| 0 <= j < |stream| && stream[j] == x;
        if j < i {
          SameUserBetween(stream, j, i);
        } else if i < j {
          SameUserBetween(stream, i, j);
        }
      }
    }
  }

  /** The drop rules keep every read exactly when no tombstone they remove from the top
      uncovers a value that stays behind. */
  lemma DropsKeepReadsExactlyWhenHarmless(rest: set<Entry>, stream: seq<Entry>, snapshot: nat, deep: seq<seq<File>>)
    requires Sorted(stream) && DistinctSequences(rest + SetOf(stream)) && rest !! SetOf(stream)
    ensures ReadsKept(rest, stream, snapshot, deep) <==> HarmlessDrops(rest, stream, snapshot, deep)
  {
    hide Sorted, DistinctSequences, RemovedTombstone, Newest, SetOf, Survivors;
    if HarmlessDrops(rest, stream, snapshot, deep) {
      forall user, s: nat | s >= snapshot
        ensures Read(rest + Survivors(stream, snapshot, deep), user, s) == Read(rest + SetOf(stream), user, s)
      {
        ReadKept(rest, stream, snapshot, deep, user, s);
      }
    }
    if ReadsKept(rest, stream, snapshot, deep) {
      forall i | 0 <= i < |stream| && RemovedTombstone(stream, snapshot, deep, i) && Tops(rest, stream[i], snapshot)
        ensures Read(rest, stream[i].key.user, stream[i].key.sequence) == None
      {
        RemovedTombstoneIsNewest(rest, stream, snapshot, deep, i);
        ReadFallsThrough(rest, stream, snapshot, deep, i, snapshot);
        ReadIs(rest + SetOf(stream), stream[i].key.user, snapshot, stream[i]);
        RemovedIsSeen(stream, snapshot, deep, i);
      }
    }
  }
}
