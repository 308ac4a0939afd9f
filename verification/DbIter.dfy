/** The database iterator: the visible map at one sequence number, read through the merged
    internal entries in both directions. */
module DbIter {
  import opened Keys
  import opened Merger

  // ------------------------------------------------------------------- the visible map

  predicate Visible(entries: seq<Entry>, sequence: nat, i: nat)
    requires i < |entries|
  {
    entries[i].key.sequence <= sequence
  }

  /** Entry i is the newest visible one of its user key, and not a deletion. */
  ghost predicate Shown(entries: seq<Entry>, sequence: nat, i: nat)
    requires i < |entries|
  {
    && Visible(entries, sequence, i) && entries[i].key.kind.Value?
    && forall j :: 0 <= j < i && Visible(entries, sequence, j) ==> entries[j].key.user != entries[i].key.user
  }

  /** The places of the shown entries among the first n, in order. */
  ghost function Places(entries: seq<Entry>, sequence: nat, n: nat): seq<nat>
    requires n <= |entries|
  {
    if n == 0 then []
    else if Shown(entries, sequence, n - 1) then Places(entries, sequence, n - 1) + [n - 1]
    else Places(entries, sequence, n - 1)
  }

  ghost predicate Increasing(places: seq<nat>) {
    forall i, j :: 0 <= i < j < |places| ==> places[i] < places[j]
  }

  lemma {:induction false} PlacesAreShown(entries: seq<Entry>, sequence: nat, n: nat)
    requires n <= |entries|
    ensures Increasing(Places(entries, sequence, n))
    ensures forall i: nat :: i in Places(entries, sequence, n) <==> i < n && Shown(entries, sequence, i)
  {
    if n > 0 {
      PlacesAreShown(entries, sequence, n - 1);
      var front := Places(entries, sequence, n - 1);
      assert forall k :: 0 <= k < |front| ==> front[k] in front;
    }
  }

  datatype Pair = Pair(user: UserKey, value: string)

  /** What the iterator goes through: the visible map in key order. */
  ghost function View(entries: seq<Entry>, sequence: nat): (v: seq<Pair>)
    ensures |v| == |Places(entries, sequence, |entries|)|
  {
    var places := Places(entries, sequence, |entries|);
    PlacesAreShown(entries, sequence, |entries|);
    seq(|places|, k requires 0 <= k < |places| =>
      assert places[k] in places; Pair(entries[places[k]].key.user, entries[places[k]].value))
  }

  /** The view is a sorted map, and it agrees with point reads. */
  lemma ViewIsTheVisibleMap(entries: seq<Entry>, sequence: nat)
    requires Sorted(entries)
    ensures forall i, j :: 0 <= i < j < |View(entries, sequence)| ==>
      View(entries, sequence)[i].user < View(entries, sequence)[j].user
    ensures forall user, value :: Pair(user, value) in View(entries, sequence) <==>
      Read(SetOf(entries), user, sequence) == Some(value)
  {
    var places, view := Places(entries, sequence, |entries|), View(entries, sequence);
    PlacesAreShown(entries, sequence, |entries|);
    forall i, j | 0 <= i < j < |view| ensures view[i].user < view[j].user {
      assert places[i] in places && places[j] in places;
      assert Precedes(entries[places[i]].key, entries[places[j]].key);
    }
    forall user, value ensures Pair(user, value) in view <==> Read(SetOf(entries), user, sequence) == Some(value) {
      if Pair(user, value) in view {
        var k :| 0 <= k < |view| && view[k] == Pair(user, value);
        assert places[k] in places;
        ShownIsRead(entries, sequence, places[k]);
      }
      if Read(SetOf(entries), user, sequence) == Some(value) {
        var i := ReadIsShown(entries, user, sequence);
        assert i in places;
        var k :| 0 <= k < |places| && places[k] == i;
        assert view[k] == Pair(user, value);
      }
    }
  }

  lemma EarlierDiffers(entries: seq<Entry>, i: nat, j: nat)
    requires Sorted(entries) && i < j < |entries|
    ensures entries[i].key.user != entries[j].key.user || entries[i].key.sequence != entries[j].key.sequence
  {
  }

  lemma SortedIsDistinct(entries: seq<Entry>)
    requires Sorted(entries)
    ensures DistinctSequences(SetOf(entries))
  {
    hide Sorted;
    forall a, b | a in entries && b in entries && a.key.user == b.key.user && a.key.sequence == b.key.sequence
      ensures a == b
    {
      var i :| 0 <= i < |entries| && entries[i] == a;
      var j :| 0 <= j < |entries| && entries[j] == b;
      if i < j {
        EarlierDiffers(entries, i, j);
      } else if j < i {
        EarlierDiffers(entries, j, i);
      }
    }
  }

  lemma FirstVisibleIsNewest(entries: seq<Entry>, sequence: nat, i: nat)
    requires Sorted(entries) && i < |entries| && Visible(entries, sequence, i)
    requires forall j :: 0 <= j < i && Visible(entries, sequence, j) ==> entries[j].key.user != entries[i].key.user
    ensures Newest(SetOf(entries), entries[i].key.user, sequence, entries[i])
  {
    forall x | x in entries && x.key.user == entries[i].key.user && x.key.sequence <= sequence
      ensures x.key.sequence <= entries[i].key.sequence
    {
      var j :| 0 <= j < |entries| && entries[j] == x;
      assert Visible(entries, sequence, j);
      assert i < j ==> Precedes(entries[i].key, entries[j].key);
    }
  }

  lemma ShownIsRead(entries: seq<Entry>, sequence: nat, i: nat)
    requires Sorted(entries) && i < |entries| && Shown(entries, sequence, i)
    ensures Read(SetOf(entries), entries[i].key.user, sequence) == Some(entries[i].value)
  {
    FirstVisibleIsNewest(entries, sequence, i);
    SortedIsDistinct(entries);
    ReadIs(SetOf(entries), entries[i].key.user, sequence, entries[i]);
  }

  lemma ReadIsShown(entries: seq<Entry>, user: UserKey, sequence: nat) returns (i: nat)
    requires Sorted(entries) && Read(SetOf(entries), user, sequence).Some?
    ensures i < |entries| && Shown(entries, sequence, i) && entries[i].key.user == user
    ensures Read(SetOf(entries), user, sequence) == Some(entries[i].value)
  {
    assert HasVisible(SetOf(entries), user, sequence) by {
      if !HasVisible(SetOf(entries), user, sequence) {
        ReadNothing(SetOf(entries), user, sequence);
      }
    }
    var e := NewestExists(SetOf(entries), user, sequence);
    SortedIsDistinct(entries);
    ReadIs(SetOf(entries), user, sequence, e);
    i :| 0 <= i < |entries| && entries[i] == e;
    forall j | 0 <= j < i && Visible(entries, sequence, j) ensures entries[j].key.user != user {
      assert Precedes(entries[j].key, entries[i].key);
      assert entries[j] in SetOf(entries);
    }
  }

  // ------------------------------------------------------------ places and their neighbours

  ghost function AllPlaces(entries: seq<Entry>, sequence: nat): seq<nat> {
    Places(entries, sequence, |entries|)
  }

  ghost predicate NoneShown(entries: seq<Entry>, sequence: nat, lo: int, hi: int) {
    forall i :: 0 <= i < |entries| && lo <= i < hi ==> !Shown(entries, sequence, i)
  }

  lemma PlaceAt(entries: seq<Entry>, sequence: nat, k: nat)
    requires k < |AllPlaces(entries, sequence)|
    ensures AllPlaces(entries, sequence)[k] < |entries| && Shown(entries, sequence, AllPlaces(entries, sequence)[k])
    ensures View(entries, sequence)[k]
         == Pair(entries[AllPlaces(entries, sequence)[k]].key.user, entries[AllPlaces(entries, sequence)[k]].value)
  {
    PlacesAreShown(entries, sequence, |entries|);
    assert AllPlaces(entries, sequence)[k] in AllPlaces(entries, sequence);
  }

  /** Place number of a shown entry. */
  lemma PlaceNumber(entries: seq<Entry>, sequence: nat, i: nat) returns (k: nat)
    requires i < |entries| && Shown(entries, sequence, i)
    ensures k < |AllPlaces(entries, sequence)| && AllPlaces(entries, sequence)[k] == i
    ensures forall j :: 0 <= j < k ==> AllPlaces(entries, sequence)[j] < i
    ensures forall j :: k < j < |AllPlaces(entries, sequence)| ==> AllPlaces(entries, sequence)[j] > i
  {
    var places := AllPlaces(entries, sequence);
    PlacesAreShown(entries, sequence, |entries|);
    assert i in places;
    k :| 0 <= k < |places| && places[k] == i;
  }

  /** The shown entry found after a place, with none in between, is the next one. */
  lemma NextPlace(entries: seq<Entry>, sequence: nat, at: int, from: int, found: int)
    requires -1 <= at < |AllPlaces(entries, sequence)|
    requires from == if at == -1 then 0 else AllPlaces(entries, sequence)[at] + 1
    requires from <= found <= |entries| && NoneShown(entries, sequence, from, found)
    requires found < |entries| ==> Shown(entries, sequence, found)
    ensures found < |entries| ==>
      at + 1 < |AllPlaces(entries, sequence)| && AllPlaces(entries, sequence)[at + 1] == found
    ensures found == |entries| ==> at + 1 == |AllPlaces(entries, sequence)|
  {
    hide Shown, Places;
    var places := AllPlaces(entries, sequence);
    PlacesAreShown(entries, sequence, |entries|);
    if at + 1 < |places| {
      PlaceAt(entries, sequence, at + 1);
      assert found <= places[at + 1];
    }
    if found < |entries| {
      var k := PlaceNumber(entries, sequence, found);
      assert at < k;
    }
  }

  lemma PrevPlace(entries: seq<Entry>, sequence: nat, at: nat, found: int)
    requires at <= |AllPlaces(entries, sequence)|
    requires var upper := if at == |AllPlaces(entries, sequence)| then |entries| else AllPlaces(entries, sequence)[at];
      -1 <= found < upper <= |entries| && NoneShown(entries, sequence, found + 1, upper)
    requires found >= 0 ==> Shown(entries, sequence, found)
    ensures found >= 0 ==> at > 0 && AllPlaces(entries, sequence)[at - 1] == found
    ensures found == -1 ==> at == 0
  {
    hide Shown, Places;
    var places := AllPlaces(entries, sequence);
    PlacesAreShown(entries, sequence, |entries|);
    if at > 0 {
      PlaceAt(entries, sequence, at - 1);
      assert places[at - 1] <= found;
    }
    if found >= 0 {
      var k := PlaceNumber(entries, sequence, found);
      assert k < at;
    }
  }

  // ------------------------------------------------------------------ the forward scan

  /** What a forward scan about to read entry p may rely on: visible entries already passed
      concern no entry ahead, unless it is being skipped, and nothing ahead is before the
      key being skipped. */
  ghost predicate Guarded(entries: seq<Entry>, sequence: nat, skipping: bool, skip: UserKey, p: int) {
    && (forall j, k :: 0 <= j < p <= k < |entries| && Visible(entries, sequence, j) && Visible(entries, sequence, k) ==>
          entries[j].key.user == entries[k].key.user ==> skipping && entries[k].key.user == skip)
    && (skipping ==> forall k :: 0 <= k < |entries| && p <= k && Visible(entries, sequence, k) ==>
          entries[k].key.user >= skip)
  }

  /** Why `skip` is being skipped: it was at the start, or a visible deletion was passed. */
  ghost predicate SkipsFor(entries: seq<Entry>, sequence: nat, skipping0: bool, skip0: UserKey, skip: UserKey, p: int) {
    || (skipping0 && skip == skip0)
    || exists j :: 0 <= j < p && j < |entries| && Visible(entries, sequence, j) && entries[j].key.user == skip
  }

  /** Everything shown from `lo` to `hi` was to be skipped from the start. */
  ghost predicate OnlySkipped(entries: seq<Entry>, sequence: nat, skipping: bool, skip: UserKey, lo: int, hi: int) {
    forall i :: 0 <= i < |entries| && lo <= i < hi && Shown(entries, sequence, i) ==>
      skipping && entries[i].key.user <= skip
  }

  /** The state of the scan before entry p. */
  ghost predicate Scanning(entries: seq<Entry>, sequence: nat, skipping0: bool, skip0: UserKey, start: int,
                           skipping: bool, skip: UserKey, p: int) {
    && (skipping0 ==> skipping && skip0 <= skip)
    && Guarded(entries, sequence, skipping, skip, p)
    && (skipping ==> SkipsFor(entries, sequence, skipping0, skip0, skip, p))
    && OnlySkipped(entries, sequence, skipping0, skip0, start, p)
  }

  ghost predicate Ascending(entries: seq<Entry>) {
    forall j, k :: 0 <= j < k < |entries| ==> entries[j].key.user <= entries[k].key.user
  }

  lemma SortedAscends(entries: seq<Entry>)
    requires Sorted(entries)
    ensures Ascending(entries)
  {
    forall j, k | 0 <= j < k < |entries| ensures entries[j].key.user <= entries[k].key.user {
      assert Precedes(entries[j].key, entries[k].key);
    }
  }

  lemma GuardMoves(entries: seq<Entry>, sequence: nat, skipping: bool, skip: UserKey, p: nat, skipping': bool,
                   skip': UserKey)
    requires Ascending(entries) && p < |entries| && Guarded(entries, sequence, skipping, skip, p)
    requires if skipping' != skipping || skip' != skip || Visible(entries, sequence, p)
             then skipping' && skip' == entries[p].key.user && Visible(entries, sequence, p) else true
    ensures Guarded(entries, sequence, skipping', skip', p + 1)
  {
    var user := entries[p].key.user;
    forall j, k | 0 <= j < p + 1 <= k < |entries| && Visible(entries, sequence, j) && Visible(entries, sequence, k)
      ensures entries[j].key.user == entries[k].key.user ==> skipping' && entries[k].key.user == skip'
    {
      assert entries[j].key.user <= user || j == p;
    }
  }

  lemma ScanPasses(entries: seq<Entry>, sequence: nat, skipping0: bool, skip0: UserKey, start: int,
                   skipping: bool, skip: UserKey, p: nat)
    requires Sorted(entries) && p < |entries| && start <= p
    requires Scanning(entries, sequence, skipping0, skip0, start, skipping, skip, p)
    ensures !Visible(entries, sequence, p) ==>
      Scanning(entries, sequence, skipping0, skip0, start, skipping, skip, p + 1)
    ensures Visible(entries, sequence, p) && entries[p].key.kind.Deletion? ==>
              Scanning(entries, sequence, skipping0, skip0, start, true, entries[p].key.user, p + 1)
    ensures Visible(entries, sequence, p) && entries[p].key.kind.Value? && skipping && entries[p].key.user <= skip ==>
              Scanning(entries, sequence, skipping0, skip0, start, skipping, skip, p + 1)
  {
    SortedAscends(entries);
    hide Sorted, Ascending;
    var user := entries[p].key.user;
    assert Visible(entries, sequence, p) && skipping ==> skip <= user;
    if !Visible(entries, sequence, p) {
      GuardMoves(entries, sequence, skipping, skip, p, skipping, skip);
    } else if entries[p].key.kind.Deletion? {
      GuardMoves(entries, sequence, skipping, skip, p, true, user);
    } else if skipping && user <= skip {
      GuardMoves(entries, sequence, skipping, skip, p, skipping, skip);
    }
    hide Guarded;
    assert Visible(entries, sequence, p) ==> SkipsFor(entries, sequence, skipping0, skip0, user, p + 1);
    assert skipping ==> SkipsFor(entries, sequence, skipping0, skip0, skip, p + 1);
  }

  lemma ScanFinds(entries: seq<Entry>, sequence: nat, skipping0: bool, skip0: UserKey, start: int,
                  skipping: bool, skip: UserKey, p: nat)
    requires p < |entries| && Scanning(entries, sequence, skipping0, skip0, start, skipping, skip, p)
    requires Visible(entries, sequence, p) && entries[p].key.kind.Value? && !(skipping && entries[p].key.user <= skip)
    ensures Shown(entries, sequence, p) && (skipping0 ==> entries[p].key.user > skip0)
  {
  }

  // ----------------------------------------------------------------- the backward scan

  /** The scan stands at q, having passed i, with nothing visible in between. */
  ghost predicate Behind(entries: seq<Entry>, sequence: nat, q: int, i: int) {
    -1 <= q < i && forall j :: 0 <= j < |entries| && q < j < i ==> !Visible(entries, sequence, j)
  }

  /** The state of the scan back from p, having read everything after q: either nothing
      from there on is shown, or entry i is the candidate. */
  ghost predicate ScanningBack(entries: seq<Entry>, sequence: nat, p: int, q: int, kind: Kind, i: int,
                               key: Option<UserKey>,
                               value: string) {
    && -1 <= q <= p < |entries|
    && match kind
       case Deletion => NoneShown(entries, sequence, q + 1, p + 1)
       case Value =>
         && i <= p && Behind(entries, sequence, q, i) && Visible(entries, sequence, i)
         && entries[i].key.kind.Value? && key == Some(entries[i].key.user) && value == entries[i].value
         && NoneShown(entries, sequence, i + 1, p + 1)
  }

  lemma NotFirstIsNotShown(entries: seq<Entry>, sequence: nat, q: nat, i: int, p: int)
    requires Sorted(entries) && q < i <= p < |entries| && Visible(entries, sequence, q)
    requires Behind(entries, sequence, q, i) && Visible(entries, sequence, i)
    requires NoneShown(entries, sequence, i + 1, p + 1)
    requires entries[q].key.user >= entries[i].key.user
    ensures NoneShown(entries, sequence, q + 1, p + 1)
  {
    assert Precedes(entries[q].key, entries[i].key);
    assert !Shown(entries, sequence, i);
  }

  lemma StepBack(entries: seq<Entry>, sequence: nat, p: int, q: int, kind: Kind, i: int, key: Option<UserKey>,
                 value: string)
    requires Sorted(entries) && q >= 0 && ScanningBack(entries, sequence, p, q, kind, i, key, value)
    ensures !Visible(entries, sequence, q) ==> ScanningBack(entries, sequence, p, q - 1, kind, i, key, value)
    ensures Visible(entries, sequence, q) && (kind.Deletion? || entries[q].key.user >= key.value) ==>
      && (entries[q].key.kind.Deletion? ==> ScanningBack(entries, sequence, p, q - 1, Deletion, i, None, ""))
      && (entries[q].key.kind.Value? ==>
            ScanningBack(entries, sequence, p, q - 1, Value, q, Some(entries[q].key.user), entries[q].value))
  {
    if Visible(entries, sequence, q) && kind.Value? && entries[q].key.user >= key.value {
      NotFirstIsNotShown(entries, sequence, q, i, p);
    }
  }

  lemma CandidateIsShown(entries: seq<Entry>, sequence: nat, p: int, q: int, i: int, key: Option<UserKey>,
                         value: string)
    requires Sorted(entries) && ScanningBack(entries, sequence, p, q, Value, i, key, value)
    requires q >= 0 ==> entries[q].key.user < entries[i].key.user
    ensures Shown(entries, sequence, i)
  {
    forall j | 0 <= j < i && Visible(entries, sequence, j) ensures entries[j].key.user != entries[i].key.user {
      assert j <= q;
      assert j < q ==> Precedes(entries[j].key, entries[q].key);
    }
  }

  // ------------------------------------------------------------------------ the iterator

  class DBIter {
    const iter: MergingIterator
    const sequence: Sequence
    var forward: bool
    var valid: bool
    var savedKey: Option<UserKey>
    var savedValue: string
    ghost var at: int  // the position of the refined cursor over the view

    ghost const entries: seq<Entry> := iter.order.merged

    ghost function Map(): seq<Pair> {
      View(entries, sequence)
    }

    /** Moving forward the internal iterator is at the entry shown; moving backward it is
        behind it, with nothing visible in between, and the entry is saved. */
    ghost predicate Invariant()
      reads this, iter, iter.pos
    {
      && iter.Invariant() && Sorted(entries) && -1 <= at < |AllPlaces(entries, sequence)|
      && (valid <==> at != -1)
      && (valid ==>
            if forward then iter.at == AllPlaces(entries, sequence)[at]
            else Behind(entries, sequence, iter.at, AllPlaces(entries, sequence)[at])
                 && savedKey == Some(Map()[at].user) && savedValue == Map()[at].value)
    }

    constructor (iter: MergingIterator, sequence: Sequence)
      requires iter.Invariant()
      ensures Invariant() && at == -1 && this.iter == iter && this.sequence == sequence
    {
      this.iter, this.sequence := iter, sequence;
      forward, valid, savedKey, savedValue, at := true, false, None, "", -1;
      new;
      iter.UnionIsSorted();
    }

    function Key(): UserKey
      requires Invariant() && valid
      reads this, iter, iter.pos
      ensures Key() == Map()[at].user
    {
      assert Shown(entries, sequence, AllPlaces(entries, sequence)[at]) by { PlaceAt(entries, sequence, at); }
      PlaceAt(entries, sequence, at);
      if forward then iter.CurrentEntry().key.user else savedKey.value
    }

    function EntryValue(): string
      requires Invariant() && valid
      reads this, iter, iter.pos
      ensures EntryValue() == Map()[at].value
    {
      PlaceAt(entries, sequence, at);
      if forward then iter.CurrentEntry().value else savedValue
    }

    method FindNextUserEntry(skipping0: bool, skip0: UserKey)
      requires iter.Invariant() && Sorted(entries) && iter.Valid() && forward
      requires Guarded(entries, sequence, skipping0, skip0, iter.at)
      modifies this`valid, this`savedKey, iter, iter.pos
      ensures iter.Invariant() && (valid <==> iter.at != -1)
      ensures valid ==> iter.at >= old(iter.at) && Shown(entries, sequence, iter.at)
                        && (skipping0 ==> entries[iter.at].key.user > skip0)
      ensures OnlySkipped(entries, sequence, skipping0, skip0, old(iter.at), if valid then iter.at else |entries|)
    {
      hide Sorted, MergingIterator.Invariant, Guarded, Shown;
      var skipping, skip := skipping0, skip0;
      iter.Bounds();
      ghost var start, p := iter.at, iter.at;
      while iter.Valid()
        invariant iter.Invariant() && start <= p <= |entries| && iter.at == (if p < |entries| then p else -1)
        invariant iter.Valid() <==> iter.at != -1
        invariant Scanning(entries, sequence, skipping0, skip0, start, skipping, skip, p)
        decreases |entries| - p
      {
        var e := iter.CurrentEntry();
        ScanPasses(entries, sequence, skipping0, skip0, start, skipping, skip, p);
        if e.key.sequence <= sequence {
          match e.key.kind {
            case Deletion =>
              skipping, skip := true, e.key.user;
            case Value =>
              if skipping && e.key.user <= skip {
              } else {
                ScanFinds(entries, sequence, skipping0, skip0, start, skipping, skip, p);
                valid, savedKey := true, None;
                return;
              }
          }
        }
        iter.Next();
        iter.Bounds();
        p := p + 1;
      }
      valid, savedKey := false, None;
    }

    method Next()
      requires Invariant() && valid
      modifies this, iter, iter.pos
      ensures Invariant() && at == Cursors.Next(|Map()|, old(at))
    {
      hide Sorted, MergingIterator.Invariant, Guarded, Shown, View, Places, Visible;
      ghost var place := AllPlaces(entries, sequence)[at];
      PlaceAt(entries, sequence, at);
      iter.Bounds();
      if !forward {
        forward := true;
        ReadyToSkip(entries, sequence, iter.at + 1, place);
        if !iter.Valid() {
          iter.SeekToFirst();
        } else {
          iter.Next();
        }
        iter.Bounds();  // still valid: the entry shown lies ahead
      } else {
        ReadyToSkip(entries, sequence, iter.at, place);
        savedKey := Some(iter.CurrentEntry().key.user);
      }
      ghost var start := iter.at;
      FindNextUserEntry(true, savedKey.value);
      iter.Bounds();
      ghost var found := if valid then iter.at else |entries|;
      SkippedIsCurrent(entries, sequence, start, place, found);
      NextPlace(entries, sequence, at, place + 1, found);
      at := Cursors.Next(|Map()|, at);
    }

    method FindPrevUserEntry() returns (ghost found: int)
      requires iter.Invariant() && Sorted(entries) && !forward
      modifies this`valid, this`forward, this`savedKey, this`savedValue, iter, iter.pos
      ensures iter.Invariant() && -1 <= found <= old(iter.at)
      ensures NoneShown(entries, sequence, found + 1, old(iter.at) + 1)
      ensures valid <==> found >= 0
      ensures valid ==> !forward && Shown(entries, sequence, found) && Behind(entries, sequence, iter.at, found)
                        && savedKey == Some(entries[found].key.user) && savedValue == entries[found].value
    {
      hide Sorted, MergingIterator.Invariant, Shown;
      var kind := Deletion;
      ghost var p, i := iter.at, -1;
      iter.Bounds();
      while iter.Valid()
        invariant iter.Invariant() && -1 <= iter.at <= p && (iter.Valid() <==> iter.at != -1) && !forward
        invariant ScanningBack(entries, sequence, p, iter.at, kind, i, savedKey, savedValue)
        decreases iter.at
      {
        var e := iter.CurrentEntry();
        StepBack(entries, sequence, p, iter.at, kind, i, savedKey, savedValue);
        if e.key.sequence <= sequence {
          if !kind.Deletion? && e.key.user < savedKey.value {
            break;
          }
          kind := e.key.kind;
          if kind.Deletion? {
            savedKey, savedValue := None, "";
          } else {
            savedKey, savedValue, i := Some(e.key.user), e.value, iter.at;
          }
        }
        iter.Prev();
        iter.Bounds();
      }
      if kind.Deletion? {
        valid, savedKey, savedValue, forward := false, None, "", true;
        found := -1;
      } else {
        CandidateIsShown(entries, sequence, p, iter.at, i, savedKey, savedValue);
        valid := true;
        found := i;
      }
    }

    method Prev()
      requires Invariant() && valid
      modifies this, iter, iter.pos
      ensures Invariant() && at == Cursors.Prev(old(at))
    {
      hide Sorted, MergingIterator.Invariant, Shown, View, Places;
      ghost var place := AllPlaces(entries, sequence)[at];
      PlaceAt(entries, sequence, at);
      iter.Bounds();
      if forward {
        savedKey := Some(iter.CurrentEntry().key.user);
        while true
          invariant at == old(at) && savedKey == Some(entries[place].key.user)
          invariant iter.Invariant() && 0 <= iter.at <= place && iter.Valid()
          invariant NoneShown(entries, sequence, iter.at, place)
          decreases iter.at
        {
          iter.Prev();
          iter.Bounds();
          if !iter.Valid() {
            PrevPlace(entries, sequence, at, -1);
            valid, savedKey, savedValue := false, None, "";
            at := -1;
            return;
          }
          if iter.CurrentEntry().key.user < savedKey.value {
            break;
          }
          SameKeyIsNotShown(entries, sequence, iter.at, place);
        }
        forward := false;
      } else {
        BehindShowsNothing(entries, sequence, iter.at, place);
      }
      ghost var q := iter.at;
      ghost var found := FindPrevUserEntry();
      PrevPlace(entries, sequence, at, found);
      at := at - 1;
      if valid {
        PlaceAt(entries, sequence, at);
      }
    }

    method Seek(target: UserKey)
      requires Invariant()
      modifies this, iter, iter.pos
      ensures Invariant()
      ensures at == -1 ==> forall k :: 0 <= k < |Map()| ==> Map()[k].user < target
      ensures at >= 0 ==> Map()[at].user >= target && forall k :: 0 <= k < at ==> Map()[k].user < target
    {
      hide Sorted, MergingIterator.Invariant, Shown, View, Places, Guarded, LowerBound, Visible;
      forward, savedValue := true, "";
      iter.Seek(LookupKey(target, sequence));
      iter.Bounds();
      ghost var start := LowerBound(entries, LookupKey(target, sequence));
      SeekPlace(entries, sequence, target);
      if iter.Valid() {
        FindNextUserEntry(false, target);
        iter.Bounds();
      } else {
        valid := false;
      }
      ghost var found := if valid then iter.at else |entries|;
      at := SoughtPlace(entries, sequence, target, start, found);
    }

    method SeekToFirst()
      requires Invariant()
      modifies this, iter, iter.pos
      ensures Invariant() && at == Cursors.First(|Map()|)
    {
      hide Sorted, MergingIterator.Invariant, Shown, View, Places;
      forward, savedValue := true, "";
      iter.SeekToFirst();
      iter.Bounds();
      if iter.Valid() {
        FindNextUserEntry(false, 0.0);
        iter.Bounds();
      } else {
        valid := false;
      }
      NextPlace(entries, sequence, -1, 0, if valid then iter.at else |entries|);
      at := Cursors.First(|Map()|);
    }

    method SeekToLast()
      requires Invariant()
      modifies this, iter, iter.pos
      ensures Invariant() && at == Cursors.Last(|Map()|)
    {
      hide Sorted, MergingIterator.Invariant, Shown, View, Places;
      forward, savedValue := false, "";
      iter.SeekToLast();
      iter.Bounds();
      ghost var found := FindPrevUserEntry();
      PrevPlace(entries, sequence, |AllPlaces(entries, sequence)|, found);
      at := Cursors.Last(|Map()|);
      if valid {
        PlaceAt(entries, sequence, at);
      }
    }
  }

  /** Before a scan from p that is to pass over the key shown at `place`. */
  lemma ReadyToSkip(entries: seq<Entry>, sequence: nat, p: int, place: nat)
    requires Sorted(entries) && place < |entries| && Shown(entries, sequence, place) && 0 <= p <= place
    requires Behind(entries, sequence, p - 1, place)
    ensures Guarded(entries, sequence, true, entries[place].key.user, p)
  {
    SortedAscends(entries);
  }

  lemma SkippedIsCurrent(entries: seq<Entry>, sequence: nat, start: int, place: nat, found: int)
    requires Sorted(entries) && place < |entries| && Shown(entries, sequence, place) && start <= place
    requires 0 <= found <= |entries| && OnlySkipped(entries, sequence, true, entries[place].key.user, start, found)
    requires found < |entries| ==> entries[found].key.user > entries[place].key.user
    ensures place < found && NoneShown(entries, sequence, place + 1, found)
  {
    SortedAscends(entries);
    forall i | place < i < found ensures !Shown(entries, sequence, i) {
      assert entries[place].key.user <= entries[i].key.user;
    }
  }

  lemma SameKeyIsNotShown(entries: seq<Entry>, sequence: nat, q: nat, place: nat)
    requires Sorted(entries) && q < place < |entries| && Shown(entries, sequence, place)
    requires entries[q].key.user >= entries[place].key.user && NoneShown(entries, sequence, q + 1, place)
    ensures NoneShown(entries, sequence, q, place)
  {
    SortedAscends(entries);
  }

  lemma BehindShowsNothing(entries: seq<Entry>, sequence: nat, q: int, i: int)
    requires Behind(entries, sequence, q, i)
    ensures NoneShown(entries, sequence, q + 1, i)
  {
  }

  /** A seek to the lookup key passes nothing visible of the target or later keys. */
  lemma SeekPlace(entries: seq<Entry>, sequence: Sequence, target: UserKey)
    requires Sorted(entries)
    ensures forall j :: 0 <= j < LowerBound(entries, LookupKey(target, sequence)) ==>
      entries[j].key.user < target || !Visible(entries, sequence, j)
    ensures forall j :: LowerBound(entries, LookupKey(target, sequence)) <= j < |entries| ==>
      entries[j].key.user >= target
    ensures Guarded(entries, sequence, false, target, LowerBound(entries, LookupKey(target, sequence)))
  {
    var n := LowerBound(entries, LookupKey(target, sequence));
    SortedAscends(entries);
    assert forall j :: n <= j < |entries| ==> entries[j].key.user >= target by {
      assert n < |entries| ==> entries[n].key.user >= target;
    }
  }

  lemma SoughtPlace(entries: seq<Entry>, sequence: nat, target: UserKey, start: nat, found: int) returns (k: int)
    requires start <= found <= |entries| && OnlySkipped(entries, sequence, false, target, start, found)
    requires found < |entries| ==> Shown(entries, sequence, found)
    requires forall j :: 0 <= j < start ==> entries[j].key.user < target || !Visible(entries, sequence, j)
    requires forall j :: start <= j < |entries| ==> entries[j].key.user >= target
    ensures -1 <= k < |AllPlaces(entries, sequence)| && (k == -1 <==> found == |entries|)
    ensures k >= 0 ==> AllPlaces(entries, sequence)[k] == found && View(entries, sequence)[k].user >= target
    ensures forall j :: 0 <= j < |View(entries, sequence)| && (k == -1 || j < k) ==>
      View(entries, sequence)[j].user < target
  {
    k := -1;
    if found < |entries| {
      k := PlaceNumber(entries, sequence, found);
      PlaceAt(entries, sequence, k);
    }
    forall j | 0 <= j < |View(entries, sequence)| && (k == -1 || j < k)
      ensures View(entries, sequence)[j].user < target
    {
      PlaceAt(entries, sequence, j);
      assert AllPlaces(entries, sequence)[j] < start;
    }
  }
}
