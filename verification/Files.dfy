/** Table files, the levels of a version, and the searches over their key ranges. */
module Files {
  import opened Keys

  const NUM_LEVELS: nat := 7
  const MAX_MEM_COMPACT_LEVEL: nat := 2

  /** A table file: the metadata a version records and the entries the table holds. */
  datatype FileData = FileData(number: nat, size: nat, smallest: InternalKey, largest: InternalKey,
                               entries: seq<Entry>)

  type File = f: FileData | !Less(f.largest, f.smallest)
    witness FileData(0, 0, InternalKey(0.0, 0, Value), InternalKey(0.0, 0, Value), [])

  /** What a table builder leaves behind: sorted entries, and the metadata of their range. */
  ghost predicate ValidFile(f: File) {
    && |f.entries| > 0 && Sorted(f.entries)
    && f.smallest == f.entries[0].key && f.largest == f.entries[|f.entries| - 1].key
    && forall e :: e in f.entries ==> !Less(e.key, f.smallest) && !Less(f.largest, e.key)
  }

  ghost predicate AllValid(files: seq<File>) {
    forall f :: f in files ==> ValidFile(f)
  }

  function MakeFile(number: nat, size: nat, entries: seq<Entry>): (f: File)
    requires |entries| > 0 && Sorted(entries)
    ensures f.number == number && f.size == size && f.entries == entries && ValidFile(f)
  {
    assert forall e :: e in entries ==> !Less(e.key, entries[0].key) && !Less(entries[|entries| - 1].key, e.key);
    FileData(number, size, entries[0].key, entries[|entries| - 1].key, entries)
  }

  ghost function Contents(files: seq<File>): set<Entry> {
    set f, e | f in files && e in f.entries :: e
  }

  /** Every entry of `a` is newer than every entry of `b` for the same user key. */
  ghost predicate Newer(a: seq<Entry>, b: seq<Entry>) {
    forall x, y :: x in a && y in b && x.key.user == y.key.user ==> x.key.sequence > y.key.sequence
  }

  /** Levels above zero: increasing, disjoint key ranges. */
  ghost predicate Ordered(files: seq<File>) {
    forall i, j :: 0 <= i < j < |files| ==> Less(files[i].largest, files[j].smallest)
  }

  // ---------------------------------------------------------------- key ranges

  /** An optional user-key bound; a null key in the program reaches past every file. */
  type Bound = Option<UserKey>

  predicate AfterFile(key: Bound, f: File) {
    key.Some? && key.value > f.largest.user
  }

  predicate BeforeFile(key: Bound, f: File) {
    key.Some? && key.value < f.smallest.user
  }

  predicate Overlaps(f: File, begin: Bound, end: Bound) {
    !AfterFile(begin, f) && !BeforeFile(end, f)
  }

  /** Where the halving of [left, right) ends, whatever the order of the files. */
  function SearchFile(files: seq<File>, key: InternalKey, left: nat, right: nat): (r: nat)
    requires left <= right <= |files|
    ensures left <= r <= right
    decreases right - left
  {
    if left == right then right else
      var mid := (left + right) / 2;
      if Compare(files[mid].largest, key) < 0 then SearchFile(files, key, mid + 1, right)
      else SearchFile(files, key, left, mid)
  }

  lemma SearchStep(files: seq<File>, key: InternalKey, left: nat, right: nat)
    requires left <= right <= |files|
    ensures left == right ==> SearchFile(files, key, left, right) == right
    ensures left < right ==>
      var mid := (left + right) / 2;
      SearchFile(files, key, left, right)
      == if Less(files[mid].largest, key) then SearchFile(files, key, mid + 1, right)
         else SearchFile(files, key, left, mid)
  {
  }

  /** The binary search for the first file that may hold `key`. */
  method FindFile(files: seq<File>, key: InternalKey) returns (index: nat)
    requires Ordered(files)
    ensures index <= |files| && index == SearchFile(files, key, 0, |files|)
    ensures forall i :: 0 <= i < index ==> Less(files[i].largest, key)
    ensures forall i :: index <= i < |files| ==> !Less(files[i].largest, key)
  {
    hide SearchFile;
    var left, right := 0, |files|;
    while left < right
      invariant 0 <= left <= right <= |files|
      invariant SearchFile(files, key, left, right) == SearchFile(files, key, 0, |files|)
      invariant forall i :: 0 <= i < left ==> Less(files[i].largest, key)
      invariant forall i :: right <= i < |files| ==> !Less(files[i].largest, key)
    {
      SearchStep(files, key, left, right);
      var mid := (left + right) / 2;
      if Compare(files[mid].largest, key) < 0 {
        left := mid + 1;
      } else {
        right := mid;
      }
    }
    SearchStep(files, key, left, right);
    index := right;
  }

  method SomeFileOverlapsRange(disjointSorted: bool, files: seq<File>, smallest: Bound, largest: Bound)
    returns (r: bool)
    requires disjointSorted ==> Ordered(files)
    ensures r <==> exists f :: f in files && Overlaps(f, smallest, largest)
  {
    if !disjointSorted {
      for i := 0 to |files|
        invariant forall k :: 0 <= k < i ==> !Overlaps(files[k], smallest, largest)
      {
        if !(AfterFile(smallest, files[i]) || BeforeFile(largest, files[i])) {
          assert files[i] in files && Overlaps(files[i], smallest, largest);
          return true;
        }
      }
      return false;
    }
    var index := 0;
    if smallest.Some? {
      index := FindFile(files, LookupKey(smallest.value, MAX_SEQUENCE));
    }
    assert forall k :: 0 <= k < index ==> AfterFile(smallest, files[k]);
    if index >= |files| {
      return false;
    }
    r := !BeforeFile(largest, files[index]);
    if r {
      assert files[index] in files && Overlaps(files[index], smallest, largest);
    } else {
      forall k | index < k < |files| ensures BeforeFile(largest, files[k]) {
        assert Less(files[index].largest, files[k].smallest);
      }
    }
  }

  // ------------------------------------------------- files overlapping a range

  /** The files that overlap [begin, end], in list order. */
  function Overlapping(files: seq<File>, begin: Bound, end: Bound): (r: seq<File>)
    ensures forall f :: f in r <==> f in files && Overlaps(f, begin, end)
    ensures |r| <= |files|
  {
    if files == [] then [] else
      var front := Overlapping(files[..|files| - 1], begin, end);
      if Overlaps(files[|files| - 1], begin, end) then front + [files[|files| - 1]] else front
  }

  predicate WithinRange(f: File, begin: Bound, end: Bound) {
    && (begin.Some? ==> begin.value <= f.smallest.user)
    && (end.Some? ==> f.largest.user <= end.value)
  }

  /** [b, e] contains [begin, end]. */
  predicate Widens(b: Bound, e: Bound, begin: Bound, end: Bound) {
    && (b.Some? ==> begin.Some? && b.value <= begin.value)
    && (e.Some? ==> end.Some? && end.value <= e.value)
  }

  /** Every file that overlaps [b, e] lies inside it. */
  ghost predicate ClosedRange(files: seq<File>, b: Bound, e: Bound) {
    forall f :: f in files && Overlaps(f, b, e) ==> WithinRange(f, b, e)
  }

  /** [b, e] lies inside every closed range that contains [begin, end]. */
  ghost predicate LeastClosed(files: seq<File>, begin: Bound, end: Bound, b: Bound, e: Bound) {
    forall b', e' :: Widens(b', e', begin, end) && ClosedRange(files, b', e') ==> Widens(b', e', b, e)
  }

  lemma LeastClosedGrows(files: seq<File>, begin: Bound, end: Bound, b: Bound, e: Bound, f: File, b1: Bound, e1: Bound)
    requires LeastClosed(files, begin, end, b, e)
    requires f in files && Overlaps(f, b, e)
    requires b1 == b || (b.Some? && b1 == Some(f.smallest.user))
    requires e1 == e || (e.Some? && e1 == Some(f.largest.user))
    ensures LeastClosed(files, begin, end, b1, e1)
  {
    forall b', e' | Widens(b', e', begin, end) && ClosedRange(files, b', e') ensures Widens(b', e', b1, e1) {
      assert Widens(b', e', b, e);
      assert Overlaps(f, b', e');
      assert WithinRange(f, b', e');
    }
  }

  ghost function StartsBefore(files: seq<File>, b: Bound): set<int> {
    set i | 0 <= i < |files| && b.Some? && files[i].smallest.user < b.value
  }

  ghost function EndsAfter(files: seq<File>, e: Bound): set<int> {
    set i | 0 <= i < |files| && e.Some? && files[i].largest.user > e.value
  }

  lemma RestartsDecrease(files: seq<File>, i: nat, b: Bound, e: Bound)
    requires i < |files|
    ensures b.Some? && files[i].smallest.user < b.value ==>
              StartsBefore(files, Some(files[i].smallest.user)) < StartsBefore(files, b)
    ensures e.Some? && files[i].largest.user > e.value ==>
              EndsAfter(files, Some(files[i].largest.user)) < EndsAfter(files, e)
  {
    if b.Some? && files[i].smallest.user < b.value {
      assert i in StartsBefore(files, b) && i !in StartsBefore(files, Some(files[i].smallest.user));
    }
    if e.Some? && files[i].largest.user > e.value {
      assert i in EndsAfter(files, e) && i !in EndsAfter(files, Some(files[i].largest.user));
    }
  }

  lemma OverlappingStep(files: seq<File>, i: nat, b: Bound, e: Bound)
    requires i < |files|
    ensures Overlapping(files[..i + 1], b, e)
         == if Overlaps(files[i], b, e) then Overlapping(files[..i], b, e) + [files[i]]
            else Overlapping(files[..i], b, e)
  {
    assert files[..i + 1][..i] == files[..i];
  }

  lemma ScanStarts(files: seq<File>, b: Bound, e: Bound)
    ensures Overlapping(files[..0], b, e) == [] && LeastClosed(files, b, e, b, e)
  {
  }

  /** Collects the files of one level that overlap [begin, end].  At level zero the range
      grows to the least one that contains every file it touches, restarting the scan
      each time; elsewhere the range stays as given. */
  method GetOverlappingInputs(levelZero: bool, files: seq<File>, begin: Bound, end: Bound)
    returns (inputs: seq<File>, ghost b: Bound, ghost e: Bound)
    ensures inputs == Overlapping(files, b, e)
    ensures !levelZero ==> b == begin && e == end
    ensures Widens(b, e, begin, end)
    ensures levelZero ==> ClosedRange(files, b, e) && LeastClosed(files, begin, end, b, e)
  {
    hide StartsBefore, EndsAfter, LeastClosed, Overlapping;
    var userBegin, userEnd := begin, end;
    inputs := [];
    ScanStarts(files, begin, end);
    var i := 0;
    while i < |files|
      invariant 0 <= i <= |files|
      invariant inputs == Overlapping(files[..i], userBegin, userEnd)
      invariant !levelZero ==> userBegin == begin && userEnd == end
      invariant Widens(userBegin, userEnd, begin, end)
      invariant levelZero ==> forall k :: 0 <= k < i && Overlaps(files[k], userBegin, userEnd)
                                ==> WithinRange(files[k], userBegin, userEnd)
      invariant levelZero ==> LeastClosed(files, begin, end, userBegin, userEnd)
      decreases StartsBefore(files, userBegin), EndsAfter(files, userEnd), |files| - i
    {
      var f := files[i];
      OverlappingStep(files, i, userBegin, userEnd);
      RestartsDecrease(files, i, userBegin, userEnd);
      i := i + 1;
      if AfterFile(userBegin, f) {
      } else if BeforeFile(userEnd, f) {
      } else {
        inputs := inputs + [f];
        if levelZero {
          if userBegin.Some? && f.smallest.user < userBegin.value {
            LeastClosedGrows(files, begin, end, userBegin, userEnd, f, Some(f.smallest.user), userEnd);
            userBegin := Some(f.smallest.user);
            inputs, i := [], 0;
            ScanStarts(files, userBegin, userEnd);
          } else if userEnd.Some? && f.largest.user > userEnd.value {
            LeastClosedGrows(files, begin, end, userBegin, userEnd, f, userBegin, Some(f.largest.user));
            userEnd := Some(f.largest.user);
            inputs, i := [], 0;
            ScanStarts(files, userBegin, userEnd);
          }
        }
      }
    }
    assert files[..i] == files;
    b, e := userBegin, userEnd;
  }
}
