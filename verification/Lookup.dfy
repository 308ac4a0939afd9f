/** Point lookups: one table, one version level by level, and why the early exit is right. */
module Lookup {
  import opened Keys
  import opened Files
  import opened Inputs
  import opened Versions

  datatype Saver = NotFound | Found(value: string) | Deleted

  /** What one sorted run of entries (a table or a memtable) answers: the entry a seek to
      the lookup key lands on, if it has the wanted user key.  Module `Tables` proves that
      a table's single-block probe answers the same. */
  function FindInRun(entries: seq<Entry>, user: UserKey, sequence: Sequence): Saver {
    var i := LowerBound(entries, LookupKey(user, sequence));
    if i < |entries| && entries[i].key.user == user then
      if entries[i].key.kind.Value? then Found(entries[i].value) else Deleted
    else NotFound
  }

  /** `r` is the right answer over the entries `es`. */
  ghost predicate Answers(es: set<Entry>, user: UserKey, sequence: Sequence, r: Saver) {
    match r
    case NotFound => !HasVisible(es, user, sequence)
    case Found(v) => exists e :: Newest(es, user, sequence, e) && e.key.kind.Value? && e.value == v
    case Deleted => exists e :: Newest(es, user, sequence, e) && e.key.kind.Deletion?
  }

  lemma RunAnswers(entries: seq<Entry>, user: UserKey, sequence: Sequence)
    requires Sorted(entries)
    ensures Answers(SetOf(entries), user, sequence, FindInRun(entries, user, sequence))
  {
    var target := LookupKey(user, sequence);
    var i := LowerBound(entries, target);
    forall x | x in entries && x.key.user == user && x.key.sequence <= sequence
      ensures i < |entries| && entries[i].key.user == user && x.key.sequence <= entries[i].key.sequence
    {
      var j :| 0 <= j < |entries| && entries[j] == x;
      LookupKeySplits(x.key, user, sequence);
      assert i <= j;
      if i < j { assert Precedes(entries[i].key, entries[j].key); }
    }
    if i < |entries| && entries[i].key.user == user {
      LookupKeySplits(entries[i].key, user, sequence);
      assert Newest(SetOf(entries), user, sequence, entries[i]);
    }
  }

  // ----------------------------------------------------------- which files may matter

  ghost predicate Blind(f: File, user: UserKey, sequence: Sequence) {
    !HasVisible(SetOf(f.entries), user, sequence)
  }

  /** `e`, newest in `f`, is newest in the version when no shallower file sees the key and
      every other file of the level sees nothing or is older. */
  lemma FoundIsNewest(levels: Levels, l: nat, f: File, e: Entry, user: UserKey, sequence: Sequence)
    requires AgeOrdered(levels) && l < |levels| && f in levels[l]
    requires Newest(SetOf(f.entries), user, sequence, e)
    requires forall m, g :: 0 <= m < l && g in levels[m] ==> Blind(g, user, sequence)
    requires forall g :: g in levels[l] && g != f ==> Blind(g, user, sequence) || Newer(f.entries, g.entries)
    ensures Newest(VersionEntries(levels), user, sequence, e)
  {
    assert e in f.entries;
    forall x | x in VersionEntries(levels) && x.key.user == user && x.key.sequence <= sequence
      ensures x.key.sequence <= e.key.sequence
    {
      var m, g :| 0 <= m < |levels| && g in levels[m] && x in g.entries;
      assert x in SetOf(g.entries);
      assert !Blind(g, user, sequence);
      if m == l && g == f {
      } else {
        assert m >= l && Newer(f.entries, g.entries);
      }
    }
  }

  lemma OutsideIsBlind(f: File, user: UserKey, sequence: Sequence)
    requires ValidFile(f) && !(f.smallest.user <= user <= f.largest.user)
    ensures Blind(f, user, sequence)
  {
    forall e | e in f.entries ensures e.key.user != user {
      assert !Less(e.key, f.smallest) && !Less(f.largest, e.key);
    }
  }

  lemma BeforeTargetIsBlind(f: File, user: UserKey, sequence: Sequence)
    requires ValidFile(f) && Less(f.largest, LookupKey(user, sequence))
    ensures Blind(f, user, sequence)
  {
    forall e | e in f.entries && e.key.user == user ensures e.key.sequence > sequence {
      assert !Less(f.largest, e.key);
      LookupKeySplits(e.key, user, sequence);
    }
  }

  /** Past the file the binary search finds, files are older or do not hold the key. */
  lemma LaterFiles(f: File, g: File, user: UserKey, sequence: Sequence)
    requires ValidFile(f) && ValidFile(g) && Less(f.largest, g.smallest)
    requires !Less(f.largest, LookupKey(user, sequence))
    requires DistinctSequences(Contents([f, g]))
    ensures Newer(f.entries, g.entries)
    ensures FindInRun(f.entries, user, sequence) == NotFound ==> Blind(g, user, sequence)
    ensures user < f.smallest.user ==> Blind(g, user, sequence)
  {
    EarlierIsNewer(f, g);
    var i := LowerBound(f.entries, LookupKey(user, sequence));
    assert i < |f.entries|;
    if FindInRun(f.entries, user, sequence) == NotFound {
      assert f.entries[i] in f.entries && !Less(f.largest, f.entries[i].key);
      assert f.entries[i].key.user > user;
      OutsideIsBlind(g, user, sequence);
    } else if user < f.smallest.user {
      OutsideIsBlind(g, user, sequence);
    }
  }

  // ------------------------------------------------------------ level zero, newest first

  function InsertNewestFirst(files: seq<File>, f: File): (r: seq<File>)
    ensures forall g :: g in r <==> g in files || g == f
  {
    if files == [] || files[0].number <= f.number then [f] + files
    else [files[0]] + InsertNewestFirst(files[1..], f)
  }

  /** The library sort by decreasing file number. */
  function SortNewestFirst(files: seq<File>): (r: seq<File>)
    ensures forall g :: g in r <==> g in files
  {
    if files == [] then [] else InsertNewestFirst(SortNewestFirst(files[1..]), files[0])
  }

  ghost predicate NewestFirst(files: seq<File>) {
    forall i, j :: 0 <= i < j < |files| ==> files[i].number >= files[j].number
  }

  lemma {:induction false} InsertKeepsOrder(files: seq<File>, f: File)
    requires NewestFirst(files)
    ensures NewestFirst(InsertNewestFirst(files, f))
  {
    if files != [] && files[0].number > f.number {
      InsertKeepsOrder(files[1..], f);
      var rest := InsertNewestFirst(files[1..], f);
      forall j | 0 <= j < |rest| ensures files[0].number >= rest[j].number {
        assert rest[j] in rest;
      }
    }
  }

  lemma {:induction false} SortIsNewestFirst(files: seq<File>)
    ensures NewestFirst(SortNewestFirst(files))
  {
    if files != [] {
      SortIsNewestFirst(files[1..]);
      InsertKeepsOrder(SortNewestFirst(files[1..]), files[0]);
    }
  }

  // ------------------------------------------------------------------- one level's search

  /** Every file whose range holds the user key is searched. */
  ghost predicate Covers(files: seq<File>, search: seq<File>, user: UserKey) {
    forall f :: f in files && f.smallest.user <= user <= f.largest.user ==> f in search
  }

  /** The file of an ordered level that a lookup reads, if any. */
  function SearchedFile(files: seq<File>, user: UserKey, sequence: Sequence): seq<File> {
    var index := SearchFile(files, LookupKey(user, sequence), 0, |files|);
    if index >= |files| || user < files[index].smallest.user then [] else [files[index]]
  }

  /** The files of a level that a lookup reads, in reading order. */
  method FilesToSearch(level: nat, files: seq<File>, user: UserKey, sequence: Sequence) returns (r: seq<File>)
    requires level > 0 ==> Ordered(files)
    ensures Subset(r, files)
    ensures level == 0 ==> NewestFirst(r) && Covers(files, r, user)
    ensures level > 0 ==> r == SearchedFile(files, user, sequence) && |r| <= 1 && SearchedOne(files, r, user, sequence)
  {
    if level == 0 {
      var tmp := [];
      for i := 0 to |files|
        invariant forall f :: f in tmp ==> f in files
        invariant forall k :: 0 <= k < i && files[k].smallest.user <= user <= files[k].largest.user ==> files[k] in tmp
      {
        if user >= files[i].smallest.user && user <= files[i].largest.user {
          tmp := tmp + [files[i]];
        }
      }
      SortIsNewestFirst(tmp);
      r := SortNewestFirst(tmp);
    } else {
      var index := FindFile(files, LookupKey(user, sequence));
      if index >= |files| || user < files[index].smallest.user {
        r := [];
      } else {
        r := [files[index]];
      }
    }
  }

  /** At most one file of an ordered level matters: those before it end before the target,
      it does not; without one, the first such file starts after the user key. */
  ghost predicate SearchedOne(files: seq<File>, r: seq<File>, user: UserKey, sequence: Sequence) {
    exists index :: 0 <= index <= |files|
      && (forall i :: 0 <= i < index ==> Less(files[i].largest, LookupKey(user, sequence)))
      && (index < |files| ==> !Less(files[index].largest, LookupKey(user, sequence)))
      && r == (if index < |files| && user >= files[index].smallest.user then [files[index]] else [])
  }

  /** Files of an ordered level other than the one searched. */
  lemma OrderedLevelRest(files: seq<File>, r: seq<File>, user: UserKey, sequence: Sequence, g: File)
    requires Ordered(files) && AllValid(files) && DistinctSequences(Contents(files))
    requires SearchedOne(files, r, user, sequence) && g in files && g !in r
    ensures r == [] ==> Blind(g, user, sequence)
    ensures r != [] ==> Blind(g, user, sequence) || Newer(r[0].entries, g.entries)
    ensures r != [] && FindInRun(r[0].entries, user, sequence) == NotFound ==> Blind(g, user, sequence)
  {
    var index :| 0 <= index <= |files|
      && (forall i :: 0 <= i < index ==> Less(files[i].largest, LookupKey(user, sequence)))
      && (index < |files| ==> !Less(files[index].largest, LookupKey(user, sequence)))
      && r == (if index < |files| && user >= files[index].smallest.user then [files[index]] else []);
    var k :| 0 <= k < |files| && files[k] == g;
    if k < index {
      BeforeTargetIsBlind(g, user, sequence);
    } else if k == index {
      OutsideIsBlind(g, user, sequence);
    } else {
      var f := files[index];
      assert f in files && Less(f.largest, g.smallest);
      assert DistinctSequences(Contents([f, g])) by {
        assert Contents([f, g]) <= Contents(files);
      }
      LaterFiles(f, g, user, sequence);
    }
  }

  /** An answer found in `f` is the answer of the whole version. */
  lemma AnswerLifts(levels: Levels, l: nat, f: File, user: UserKey, sequence: Sequence)
    requires AgeOrdered(levels) && l < |levels| && f in levels[l] && ValidFile(f)
    requires FindInRun(f.entries, user, sequence) != NotFound
    requires forall m, g :: 0 <= m < l && g in levels[m] ==> Blind(g, user, sequence)
    requires forall g :: g in levels[l] && g != f ==> Blind(g, user, sequence) || Newer(f.entries, g.entries)
    ensures Answers(VersionEntries(levels), user, sequence, FindInRun(f.entries, user, sequence))
  {
    hide AgeOrdered, Newer, Blind, VersionEntries, SetOf, Newest;
    RunAnswers(f.entries, user, sequence);
    var r := FindInRun(f.entries, user, sequence);
    var e :| Newest(SetOf(f.entries), user, sequence, e)
      && (r.Found? ==> e.key.kind.Value? && e.value == r.value) && (r.Deleted? ==> e.key.kind.Deletion?);
    FoundIsNewest(levels, l, f, e, user, sequence);
  }

  lemma NotInRunIsBlind(f: File, user: UserKey, sequence: Sequence)
    requires ValidFile(f) && FindInRun(f.entries, user, sequence) == NotFound
    ensures Blind(f, user, sequence)
  {
    RunAnswers(f.entries, user, sequence);
  }

  lemma LevelContents(levels: Levels, l: nat)
    requires l < |levels|
    ensures Contents(levels[l]) <= VersionEntries(levels)
  {
  }

  /** Reads the files `search` of one level in order, stopping at the first answer. */
  method SearchLevel(levels: Levels, ghost nextFile: nat, level: nat, search: seq<File>, user: UserKey,
                     sequence: Sequence)
    returns (r: Saver)
    requires ValidVersion(levels, nextFile) && level < |levels|
    requires Subset(search, levels[level])
    requires forall m, g :: 0 <= m < level && g in levels[m] ==> Blind(g, user, sequence)
    requires level == 0 ==> NewestFirst(search) && Covers(levels[0], search, user)
    requires level > 0 ==> |search| <= 1 && SearchedOne(levels[level], search, user, sequence)
    ensures r == NotFound ==> forall g :: g in levels[level] ==> Blind(g, user, sequence)
    ensures r != NotFound ==> Answers(VersionEntries(levels), user, sequence, r)
  {
    hide AgeOrdered, ValidFile, Blind, Newer, Answers, FindInRun, SearchedOne, Numbered, DistinctSequences, ListingOf;
    r := NotFound;
    for i := 0 to |search|
      invariant r == NotFound
      invariant forall k :: 0 <= k < i ==> FindInRun(search[k].entries, user, sequence) == NotFound
    {
      var f := search[i];
      assert f in levels[level] && ValidFile(f);
      r := FindInRun(f.entries, user, sequence);
      if r != NotFound {
        forall g | g in levels[level] && g != f ensures Blind(g, user, sequence) || Newer(f.entries, g.entries) {
          OthersBlindOrOlder(levels, nextFile, level, search, i, user, sequence, g);
        }
        AnswerLifts(levels, level, f, user, sequence);
        return;
      }
    }
    forall g | g in levels[level] ensures Blind(g, user, sequence) {
      if g in search {
        NotInRunIsBlind(g, user, sequence);
      } else {
        UnsearchedIsBlind(levels, nextFile, level, search, user, sequence, g);
      }
    }
  }

  lemma UnsearchedIsBlind(levels: Levels, nextFile: nat, level: nat, search: seq<File>,
                          user: UserKey, sequence: Sequence, g: File)
    requires ValidVersion(levels, nextFile) && level < |levels|
    requires level == 0 ==> Covers(levels[0], search, user)
    requires level > 0 ==> |search| <= 1 && SearchedOne(levels[level], search, user, sequence)
    requires forall f :: f in search ==> FindInRun(f.entries, user, sequence) == NotFound
    requires g in levels[level] && g !in search
    ensures Blind(g, user, sequence)
  {
    hide AgeOrdered, Blind, Newer, FindInRun, SearchedOne, Numbered, VersionEntries, Ordered, ListingOf, Contents,
         Sorted;
    if level == 0 {
      OutsideIsBlind(g, user, sequence);
    } else {
      LevelContents(levels, level);
      OrderedLevelRest(levels[level], search, user, sequence, g);
      assert search != [] ==> search[0] in search;
    }
  }

  lemma OthersBlindOrOlder(levels: Levels, nextFile: nat, level: nat, search: seq<File>, i: nat,
                           user: UserKey, sequence: Sequence, g: File)
    requires ValidVersion(levels, nextFile) && level < |levels| && i < |search|
    requires Subset(search, levels[level])
    requires level == 0 ==> NewestFirst(search) && Covers(levels[0], search, user)
    requires level > 0 ==> |search| <= 1 && SearchedOne(levels[level], search, user, sequence)
    requires forall k :: 0 <= k < i ==> FindInRun(search[k].entries, user, sequence) == NotFound
    requires g in levels[level] && g != search[i]
    ensures Blind(g, user, sequence) || Newer(search[i].entries, g.entries)
  {
    hide AgeOrdered, Blind, Newer, FindInRun, SearchedOne, VersionEntries, Ordered, ListingOf, Contents, Sorted,
         NewestFirst;
    if level > 0 {
      LevelContents(levels, level);
      OrderedLevelRest(levels[level], search, user, sequence, g);
    } else if g in search {
      var k :| 0 <= k < |search| && search[k] == g;
      if k < i {
        NotInRunIsBlind(g, user, sequence);
      } else {
        LaterIsOlder(levels, nextFile, search, i, k);
      }
    } else {
      OutsideIsBlind(g, user, sequence);
    }
  }

  lemma LaterIsOlder(levels: Levels, nextFile: nat, search: seq<File>, i: nat, k: nat)
    requires ValidVersion(levels, nextFile) && Subset(search, levels[0]) && NewestFirst(search)
    requires i < k < |search| && search[k] != search[i]
    ensures Newer(search[i].entries, search[k].entries)
  {
    hide AgeOrdered, Newer, VersionEntries, Ordered, ListingOf;
    assert search[i] in levels[0] && search[k] in levels[0];
    assert search[i].number >= search[k].number;
  }

  /** A lookup in a version, level by level; the first level that answers is right. */
  method VersionGet(levels: Levels, ghost nextFile: nat, user: UserKey, sequence: Sequence) returns (r: Saver)
    requires ValidVersion(levels, nextFile)
    ensures Answers(VersionEntries(levels), user, sequence, r)
  {
    hide AgeOrdered, AgeNumbered, AllValid, Blind, Numbered, DistinctSequences, SearchedOne, Answers, Ordered,
         ListingOf;
    for level := 0 to |levels|
      invariant forall m, g :: 0 <= m < level && g in levels[m] ==> Blind(g, user, sequence)
    {
      var files := FilesToSearch(level, levels[level], user, sequence);
      r := SearchLevel(levels, nextFile, level, files, user, sequence);
      if r != NotFound {
        return;
      }
    }
    AllBlind(levels, user, sequence);
    return NotFound;
  }

  lemma AllBlind(levels: Levels, user: UserKey, sequence: Sequence)
    requires forall m, g :: 0 <= m < |levels| && g in levels[m] ==> Blind(g, user, sequence)
    ensures Answers(VersionEntries(levels), user, sequence, NotFound)
  {
    forall e | e in VersionEntries(levels) && e.key.user == user ensures e.key.sequence > sequence {
      var m, g :| 0 <= m < |levels| && g in levels[m] && e in g.entries;
      assert Blind(g, user, sequence) && e in SetOf(g.entries);
    }
  }
}
