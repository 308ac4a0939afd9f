/** The bytes of a version edit in the manifest, and reading them back. */
module VersionEdits {
  import opened Keys
  import opened Coding
  import opened Bytewise
  import Files

  // ------------------------------------------------------------------------ internal keys

  /** An internal key as stored: the user key and eight bytes of tag. */
  function KeyBytes(k: ByteKey): Bytes {
    k.user + Fixed(256 * k.sequence + (if k.kind.Value? then 1 else 0), 8)
  }

  function ParseKey(s: Bytes): (r: Option<ByteKey>)
    ensures r.Some? ==> |s| >= 8 && r.value.user == s[..|s| - 8]
  {
    if |s| < 8 then None else
      var tag := FixedValue(s[|s| - 8..]);
      FixedValueBound(s[|s| - 8..]);
      if tag % 256 > 1 then None
      else Some(ByteKey(s[..|s| - 8], tag / 256, if tag % 256 == 1 then Value else Deletion))
  }

  lemma FixedValueBound(s: Bytes)
    requires |s| == 8
    ensures FixedValue(s) / 256 <= MAX_SEQUENCE
  {
    FixedValueBelow(s);
    PowersOf256();
  }

  lemma {:induction false} FixedOfValue(s: Bytes)
    ensures Fixed(FixedValue(s), |s|) == s
  {
    if s != [] {
      FixedOfValue(s[1..]);
      assert FixedValue(s) % 256 == s[0] && FixedValue(s) / 256 == FixedValue(s[1..]);
    }
  }

  /** Parsing inverts storing, and accepts nothing else. */
  lemma ParsesExactlyKeys(s: Bytes, k: ByteKey)
    ensures ParseKey(s) == Some(k) <==> s == KeyBytes(k)
  {
    hide Fixed, FixedValue, Power256;
    var tag := 256 * k.sequence + (if k.kind.Value? then 1 else 0);
    Fixed64RoundTrip(tag);
    var all := KeyBytes(k);
    assert all[|all| - 8..] == Fixed(tag, 8) && all[..|all| - 8] == k.user;
    if ParseKey(s) == Some(k) {
      FixedOfValue(s[|s| - 8..]);
      assert s == s[..|s| - 8] + s[|s| - 8..];
      assert FixedValue(s[|s| - 8..]) == tag;
    }
  }

  // ------------------------------------------------------------------------------- edits

  datatype FileMeta = FileMeta(number: nat, size: nat, smallest: Bytes, largest: Bytes)

  /** Deleted files are a sorted set of level and number. */
  datatype Edit = Edit(comparator: Option<Bytes>, logNumber: Option<nat>, prevLogNumber: Option<nat>,
                       nextFileNumber: Option<nat>, lastSequence: Option<nat>,
                       compactPointers: seq<(nat, Bytes)>, deletedFiles: seq<(nat, nat)>,
                       newFiles: seq<(nat, FileMeta)>)

  const FRESH: Edit := Edit(None, None, None, None, None, [], [], [])

  datatype Field =
    | Comparator(name: Bytes)
    | LogNumber(n: nat)
    | PrevLogNumber(n: nat)
    | NextFileNumber(n: nat)
    | LastSequence(n: nat)
    | CompactPointer(level: nat, key: Bytes)
    | DeletedFile(level: nat, number: nat)
    | NewFile(level: nat, file: FileMeta)

  function PairBefore(a: (nat, nat), b: (nat, nat)): bool {
    a.0 < b.0 || (a.0 == b.0 && a.1 < b.1)
  }

  ghost predicate Increasing(pairs: seq<(nat, nat)>) {
    forall i, j :: 0 <= i < j < |pairs| ==> PairBefore(pairs[i], pairs[j])
  }

  function InsertPair(pairs: seq<(nat, nat)>, p: (nat, nat)): seq<(nat, nat)> {
    if pairs == [] then [p]
    else if PairBefore(p, pairs[0]) then [p] + pairs
    else if p == pairs[0] then pairs
    else [pairs[0]] + InsertPair(pairs[1..], p)
  }

  /** What reading a field does to the edit. */
  function Apply(e: Edit, f: Field): Edit {
    match f
    case Comparator(name) => e.(comparator := Some(name))
    case LogNumber(n) => e.(logNumber := Some(n))
    case PrevLogNumber(n) => e.(prevLogNumber := Some(n))
    case NextFileNumber(n) => e.(nextFileNumber := Some(n))
    case LastSequence(n) => e.(lastSequence := Some(n))
    case CompactPointer(level, key) => e.(compactPointers := e.compactPointers + [(level, key)])
    case DeletedFile(level, number) => e.(deletedFiles := InsertPair(e.deletedFiles, (level, number)))
    case NewFile(level, file) => e.(newFiles := e.newFiles + [(level, file)])
  }

  function ApplyAll(e: Edit, fields: seq<Field>): Edit
    decreases fields
  {
    if fields == [] then e else ApplyAll(Apply(e, fields[0]), fields[1..])
  }

  // ---------------------------------------------------------------------------- encoding

  function TagOf(f: Field): Byte {
    match f
    case Comparator(_) => 1
    case LogNumber(_) => 2
    case NextFileNumber(_) => 3
    case LastSequence(_) => 4
    case CompactPointer(_, _) => 5
    case DeletedFile(_, _) => 6
    case NewFile(_, _) => 7
    case PrevLogNumber(_) => 9
  }

  function Payload(f: Field): Bytes {
    match f
    case Comparator(name) => Prefixed(name)
    case LogNumber(n) => Varint(n)
    case PrevLogNumber(n) => Varint(n)
    case NextFileNumber(n) => Varint(n)
    case LastSequence(n) => Varint(n)
    case CompactPointer(level, key) => Varint(level) + Prefixed(key)
    case DeletedFile(level, number) => Varint(level) + Varint(number)
    case NewFile(level, f) =>
      Varint(level) + Varint(f.number) + Varint(f.size) + Prefixed(f.smallest) + Prefixed(f.largest)
  }

  function FieldBytes(f: Field): (r: Bytes)
    ensures |r| > 0
  {
    Varint(TagOf(f)) + Payload(f)
  }

  function FieldsBytes(fields: seq<Field>): Bytes {
    if fields == [] then [] else FieldBytes(fields[0]) + FieldsBytes(fields[1..])
  }

  lemma {:induction false} FieldsAppend(a: seq<Field>, b: seq<Field>)
    ensures FieldsBytes(a + b) == FieldsBytes(a) + FieldsBytes(b)
  {
    hide FieldBytes;
    if a == [] {
      assert a + b == b;
    } else {
      assert (a + b)[1..] == a[1..] + b;
      FieldsAppend(a[1..], b);
    }
  }

  function PointerFields(pointers: seq<(nat, Bytes)>): (r: seq<Field>)
    ensures |r| == |pointers| && forall i :: 0 <= i < |r| ==> r[i] == CompactPointer(pointers[i].0, pointers[i].1)
  {
    if pointers == [] then [] else
      var n := |pointers| - 1;
      PointerFields(pointers[..n]) + [CompactPointer(pointers[n].0, pointers[n].1)]
  }

  function DeletedFields(pairs: seq<(nat, nat)>): (r: seq<Field>)
    ensures |r| == |pairs| && forall i :: 0 <= i < |r| ==> r[i] == DeletedFile(pairs[i].0, pairs[i].1)
  {
    if pairs == [] then [] else
      var n := |pairs| - 1;
      DeletedFields(pairs[..n]) + [DeletedFile(pairs[n].0, pairs[n].1)]
  }

  function NewFields(files: seq<(nat, FileMeta)>): (r: seq<Field>)
    ensures |r| == |files| && forall i :: 0 <= i < |r| ==> r[i] == NewFile(files[i].0, files[i].1)
  {
    if files == [] then [] else
      var n := |files| - 1;
      NewFields(files[..n]) + [NewFile(files[n].0, files[n].1)]
  }

  function Singles(e: Edit): seq<Field> {
    (if e.comparator.Some? then [Comparator(e.comparator.value)] else [])
    + (if e.logNumber.Some? then [LogNumber(e.logNumber.value)] else [])
    + (if e.prevLogNumber.Some? then [PrevLogNumber(e.prevLogNumber.value)] else [])
    + (if e.nextFileNumber.Some? then [NextFileNumber(e.nextFileNumber.value)] else [])
    + (if e.lastSequence.Some? then [LastSequence(e.lastSequence.value)] else [])
  }

  /** The fields in the order in which they are written. */
  function FieldsOf(e: Edit): seq<Field> {
    Singles(e) + PointerFields(e.compactPointers) + DeletedFields(e.deletedFiles) + NewFields(e.newFiles)
  }

  // ---------------------------------------------------------------------------- decoding

  datatype Parsed = Parsed(field: Field, rest: Bytes) | Bad(message: string)

  function ReadLevel(s: Bytes): (r: Option<(nat, Bytes)>)
    ensures r.Some? ==> |r.value.1| < |s| && r.value.0 < Files.NUM_LEVELS
  {
    match ReadVarint(s, 5)
    case None => None
    case Some((v, k)) => if v % TWO_TO_32 < Files.NUM_LEVELS then Some((v % TWO_TO_32, s[k..])) else None
  }

  function ReadComparator(s: Bytes): Parsed {
    match ReadPrefixed(s)
    case None => Bad("comparator name")
    case Some((name, rest)) => Parsed(Comparator(name), rest)
  }

  function ReadLogNumber(s: Bytes): Parsed {
    match ReadNumber(s)
    case None => Bad("log number")
    case Some((n, rest)) => Parsed(LogNumber(n), rest)
  }

  function ReadPrevLogNumber(s: Bytes): Parsed {
    match ReadNumber(s)
    case None => Bad("previous log number")
    case Some((n, rest)) => Parsed(PrevLogNumber(n), rest)
  }

  function ReadNextFileNumber(s: Bytes): Parsed {
    match ReadNumber(s)
    case None => Bad("next file number")
    case Some((n, rest)) => Parsed(NextFileNumber(n), rest)
  }

  function ReadLastSequence(s: Bytes): Parsed {
    match ReadNumber(s)
    case None => Bad("last sequence number")
    case Some((n, rest)) => Parsed(LastSequence(n), rest)
  }

  function ReadPointer(s: Bytes): Parsed {
    match ReadLevel(s)
    case None => Bad("compaction pointer")
    case Some((level, rest)) => (
      match ReadPrefixed(rest)
      case None => Bad("compaction pointer")
      case Some((key, rest)) => Parsed(CompactPointer(level, key), rest)
    )
  }

  function ReadDeleted(s: Bytes): Parsed {
    match ReadLevel(s)
    case None => Bad("deleted file")
    case Some((level, rest)) => (
      match ReadNumber(rest)
      case None => Bad("deleted file")
      case Some((number, rest)) => Parsed(DeletedFile(level, number), rest)
    )
  }

  function ReadNewFile(s: Bytes): Parsed {
    var bad := Bad("new-file entry");
    match ReadLevel(s)
    case None => bad
    case Some((level, rest)) => (
      match ReadNumber(rest)
      case None => bad
      case Some((number, rest)) => (
        match ReadNumber(rest)
        case None => bad
        case Some((size, rest)) => (
          match ReadPrefixed(rest)
          case None => bad
          case Some((smallest, rest)) => (
            match ReadPrefixed(rest)
            case None => bad
            case Some((largest, rest)) => Parsed(NewFile(level, FileMeta(number, size, smallest, largest)), rest)
          )
        )
      )
    )
  }

  function ReadPayload(tag: nat, s: Bytes): (r: Parsed)
    ensures r.Parsed? ==> |r.rest| < |s|
  {
    match tag
    case 1 => ReadComparator(s)
    case 2 => ReadLogNumber(s)
    case 3 => ReadNextFileNumber(s)
    case 4 => ReadLastSequence(s)
    case 5 => ReadPointer(s)
    case 6 => ReadDeleted(s)
    case 7 => ReadNewFile(s)
    case 9 => ReadPrevLogNumber(s)
    case _ => Bad("unknown tag")
  }

  /** The edit after the fields that can be read, and the complaint, if any. */
  function Decoded(e: Edit, input: Bytes): (Edit, Option<string>)
    decreases |input|
  {
    match ReadVarint(input, 5)
    case None => (e, if input == [] then None else Some("invalid tag"))
    case Some((tag, k)) =>
      match ReadPayload(tag % TWO_TO_32, input[k..])
      case Bad(message) => (e, Some(message))
      case Parsed(field, rest) => Decoded(Apply(e, field), rest)
  }

  // -------------------------------------------------------------------------- round trips

  /** What the types of an edit's fields allow. */
  predicate FieldFits(f: Field) {
    match f
    case Comparator(name) => |name| < TWO_TO_32
    case LogNumber(n) => n < TWO_TO_64
    case PrevLogNumber(n) => n < TWO_TO_64
    case NextFileNumber(n) => n < TWO_TO_64
    case LastSequence(n) => n < TWO_TO_64
    case CompactPointer(level, key) => level < TWO_TO_32 && |key| < TWO_TO_32
    case DeletedFile(level, number) => level < TWO_TO_32 && number < TWO_TO_64
    case NewFile(level, f) =>
      && level < TWO_TO_32 && f.number < TWO_TO_64 && f.size < TWO_TO_64
      && |f.smallest| < TWO_TO_32 && |f.largest| < TWO_TO_32
  }

  /** What the decoder asks for besides. */
  predicate LevelFits(f: Field) {
    (f.CompactPointer? || f.DeletedFile? || f.NewFile?) ==> f.level < Files.NUM_LEVELS
  }

  lemma LevelRoundTrip(level: nat, rest: Bytes)
    requires level < TWO_TO_32
    ensures ReadLevel(Varint(level) + rest) == if level < Files.NUM_LEVELS then Some((level, rest)) else None
  {
    hide Varint, ReadVarint, Power128;
    Power128Values();
    VarintRoundTrip(level, rest, 5);
    assert (Varint(level) + rest)[|Varint(level)|..] == rest;
  }

  lemma PointerRoundTrip(f: Field, rest: Bytes)
    requires f.CompactPointer? && FieldFits(f)
    ensures ReadPointer(Payload(f) + rest) == if LevelFits(f) then Parsed(f, rest) else Bad("compaction pointer")
  {
    hide Varint, ReadLevel, ReadPrefixed, Prefixed;
    assert Payload(f) + rest == Varint(f.level) + (Prefixed(f.key) + rest);
    LevelRoundTrip(f.level, Prefixed(f.key) + rest);
    PrefixedRoundTrip(f.key, rest);
  }

  lemma DeletedRoundTrip(f: Field, rest: Bytes)
    requires f.DeletedFile? && FieldFits(f)
    ensures ReadDeleted(Payload(f) + rest) == if LevelFits(f) then Parsed(f, rest) else Bad("deleted file")
  {
    hide Varint, ReadLevel, ReadNumber;
    assert Payload(f) + rest == Varint(f.level) + (Varint(f.number) + rest);
    LevelRoundTrip(f.level, Varint(f.number) + rest);
    NumberRoundTrip(f.number, rest);
  }

  lemma NewFileRoundTrip(field: Field, rest: Bytes)
    requires field.NewFile? && FieldFits(field)
    ensures ReadNewFile(Payload(field) + rest)
         == if LevelFits(field) then Parsed(field, rest) else Bad("new-file entry")
  {
    hide Varint, ReadLevel, ReadNumber, ReadPrefixed, Prefixed;
    var f := field.file;
    var after4 := Prefixed(f.largest) + rest;
    var after3 := Prefixed(f.smallest) + after4;
    var after2 := Varint(f.size) + after3;
    var after1 := Varint(f.number) + after2;
    assert Payload(field) + rest == Varint(field.level) + after1;
    LevelRoundTrip(field.level, after1);
    NumberRoundTrip(f.number, after2);
    NumberRoundTrip(f.size, after3);
    PrefixedRoundTrip(f.smallest, after4);
    PrefixedRoundTrip(f.largest, rest);
  }

  lemma PayloadRoundTrip(f: Field, rest: Bytes)
    requires FieldFits(f)
    ensures LevelFits(f) ==> ReadPayload(TagOf(f), Payload(f) + rest) == Parsed(f, rest)
    ensures !LevelFits(f) ==> ReadPayload(TagOf(f), Payload(f) + rest).Bad?
  {
    hide Varint, ReadNumber, ReadPrefixed, Prefixed, ReadPointer, ReadDeleted, ReadNewFile;
    match f {
      case Comparator(name) => PrefixedRoundTrip(name, rest);
      case LogNumber(n) => NumberRoundTrip(n, rest);
      case PrevLogNumber(n) => NumberRoundTrip(n, rest);
      case NextFileNumber(n) => NumberRoundTrip(n, rest);
      case LastSequence(n) => NumberRoundTrip(n, rest);
      case CompactPointer(_, _) => PointerRoundTrip(f, rest);
      case DeletedFile(_, _) => DeletedRoundTrip(f, rest);
      case NewFile(_, _) => NewFileRoundTrip(f, rest);
    }
  }

  lemma FieldRoundTrip(e: Edit, f: Field, rest: Bytes)
    requires FieldFits(f)
    ensures LevelFits(f) ==> Decoded(e, FieldBytes(f) + rest) == Decoded(Apply(e, f), rest)
    ensures !LevelFits(f) ==> Decoded(e, FieldBytes(f) + rest).1.Some?
  {
    hide Varint, Payload, ReadPayload, Apply, FieldFits, LevelFits, Power128;
    var tag := Varint(TagOf(f));
    assert FieldBytes(f) + rest == tag + (Payload(f) + rest);
    Power128Values();
    VarintRoundTrip(TagOf(f), Payload(f) + rest, 5);
    assert (tag + (Payload(f) + rest))[|tag|..] == Payload(f) + rest;
    PayloadRoundTrip(f, rest);
  }

  lemma NothingDecodes(e: Edit)
    ensures Decoded(e, []) == (e, None)
  {
  }

  lemma {:induction false} FieldsRoundTrip(e: Edit, fields: seq<Field>)
    requires forall i :: 0 <= i < |fields| ==> FieldFits(fields[i])
    ensures (forall i :: 0 <= i < |fields| ==> LevelFits(fields[i])) ==>
              Decoded(e, FieldsBytes(fields)) == (ApplyAll(e, fields), None)
    ensures (exists i :: 0 <= i < |fields| && !LevelFits(fields[i])) ==> Decoded(e, FieldsBytes(fields)).1.Some?
    decreases fields
  {
    hide FieldBytes, Decoded, Apply, FieldFits, LevelFits;
    if fields == [] {
      NothingDecodes(e);
    } else {
      FieldRoundTrip(e, fields[0], FieldsBytes(fields[1..]));
      FieldsRoundTrip(Apply(e, fields[0]), fields[1..]);
    }
  }

  lemma {:induction false} ApplyAllAppend(e: Edit, a: seq<Field>, b: seq<Field>)
    ensures ApplyAll(e, a + b) == ApplyAll(ApplyAll(e, a), b)
    decreases a
  {
    hide Apply;
    if a == [] {
      assert a + b == b;
    } else {
      assert (a + b)[1..] == a[1..] + b;
      ApplyAllAppend(Apply(e, a[0]), a[1..], b);
    }
  }

  lemma ApplyLast(e: Edit, a: seq<Field>, f: Field)
    ensures ApplyAll(e, a + [f]) == Apply(ApplyAll(e, a), f)
  {
    hide Apply;
    ApplyAllAppend(e, a, [f]);
    assert [f][1..] == [];
  }

  lemma {:induction false} PointersApply(e: Edit, pointers: seq<(nat, Bytes)>)
    ensures ApplyAll(e, PointerFields(pointers)) == e.(compactPointers := e.compactPointers + pointers)
  {
    hide ApplyAll;
    if pointers == [] {
      AppliesNothing(e);
      assert e.compactPointers + [] == e.compactPointers;
    } else {
      var n := |pointers| - 1;
      PointersApply(e, pointers[..n]);
      ApplyLast(e, PointerFields(pointers[..n]), CompactPointer(pointers[n].0, pointers[n].1));
      assert e.compactPointers + pointers == e.compactPointers + pointers[..n] + [pointers[n]];
    }
  }

  lemma AppliesNothing(e: Edit)
    ensures ApplyAll(e, []) == e
  {
  }

  lemma {:induction false} NewFilesApply(e: Edit, files: seq<(nat, FileMeta)>)
    ensures ApplyAll(e, NewFields(files)) == e.(newFiles := e.newFiles + files)
  {
    hide ApplyAll;
    if files == [] {
      AppliesNothing(e);
      assert e.newFiles + [] == e.newFiles;
    } else {
      var n := |files| - 1;
      NewFilesApply(e, files[..n]);
      ApplyLast(e, NewFields(files[..n]), NewFile(files[n].0, files[n].1));
      assert e.newFiles + files == e.newFiles + files[..n] + [files[n]];
    }
  }

  /** Inserting behind all others. */
  lemma {:induction false} InsertLast(pairs: seq<(nat, nat)>, p: (nat, nat))
    requires forall i :: 0 <= i < |pairs| ==> PairBefore(pairs[i], p)
    ensures InsertPair(pairs, p) == pairs + [p]
  {
    if pairs != [] {
      InsertLast(pairs[1..], p);
      assert PairBefore(pairs[0], p);
    }
  }

  lemma {:induction false} DeletedFilesApply(e: Edit, pairs: seq<(nat, nat)>)
    requires e.deletedFiles == [] && Increasing(pairs)
    ensures ApplyAll(e, DeletedFields(pairs)) == e.(deletedFiles := pairs)
  {
    hide ApplyAll, InsertPair;
    if pairs == [] {
      AppliesNothing(e);
    } else {
      var n := |pairs| - 1;
      DeletedFilesApply(e, pairs[..n]);
      ApplyLast(e, DeletedFields(pairs[..n]), DeletedFile(pairs[n].0, pairs[n].1));
      InsertLast(pairs[..n], pairs[n]);
    }
  }

  lemma SinglesApply(e: Edit, into: Edit)
    requires into.comparator.None? && into.logNumber.None? && into.prevLogNumber.None? && into.nextFileNumber.None?
    requires into.lastSequence.None?
    ensures ApplyAll(into, Singles(e)) == into.(comparator := e.comparator, logNumber := e.logNumber,
              prevLogNumber := e.prevLogNumber, nextFileNumber := e.nextFileNumber, lastSequence := e.lastSequence)
  {
    hide ApplyAll;
    var a := if e.comparator.Some? then [Comparator(e.comparator.value)] else [];
    var b := if e.logNumber.Some? then [LogNumber(e.logNumber.value)] else [];
    var c := if e.prevLogNumber.Some? then [PrevLogNumber(e.prevLogNumber.value)] else [];
    var d := if e.nextFileNumber.Some? then [NextFileNumber(e.nextFileNumber.value)] else [];
    var l := if e.lastSequence.Some? then [LastSequence(e.lastSequence.value)] else [];
    AppliesOptional(into, a);
    var into1 := ApplyAll(into, a);
    ApplyAllAppend(into, a, b);
    AppliesOptional(into1, b);
    var into2 := ApplyAll(into1, b);
    ApplyAllAppend(into, a + b, c);
    AppliesOptional(into2, c);
    var into3 := ApplyAll(into2, c);
    ApplyAllAppend(into, a + b + c, d);
    AppliesOptional(into3, d);
    ApplyAllAppend(into, a + b + c + d, l);
    AppliesOptional(ApplyAll(into3, d), l);
  }

  lemma AppliesOptional(e: Edit, fields: seq<Field>)
    requires |fields| <= 1
    ensures ApplyAll(e, fields) == if fields == [] then e else Apply(e, fields[0])
  {
    hide Apply;
    if fields != [] {
      assert fields[1..] == [];
    }
  }

  /** What Clear leaves: it forgets everything but the compaction pointers. */
  function Cleared(e: Edit): Edit {
    FRESH.(compactPointers := e.compactPointers)
  }

  lemma FieldsApply(e: Edit, into: Edit)
    requires Increasing(e.deletedFiles)
    ensures ApplyAll(Cleared(into), FieldsOf(e)) == e.(compactPointers := into.compactPointers + e.compactPointers)
  {
    hide ApplyAll, Increasing, Singles;
    var s, p, d := Singles(e), PointerFields(e.compactPointers), DeletedFields(e.deletedFiles);
    SinglesApply(e, Cleared(into));
    var e1 := ApplyAll(Cleared(into), s);
    ApplyAllAppend(Cleared(into), s, p);
    PointersApply(e1, e.compactPointers);
    var e2 := ApplyAll(e1, p);
    ApplyAllAppend(Cleared(into), s + p, d);
    DeletedFilesApply(e2, e.deletedFiles);
    var e3 := ApplyAll(e2, d);
    ApplyAllAppend(Cleared(into), s + p + d, NewFields(e.newFiles));
    NewFilesApply(e3, e.newFiles);
    assert [] + e.newFiles == e.newFiles;
  }

  ghost predicate EditFits(e: Edit) {
    Increasing(e.deletedFiles) && forall i :: 0 <= i < |FieldsOf(e)| ==> FieldFits(FieldsOf(e)[i])
  }

  ghost predicate LevelsFit(e: Edit) {
    && (forall i :: 0 <= i < |e.compactPointers| ==> e.compactPointers[i].0 < Files.NUM_LEVELS)
    && (forall i :: 0 <= i < |e.deletedFiles| ==> e.deletedFiles[i].0 < Files.NUM_LEVELS)
    && (forall i :: 0 <= i < |e.newFiles| ==> e.newFiles[i].0 < Files.NUM_LEVELS)
  }

  ghost predicate AllLevelsFit(fields: seq<Field>) {
    forall i :: 0 <= i < |fields| ==> LevelFits(fields[i])
  }

  lemma LevelsOfParts(a: seq<Field>, b: seq<Field>)
    ensures AllLevelsFit(a + b) <==> AllLevelsFit(a) && AllLevelsFit(b)
  {
    hide LevelFits;
    if AllLevelsFit(a + b) {
      forall i | 0 <= i < |a| ensures LevelFits(a[i]) {
        assert LevelFits((a + b)[i]);
      }
      forall i | 0 <= i < |b| ensures LevelFits(b[i]) {
        assert LevelFits((a + b)[|a| + i]);
      }
    }
  }

  lemma LevelsOfPointers(pointers: seq<(nat, Bytes)>)
    ensures AllLevelsFit(PointerFields(pointers)) <==> forall i :: 0 <= i < |pointers| ==>
      pointers[i].0 < Files.NUM_LEVELS
  {
    assert forall i :: 0 <= i < |pointers| ==>
      (LevelFits(PointerFields(pointers)[i]) <==> pointers[i].0 < Files.NUM_LEVELS);
  }

  lemma LevelsOfDeleted(pairs: seq<(nat, nat)>)
    ensures AllLevelsFit(DeletedFields(pairs)) <==> forall i :: 0 <= i < |pairs| ==> pairs[i].0 < Files.NUM_LEVELS
  {
    assert forall i :: 0 <= i < |pairs| ==> (LevelFits(DeletedFields(pairs)[i]) <==> pairs[i].0 < Files.NUM_LEVELS);
  }

  lemma LevelsOfNew(files: seq<(nat, FileMeta)>)
    ensures AllLevelsFit(NewFields(files)) <==> forall i :: 0 <= i < |files| ==> files[i].0 < Files.NUM_LEVELS
  {
    assert forall i :: 0 <= i < |files| ==> (LevelFits(NewFields(files)[i]) <==> files[i].0 < Files.NUM_LEVELS);
  }

  lemma LevelsAre(e: Edit)
    ensures LevelsFit(e) <==> AllLevelsFit(FieldsOf(e))
  {
    var s, p := Singles(e), PointerFields(e.compactPointers);
    var d, n := DeletedFields(e.deletedFiles), NewFields(e.newFiles);
    assert AllLevelsFit(s);
    hide AllLevelsFit, Singles;
    LevelsOfParts(s, p);
    LevelsOfParts(s + p, d);
    LevelsOfParts(s + p + d, n);
    LevelsOfPointers(e.compactPointers);
    LevelsOfDeleted(e.deletedFiles);
    LevelsOfNew(e.newFiles);
  }

  /** Decoding an encoded edit gives the edit back, behind the compaction pointers that were
      there already, exactly if all its levels exist; otherwise it complains. */
  lemma EditRoundTrip(e: Edit, into: Edit)
    requires EditFits(e)
    ensures LevelsFit(e) ==> Decoded(Cleared(into), FieldsBytes(FieldsOf(e)))
                              == (e.(compactPointers := into.compactPointers + e.compactPointers), None)
    ensures !LevelsFit(e) ==> Decoded(Cleared(into), FieldsBytes(FieldsOf(e))).1.Some?
  {
    hide Decoded, FieldsBytes, FieldsOf, FieldFits, LevelFits, LevelsFit, Cleared;
    LevelsAre(e);
    FieldsRoundTrip(Cleared(into), FieldsOf(e));
    FieldsApply(e, into);
  }

  /** The encoder writes down any level, the decoder knows only those there are: deleting a
      file of level 7 takes three bytes that do not decode. */
  lemma MissingLevelIsRefused()
    ensures var e := FRESH.(deletedFiles := [(7, 1)]);
      EditFits(e) && FieldsBytes(FieldsOf(e)) == [6, 7, 1] && Decoded(FRESH, [6, 7, 1]) == (FRESH, Some("deleted file"))
  {
    var e := FRESH.(deletedFiles := [(7, 1)]);
    assert DeletedFields([]) == [] && [(7, 1)][..0] == [];
    assert DeletedFields([(7, 1)]) == [DeletedFile(7, 1)];
    assert FieldsOf(e) == [DeletedFile(7, 1)];
    assert FieldBytes(DeletedFile(7, 1)) == [6, 7, 1];
    OneField(DeletedFile(7, 1));
    assert ReadVarint([6, 7, 1], 5) == Some((6, 1)) && [6, 7, 1][1..] == [7, 1];
    assert ReadVarint([7, 1], 5) == Some((7, 1));
    assert ReadPayload(6, [7, 1]) == Bad("deleted file");
  }

  // ----------------------------------------------------------------------------- the class

  class VersionEdit {
    var edit: Edit

    constructor ()
      ensures edit == FRESH
    {
      edit := FRESH;
    }

    method Clear()
      modifies this
      ensures edit == Cleared(old(edit))
    {
      edit := edit.(comparator := None, logNumber := None, prevLogNumber := None, nextFileNumber := None,
                    lastSequence := None, deletedFiles := [], newFiles := []);
    }

    method EncodeSingles(dst: Bytes) returns (r: Bytes)
      ensures r == dst + FieldsBytes(Singles(edit))
    {
      hide Varint, FieldsBytes, FieldBytes;
      ghost var written: seq<Field> := [];
      r := dst;
      assert FieldsBytes([]) == [] by { NoFields(); }
      if edit.comparator.Some? {
        r := Put(r, dst, written, Comparator(edit.comparator.value));
        written := written + [Comparator(edit.comparator.value)];
      }
      if edit.logNumber.Some? {
        r := Put(r, dst, written, LogNumber(edit.logNumber.value));
        written := written + [LogNumber(edit.logNumber.value)];
      }
      if edit.prevLogNumber.Some? {
        r := Put(r, dst, written, PrevLogNumber(edit.prevLogNumber.value));
        written := written + [PrevLogNumber(edit.prevLogNumber.value)];
      }
      if edit.nextFileNumber.Some? {
        r := Put(r, dst, written, NextFileNumber(edit.nextFileNumber.value));
        written := written + [NextFileNumber(edit.nextFileNumber.value)];
      }
      if edit.lastSequence.Some? {
        r := Put(r, dst, written, LastSequence(edit.lastSequence.value));
        written := written + [LastSequence(edit.lastSequence.value)];
      }
      assert written == Singles(edit);
    }

    /** Appends the fields that are set, then the lists, to dst. */
    method EncodeTo(dst: Bytes) returns (r: Bytes)
      ensures r == dst + FieldsBytes(FieldsOf(edit))
    {
      hide *;
      r := EncodeSingles(dst);
      ghost var pointers := PointerFields(edit.compactPointers);
      ghost var before := Singles(edit);
      assert before + pointers[..0] == before;
      for i := 0 to |edit.compactPointers|
        invariant r == dst + FieldsBytes(before + pointers[..i])
      {
        r := Put(r, dst, before + pointers[..i], CompactPointer(edit.compactPointers[i].0, edit.compactPointers[i].1));
        assert before + pointers[..i + 1] == before + pointers[..i] + [pointers[i]];
      }
      ghost var deleted := DeletedFields(edit.deletedFiles);
      before := before + pointers;
      assert before + deleted[..0] == Singles(edit) + pointers[..|pointers|];
      for i := 0 to |edit.deletedFiles|
        invariant r == dst + FieldsBytes(before + deleted[..i])
      {
        r := Put(r, dst, before + deleted[..i], DeletedFile(edit.deletedFiles[i].0, edit.deletedFiles[i].1));
        assert before + deleted[..i + 1] == before + deleted[..i] + [deleted[i]];
      }
      ghost var added := NewFields(edit.newFiles);
      assert before + deleted + added[..0] == before + deleted[..|deleted|];
      before := before + deleted;
      for i := 0 to |edit.newFiles|
        invariant r == dst + FieldsBytes(before + added[..i])
      {
        r := Put(r, dst, before + added[..i], NewFile(edit.newFiles[i].0, edit.newFiles[i].1));
        assert before + added[..i + 1] == before + added[..i] + [added[i]];
      }
      assert before + added[..|added|] == FieldsOf(edit) by { FieldsAre(edit); }
    }

    /** Reads fields until the input ends or a field is bad. */
    method DecodeFrom(src: Bytes) returns (message: Option<string>)
      modifies this
      ensures (edit, message) == Decoded(Cleared(old(edit)), src)
    {
      hide ReadPayload, ReadVarint, Apply;
      Clear();
      var input := src;
      while true
        invariant Decoded(edit, input) == Decoded(Cleared(old(edit)), src)
        decreases |input|
      {
        var tag, rest := GetVarint(input, 5, TWO_TO_32);
        if tag.None? {
          return if input == [] then None else Some("invalid tag");
        }
        match ReadPayload(tag.value, rest) {
          case Bad(bad) => return Some(bad);
          case Parsed(field, after) =>
            edit, input := Apply(edit, field), after;
        }
      }
    }
  }

  method Put(r: Bytes, ghost dst: Bytes, ghost written: seq<Field>, f: Field) returns (longer: Bytes)
    requires r == dst + FieldsBytes(written)
    ensures longer == dst + FieldsBytes(written + [f])
  {
    hide Varint, Payload, FieldsBytes;
    longer := r + Varint(TagOf(f)) + Payload(f);
    FieldsAppend(written, [f]);
    OneField(f);
  }

  lemma OneField(f: Field)
    ensures FieldsBytes([f]) == FieldBytes(f)
  {
    hide FieldBytes;
    assert [f][1..] == [];
  }

  lemma NoFields()
    ensures FieldsBytes([]) == []
  {
  }

  lemma FieldsAre(e: Edit)
    ensures FieldsOf(e)
         == Singles(e) + PointerFields(e.compactPointers) + DeletedFields(e.deletedFiles) + NewFields(e.newFiles)
  {
  }
}
