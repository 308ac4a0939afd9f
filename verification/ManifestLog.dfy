/** The manifest as bytes: every edit is a record of a log, and a database is recovered from
    whatever a crash leaves of that log. */
module ManifestLog {
  import opened Keys
  import opened Coding
  import opened Bytewise
  import opened Checksums
  import opened Files
  import opened Versions
  import opened Manifest
  import opened VersionSets
  import VersionEdits
  import Log

  // ------------------------------------------------------------------ what the bytes stand for

  /** The entries of the table files, by their numbers. */
  type Tables = map<nat, seq<Entry>>

  predicate KeyStored(s: Bytes) {
    VersionEdits.ParseKey(s).Some?
  }

  function StoredKey(s: Bytes): InternalKey
    requires KeyStored(s)
  {
    KeyRank(VersionEdits.ParseKey(s).value)
  }

  predicate FileStored(f: VersionEdits.FileMeta) {
    KeyStored(f.smallest) && KeyStored(f.largest) && !Less(StoredKey(f.largest), StoredKey(f.smallest))
  }

  function StoredFile(f: VersionEdits.FileMeta, tables: Tables): File
    requires FileStored(f)
  {
    FileData(f.number, f.size, StoredKey(f.smallest), StoredKey(f.largest),
             if f.number in tables then tables[f.number] else [])
  }

  /** An edit of the levels there are, with internal keys where there should be some. */
  ghost predicate Stored(e: VersionEdits.Edit) {
    && VersionEdits.LevelsFit(e)
    && (forall i :: 0 <= i < |e.compactPointers| ==> KeyStored(e.compactPointers[i].1))
    && forall i :: 0 <= i < |e.newFiles| ==> FileStored(e.newFiles[i].1)
  }

  /** What the version set makes of a decoded edit. */
  function Meaning(e: VersionEdits.Edit, tables: Tables): (r: Edit)
    requires Stored(e)
    ensures WellFormed(r)
  {
    Edit(if e.comparator.Some? then Some(Text(e.comparator.value)) else None,
         e.logNumber, e.prevLogNumber, e.nextFileNumber, e.lastSequence,
         seq(|e.compactPointers|, i requires 0 <= i < |e.compactPointers| =>
           Pointer(e.compactPointers[i].0, StoredKey(e.compactPointers[i].1))),
         set d | d in e.deletedFiles :: DeletedFile(d.0, d.1),
         seq(|e.newFiles|, i requires 0 <= i < |e.newFiles| =>
           NewFile(e.newFiles[i].0, StoredFile(e.newFiles[i].1, tables))))
  }

  ghost predicate AllStored(edits: seq<VersionEdits.Edit>) {
    forall i :: 0 <= i < |edits| ==> Stored(edits[i]) && VersionEdits.EditFits(edits[i])
  }

  ghost function Meanings(edits: seq<VersionEdits.Edit>, tables: Tables): (r: seq<Edit>)
    requires AllStored(edits)
    ensures |r| == |edits| && forall i :: 0 <= i < |r| ==> r[i] == Meaning(edits[i], tables)
  {
    seq(|edits|, i requires 0 <= i < |edits| => Meaning(edits[i], tables))
  }

  function Record(e: VersionEdits.Edit): Bytes {
    VersionEdits.FieldsBytes(VersionEdits.FieldsOf(e))
  }

  ghost function Records(edits: seq<VersionEdits.Edit>): (r: seq<Bytes>)
    ensures |r| == |edits| && forall i :: 0 <= i < |r| ==> r[i] == Record(edits[i])
  {
    seq(|edits|, i requires 0 <= i < |edits| => Record(edits[i]))
  }

  /** The bytes of the manifest after these edits. */
  ghost function ManifestBytes(extend: Extend, edits: seq<VersionEdits.Edit>): Bytes {
    Log.Written(extend, Records(edits))
  }

  lemma RecordDecodes(e: VersionEdits.Edit)
    requires Stored(e) && VersionEdits.EditFits(e)
    ensures VersionEdits.Decoded(VersionEdits.Cleared(VersionEdits.FRESH), Record(e)) == (e, None)
  {
    hide VersionEdits.Decoded, VersionEdits.FieldsBytes, VersionEdits.FieldsOf, VersionEdits.LevelsFit;
    VersionEdits.EditRoundTrip(e, VersionEdits.FRESH);
    assert [] + e.compactPointers == e.compactPointers;
  }

  // ---------------------------------------------------------------------------- recovering

  /** A shorter manifest goes through the same versions. */
  lemma HistoryFront(manifest: seq<Edit>, history: seq<Levels>, n: nat)
    requires History(manifest, history) && n <= |manifest|
    ensures n + 1 <= |history| && History(manifest[..n], history[..n + 1])
  {
    hide FreshIn, Applied;
    var front := manifest[..n];
    forall k, l | 0 <= k < n && 0 <= l < NUM_LEVELS
      ensures FreshIn(AsSet(NO_FILES[l]) + AddedFold(front[..k], l), front[k], l)
    {
      assert front[..k] == manifest[..k];
    }
    forall k | 0 <= k < n ensures Applied(history[..n + 1][k], history[..n + 1][k + 1], front[k]) {
      assert Applied(history[k], history[k + 1], manifest[k]);
    }
  }

  /** Decodes records, each into an edit of its own. */
  method DecodeRecords(records: seq<Bytes>, tables: Tables,
                       ghost edits: seq<VersionEdits.Edit>) returns (manifest: seq<Edit>)
    requires AllStored(edits) && records == Records(edits)
    ensures manifest == Meanings(edits, tables)
  {
    hide Stored, VersionEdits.EditFits, VersionEdits.Decoded, Record, Meaning;
    manifest := [];
    for i := 0 to |records|
      invariant |manifest| == i && forall k :: 0 <= k < i ==> manifest[k] == Meaning(edits[k], tables)
    {
      RecordDecodes(edits[i]);
      var edit := new VersionEdits.VersionEdit();
      var message := edit.DecodeFrom(records[i]);
      manifest := manifest + [Meaning(edit.edit, tables)];
    }
  }

  lemma FrontOfRecords(edits: seq<VersionEdits.Edit>, tables: Tables, n: nat)
    requires AllStored(edits) && n <= |edits|
    ensures AllStored(edits[..n]) && Records(edits[..n]) == Records(edits)[..n]
    ensures Meanings(edits[..n], tables) == Meanings(edits, tables)[..n]
  {
    hide Stored, VersionEdits.EditFits, Record, Meaning;
  }

  /** What a version set with a fresh start knows after a manifest. */
  ghost predicate Recovered(versions: VersionSet, manifest: seq<Edit>, version: Levels)
    requires AllWellFormed(manifest)
    reads versions
  {
    && versions.current == version && versions.compactPointers == PointerFold(manifest)
    && Some(versions.logNumber) == CounterFold(manifest).logNumber
    && Some(versions.prevLogNumber) == Later(Some(0), CounterFold(manifest).prevLogNumber)
    && Some(versions.lastSequence) == CounterFold(manifest).lastSequence
    && Some(versions.nextFileNumber - 1) == CounterFold(manifest).nextFileNumber
  }

  /** What it takes to recover: the comparator is the same and all counters were logged. */
  ghost predicate Recoverable(manifest: seq<Edit>, comparator: string) {
    && AllReadable(manifest, comparator) && CounterFold(manifest).nextFileNumber.Some?
    && CounterFold(manifest).logNumber.Some? && CounterFold(manifest).lastSequence.Some?
  }

  /** Recovers from the bytes of a manifest log, of which a crash may have left any front
      part: the version is that after the last edit whose record is there to its last byte. */
  method RecoverFromLog(versions: VersionSet, extend: Extend, file: Bytes, tables: Tables, reused: Option<nat>,
                        ghost edits: seq<VersionEdits.Edit>, ghost history: seq<Levels>)
    returns (status: Status, saveManifest: bool, ghost n: nat)
    requires versions.Valid() && versions.descriptor == None && versions.current == NO_FILES
    requires versions.compactPointers == NO_POINTERS
    requires AllStored(edits) && History(Meanings(edits, tables), history)
    requires file <= ManifestBytes(extend, edits)
    modifies versions
    ensures n <= |edits| && forall i :: 0 <= i < |edits| ==>
      (i < n <==> Log.EndOfRecord(extend, Records(edits), i) <= |file|)
    ensures versions.Valid() && (status.Ok? <==> Recoverable(Meanings(edits, tables)[..n], versions.comparator))
    ensures status.Ok? ==> Recovered(versions, Meanings(edits, tables)[..n], history[n])
    ensures !status.Ok? ==> versions.current == NO_FILES && versions.descriptor == None
  {
    hide Stored, VersionEdits.EditFits, Record, Meaning, Log.Written, Log.EndOfRecord, History, CounterFold,
         PointerFold, AllReadable,
         VersionSet.Valid;
    var records, corruptions := Log.ReadAll(extend, file, true, Records(edits));
    n := |records|;
    FrontOfRecords(edits, tables, n);
    HistoryFront(Meanings(edits, tables), history, n);
    var manifest := DecodeRecords(records, tables, edits[..n]);
    status, saveManifest := versions.Recover(manifest, history[..n + 1], reused);
  }

  // ------------------------------------------------------------------------------- logging

  /** An edit as it is encoded: with all counters. */
  function CompletedBytes(e: VersionEdits.Edit, logNumber: nat, prevLogNumber: nat, nextFileNumber: nat,
                          lastSequence: nat)
    : VersionEdits.Edit
  {
    e.(logNumber := Later(Some(logNumber), e.logNumber), prevLogNumber := Later(Some(prevLogNumber), e.prevLogNumber),
       nextFileNumber := Some(nextFileNumber), lastSequence := Some(lastSequence))
  }

  lemma CompletedMeans(e: VersionEdits.Edit, logNumber: nat, prevLogNumber: nat, nextFileNumber: nat, lastSequence: nat,
                       tables: Tables)
    requires Stored(e)
    ensures var c := CompletedBytes(e, logNumber, prevLogNumber, nextFileNumber, lastSequence);
      Stored(c) && Meaning(e, tables).logNumber == e.logNumber
      && Meaning(c, tables) == Completed(Meaning(e, tables), logNumber, prevLogNumber, nextFileNumber, lastSequence)
  {
  }

  lemma OneMoreRecord(edits: seq<VersionEdits.Edit>, e: VersionEdits.Edit, tables: Tables)
    requires AllStored(edits) && Stored(e) && VersionEdits.EditFits(e)
    ensures AllStored(edits + [e]) && Records(edits + [e]) == Records(edits) + [Record(e)]
    ensures Meanings(edits + [e], tables) == Meanings(edits, tables) + [Meaning(e, tables)]
  {
    hide Stored, VersionEdits.EditFits, Record, Meaning;
  }

  /** The open manifest of a version set, and the log file it is kept in. */
  ghost predicate InStep(versions: VersionSet, log: Log.Writer, edits: seq<VersionEdits.Edit>, tables: Tables)
    reads versions, log
  {
    && versions.Valid() && log.Valid() && AllStored(edits)
    && versions.descriptor == Some(Meanings(edits, tables)) && log.dest == ManifestBytes(log.extend, edits)
  }

  /** The log of an open manifest leads to the current version, so a crash leaves one of the
      versions on the way to it. */
  lemma LogLeadsToCurrent(versions: VersionSet, log: Log.Writer, edits: seq<VersionEdits.Edit>, tables: Tables)
    requires InStep(versions, log, edits, tables)
    ensures History(Meanings(edits, tables), versions.versions)
    ensures AllReadable(Meanings(edits, tables), versions.comparator)
    ensures versions.versions[|edits|] == versions.current
  {
    hide History, AllReadable, Meanings, AllStored;
  }

  method EncodeRecord(edit: VersionEdits.VersionEdit) returns (record: Bytes)
    ensures record == Record(edit.edit)
  {
    hide VersionEdits.FieldsBytes, VersionEdits.FieldsOf;
    record := edit.EncodeTo([]);
    assert [] + Record(edit.edit) == Record(edit.edit);
  }

  /** Applies an edit and appends its record to the open manifest. */
  method LogEdit(versions: VersionSet, log: Log.Writer, edit: VersionEdits.VersionEdit, tables: Tables,
                 ghost edits: seq<VersionEdits.Edit>)
    requires InStep(versions, log, edits, tables)
    requires Stored(edit.edit) && ComparatorFits(Meaning(edit.edit, tables), versions.comparator)
    requires var e := edit.edit;
      VersionEdits.EditFits(CompletedBytes(e, versions.logNumber, versions.prevLogNumber, versions.nextFileNumber,
                                           versions.lastSequence))
    requires edit.edit.logNumber.Some? ==> versions.logNumber <= edit.edit.logNumber.value < versions.nextFileNumber
    requires forall l :: 0 <= l < NUM_LEVELS ==> FreshIn(versions.EverAt(l), Meaning(edit.edit, tables), l)
    modifies versions, log, edit
    ensures edit.edit == CompletedBytes(old(edit.edit), old(versions.logNumber), old(versions.prevLogNumber),
                                        versions.nextFileNumber, versions.lastSequence)
    ensures InStep(versions, log, edits + [edit.edit], tables)
    ensures Stored(old(edit.edit)) && Applied(old(versions.current), versions.current, Meaning(old(edit.edit), tables))
    ensures old(log.dest) <= log.dest
    // From all of the log, everything comes back.
    ensures Recoverable(Meanings(edits + [edit.edit], tables), versions.comparator)
    ensures CounterFold(Meanings(edits + [edit.edit], tables))
         == Counters(Some(versions.logNumber), Some(versions.prevLogNumber), Some(versions.nextFileNumber),
                     Some(versions.lastSequence))
  {
    hide Stored, VersionEdits.EditFits, Record, Meaning, Log.Written, FreshIn, Applied, VersionSet.Valid,
         Log.Writer.Valid, CounterFold;
    ghost var e := edit.edit;
    CompletedMeans(e, versions.logNumber, versions.prevLogNumber, versions.nextFileNumber, versions.lastSequence,
                   tables);
    var meaning := Meaning(edit.edit, tables);
    edit.edit := CompletedBytes(edit.edit, versions.logNumber, versions.prevLogNumber, versions.nextFileNumber,
                                versions.lastSequence);
    OneMoreRecord(edits, edit.edit, tables);
    versions.LogAndApply(meaning);
    var record := EncodeRecord(edit);
    log.AddRecord(record);
    LogLeadsToCurrent(versions, log, edits + [edit.edit], tables);
  }
}
