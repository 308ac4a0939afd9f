/** Recovery of writes: replaying what a crash leaves of the log that the groups of writers
    went to. */
module DataLog {
  import opened Keys
  import opened Coding
  import opened Checksums
  import opened WriteBatches
  import opened Database
  import opened Files
  import opened Versions
  import GroupCommit
  import Runs
  import Bytewise
  import Log

  type Record = GroupCommit.Record

  /** What the formats need of a logged group. */
  ghost predicate RecordFits(r: Record) {
    AllFit(r.updates) && |r.updates| < TWO_TO_31 && 0 < r.first && r.first + |r.updates| <= MAX_SEQUENCE
  }

  ghost predicate AllRecordsFit(log: seq<Record>) {
    GroupCommit.LogFits(log) && forall i :: 0 <= i < |log| ==> RecordFits(log[i])
  }

  function RecordBytes(r: Record): Bytes {
    BatchBytes(r.first, r.updates)
  }

  ghost function LogRecords(log: seq<Record>): (r: seq<Bytes>)
    ensures |r| == |log| && forall i :: 0 <= i < |r| ==> r[i] == RecordBytes(log[i])
  {
    seq(|log|, i requires 0 <= i < |log| => RecordBytes(log[i]))
  }

  // ------------------------------------------------------------------------ one record

  lemma HeaderOf(r: Record)
    requires RecordFits(r)
    ensures |RecordBytes(r)| >= HEADER && FixedValue(RecordBytes(r)[..8]) == r.first
    ensures Iterated(RecordBytes(r)) == (r.updates, Status.Ok)
  {
    hide Iterated, Fixed, FixedValue, Records;
    CountIsStored(r.first, r.updates);
    Fixed64RoundTrip(r.first);
    IterateRoundTrip(r.first, r.updates);
  }

  lemma OneEntryMore(mem: seq<Entry>, first: nat, updates: seq<Update>, i: nat)
    requires i < |updates| && first + |updates| <= MAX_SEQUENCE
    ensures GroupCommit.InsertAll(mem, GroupCommit.EntriesFrom(first, updates[..i + 1]))
         == InsertSorted(GroupCommit.InsertAll(mem, GroupCommit.EntriesFrom(first, updates[..i])),
                         GroupCommit.EntryFor(first + i, updates[i]))
  {
    hide InsertSorted, GroupCommit.EntryFor;
    assert updates[..i + 1][..i] == updates[..i];
    var entries := GroupCommit.EntriesFrom(first, updates[..i]);
    var e := GroupCommit.EntryFor(first + i, updates[i]);
    assert (entries + [e])[..|entries|] == entries;
  }

  /** Inserts the updates of a logged batch under its sequence numbers. */
  method InsertInto(record: Bytes, mem: seq<Entry>, ghost r: Record) returns (mem': seq<Entry>, last: nat)
    requires RecordFits(r) && record == RecordBytes(r)
    ensures mem' == GroupCommit.InsertAll(mem, GroupCommit.EntriesFrom(r.first, r.updates))
    ensures last + 1 == r.first + |r.updates|
  {
    hide Iterated, FixedValue, InsertSorted, GroupCommit.EntryFor, GroupCommit.EntriesFrom, GroupCommit.InsertAll,
         RecordBytes;
    HeaderOf(r);
    var batch := new WriteBatch();
    batch.rep := record;
    var sequence := FixedValue(batch.rep[..8]);
    var calls, _ := batch.Iterate();
    mem' := mem;
    assert r.updates[..0] == [];
    NothingInserted(mem, r.first);
    for i := 0 to |calls|
      invariant mem' == GroupCommit.InsertAll(mem, GroupCommit.EntriesFrom(r.first, r.updates[..i]))
    {
      OneEntryMore(mem, r.first, r.updates, i);
      mem' := InsertSorted(mem', GroupCommit.EntryFor(sequence + i, calls[i]));
    }
    assert r.updates[..|calls|] == r.updates;
    last := sequence + |calls| - 1;
  }

  lemma NothingInserted(mem: seq<Entry>, first: nat)
    requires first <= MAX_SEQUENCE
    ensures GroupCommit.InsertAll(mem, GroupCommit.EntriesFrom(first, [])) == mem
  {
  }

  // ------------------------------------------------------------------------ the whole log

  /** Memtables in the order of their writes, each sorted, later ones newer. */
  ghost predicate InTurn(tables: seq<seq<Entry>>) {
    && (forall i :: 0 <= i < |tables| ==> Sorted(tables[i]))
    && forall i, j :: 0 <= i < j < |tables| ==> Newer(tables[j], tables[i])
  }

  ghost function AllOf(tables: seq<seq<Entry>>): set<Entry> {
    set t, e | t in tables && e in t :: e
  }

  lemma {:induction false} EntriesJoin(first: nat, a: seq<Update>, b: seq<Update>)
    requires first + |a| + |b| <= MAX_SEQUENCE
    ensures GroupCommit.EntriesFrom(first, a + b)
         == GroupCommit.EntriesFrom(first, a) + GroupCommit.EntriesFrom(first + |a|, b)
  {
    hide GroupCommit.EntryFor;
    if b == [] {
      assert a + b == a;
    } else {
      var n := |b| - 1;
      EntriesJoin(first, a, b[..n]);
      assert (a + b)[..|a + b| - 1] == a + b[..n];
    }
  }

  /** Inserting entries that come later, in their order. */
  lemma {:induction false} InsertedInTurn(run: seq<Entry>, entries: seq<Entry>, first: nat)
    requires Sorted(run) && forall x :: x in run ==> x.key.sequence < first
    requires forall i :: 0 <= i < |entries| ==> entries[i].key.sequence == first + i
    ensures Sorted(GroupCommit.InsertAll(run, entries))
    ensures forall x :: x in GroupCommit.InsertAll(run, entries) ==> x in run || x in entries
  {
    hide InsertSorted, Sorted;
    if entries != [] {
      var n := |entries| - 1;
      InsertedInTurn(run, entries[..n], first);
      var front := GroupCommit.InsertAll(run, entries[..n]);
      forall x | x in front ensures x.key.sequence < entries[n].key.sequence {
        if x !in run {
          var i :| 0 <= i < n && entries[i] == x;
        }
      }
      InsertMembers(front, entries[n]);
      assert forall x :: x in InsertSorted(front, entries[n]) ==> x in SetOf(front) + {entries[n]};
    }
  }

  /** What has been replayed of the log after n records. */
  ghost predicate Replayed(tables: seq<seq<Entry>>, log: seq<Record>, n: nat)
    requires n <= |log|
  {
    var updates := GroupCommit.LoggedUpdates(log[..n]);
    && 1 + |updates| <= MAX_SEQUENCE && tables != [] && InTurn(tables)
    && AllOf(tables) == SetOf(GroupCommit.EntriesFrom(1, updates))
  }

  lemma NothingReplayed(log: seq<Record>)
    ensures Replayed([[]], log, 0)
  {
    assert log[..0] == [];
    assert AllOf([[]]) == {} && SetOf([]) == {};
  }

  lemma LastTable(tables: seq<seq<Entry>>, mem: seq<Entry>)
    ensures AllOf(tables + [mem]) == AllOf(tables) + SetOf(mem)
  {
    forall e | e in AllOf(tables) + SetOf(mem) ensures e in AllOf(tables + [mem]) {
      if e in mem {
        assert mem in tables + [mem];
      } else {
        var t :| t in tables && e in t;
        assert t in tables + [mem];
      }
    }
  }

  lemma LoggedOneMore(log: seq<Record>, n: nat)
    requires n < |log|
    ensures GroupCommit.LoggedUpdates(log[..n + 1]) == GroupCommit.LoggedUpdates(log[..n]) + log[n].updates
  {
    assert log[..n + 1][..n] == log[..n];
  }

  /** Everything replayed so far was written earlier. */
  lemma ReplayedIsEarlier(tables: seq<seq<Entry>>, log: seq<Record>, n: nat, x: Entry)
    requires n <= |log| && Replayed(tables, log, n) && x in AllOf(tables)
    ensures x.key.sequence <= |GroupCommit.LoggedUpdates(log[..n])|
  {
    hide GroupCommit.EntriesFrom, InTurn;
    GroupCommit.EntriesAreNumbered(1, GroupCommit.LoggedUpdates(log[..n]));
  }

  lemma NewestTableStays(older: seq<seq<Entry>>, mem: seq<Entry>, mem': seq<Entry>, entries: seq<Entry>, last: nat)
    requires InTurn(older + [mem]) && Sorted(mem')
    requires forall x :: x in mem' ==> x in mem || x in entries
    requires forall x :: x in entries ==> x.key.sequence > last
    requires forall x :: x in AllOf(older + [mem]) ==> x.key.sequence <= last
    ensures InTurn(older + [mem'])
  {
    hide Sorted;
    var before, after := older + [mem], older + [mem'];
    forall i | 0 <= i < |older| ensures Newer(mem', older[i]) && Sorted(older[i]) {
      assert before[i] == older[i] && before[|older|] == mem && Newer(before[|older|], before[i]);
      assert older[i] in before;
      forall x, y | x in mem' && y in older[i] && x.key.user == y.key.user ensures x.key.sequence > y.key.sequence {
        assert y in AllOf(before);
      }
    }
    forall i, j | 0 <= i < j < |after| ensures Newer(after[j], after[i]) {
      if j < |older| {
        assert Newer(before[j], before[i]);
      }
    }
  }

  lemma NextRecord(log: seq<Record>, n: nat)
    requires n < |log| && AllRecordsFit(log)
    ensures var before, r := GroupCommit.LoggedUpdates(log[..n]), log[n];
      && RecordFits(r) && r.first == |before| + 1 && 1 + |before| + |r.updates| <= MAX_SEQUENCE
      && GroupCommit.LoggedUpdates(log[..n + 1]) == before + r.updates
      && GroupCommit.EntriesFrom(1, before + r.updates)
         == GroupCommit.EntriesFrom(1, before) + GroupCommit.EntriesFrom(r.first, r.updates)
  {
    LoggedOneMore(log, n);
    EntriesJoin(1, GroupCommit.LoggedUpdates(log[..n]), log[n].updates);
    hide GroupCommit.EntriesFrom, GroupCommit.LoggedUpdates, GroupCommit.AllUpdates;
  }

  /** Later entries inserted into the last table. */
  lemma InsertedIntoLast(older: seq<seq<Entry>>, mem: seq<Entry>, entries: seq<Entry>, last: nat)
    requires InTurn(older + [mem]) && forall x :: x in AllOf(older + [mem]) ==> x.key.sequence <= last
    requires forall i :: 0 <= i < |entries| ==> entries[i].key.sequence == last + 1 + i
    ensures var mem' := GroupCommit.InsertAll(mem, entries);
      InTurn(older + [mem']) && AllOf(older + [mem']) == AllOf(older + [mem]) + SetOf(entries)
  {
    var mem' := GroupCommit.InsertAll(mem, entries);
    LastTable(older, mem);
    LastTable(older, mem');
    assert (older + [mem])[|older|] == mem;
    GroupCommit.AllInsertedSet(mem, entries);
    hide GroupCommit.InsertAll, AllOf, Sorted;
    assert forall x :: x in mem ==> x in SetOf(mem);
    InsertedInTurn(mem, entries, last + 1);
    NewestTableStays(older, mem, mem', entries, last);
  }

  /** One more record replayed into the open memtable. */
  lemma OneMoreReplayed(older: seq<seq<Entry>>, mem: seq<Entry>, log: seq<Record>, n: nat)
    requires n < |log| && AllRecordsFit(log) && Replayed(older + [mem], log, n)
    ensures RecordFits(log[n]) && log[n].first == |GroupCommit.LoggedUpdates(log[..n])| + 1
    ensures Replayed(older + [GroupCommit.InsertAll(mem, GroupCommit.EntriesFrom(log[n].first, log[n].updates))], log,
                     n + 1)
  {
    NextRecord(log, n);
    var before, r := GroupCommit.LoggedUpdates(log[..n]), log[n];
    GroupCommit.EntriesAreNumbered(r.first, r.updates);
    hide GroupCommit.EntriesFrom, GroupCommit.InsertAll, GroupCommit.LoggedUpdates, AllOf, InTurn, AllRecordsFit,
         RecordFits;
    forall x | x in AllOf(older + [mem]) ensures x.key.sequence <= |before| {
      ReplayedIsEarlier(older + [mem], log, n, x);
    }
    InsertedIntoLast(older, mem, GroupCommit.EntriesFrom(r.first, r.updates), |before|);
  }

  lemma NewTable(tables: seq<seq<Entry>>, log: seq<Record>, n: nat)
    requires n <= |log| && Replayed(tables, log, n)
    ensures Replayed(tables + [[]], log, n)
  {
    LastTable(tables, []);
    hide GroupCommit.EntriesFrom, AllOf;
    assert AllOf(tables) + SetOf([]) == AllOf(tables);
    var more := tables + [[]];
    forall i, j | 0 <= i < j < |more| ensures Newer(more[j], more[i]) {
      if j < |tables| {
        assert Newer(tables[j], tables[i]);
      }
    }
  }

  /** Replays the bytes of a log, of which a crash may have left any front part, into memtables
      that are given up when they are full: they hold the entries of exactly the groups whose
      record is there to its last byte. */
  method RecoverLogFile(extend: Extend, file: Bytes, full: seq<Entry> -> bool, ghost log: seq<Record>)
    returns (tables: seq<seq<Entry>>, maxSequence: nat, ghost n: nat)
    requires AllRecordsFit(log) && file <= Log.Written(extend, LogRecords(log))
    ensures n <= |log|
    ensures forall i :: 0 <= i < |log| ==> (i < n <==> Log.EndOfRecord(extend, LogRecords(log), i) <= |file|)
    ensures Replayed(tables, log, n) && maxSequence == |GroupCommit.LoggedUpdates(log[..n])|
  {
    hide Log.Written, Log.EndOfRecord, Replayed, GroupCommit.EntriesFrom, GroupCommit.InsertAll, RecordBytes;
    var records, corruptions := Log.ReadAll(extend, file, true, LogRecords(log));
    n := |records|;
    var older: seq<seq<Entry>>, mem: seq<Entry> := [], [];
    maxSequence := 0;
    NothingReplayed(log);
    assert older + [mem] == [[]] && log[..0] == [];
    for i := 0 to |records|
      invariant Replayed(older + [mem], log, i) && maxSequence == |GroupCommit.LoggedUpdates(log[..i])|
    {
      OneMoreReplayed(older, mem, log, i);
      LoggedOneMore(log, i);
      var last;
      mem, last := InsertInto(records[i], mem, log[i]);
      if last > maxSequence {
        maxSequence := last;
      }
      if full(mem) {
        NewTable(older + [mem], log, i + 1);
        older, mem := older + [mem], [];
      }
    }
    tables := older + [mem];
  }

  // ------------------------------------------------------------------- what comes back

  function EmptyDatabase(): State {
    State([], None, seq(NUM_LEVELS, _ => []), 0, 2, [])
  }

  lemma PublishedFromNothing(entries: seq<Entry>, n: nat)
    ensures Init(EmptyDatabase())
    ensures Entries(GroupCommit.Published(EmptyDatabase(), entries, n)) == SetOf(entries)
  {
    var db := EmptyDatabase();
    GroupCommit.AllInsertedSet([], entries);
    EmptyVersion(db.levels, db.nextFile);
    hide GroupCommit.InsertAll, VersionEntries;
    assert SetOf([]) == {};
  }

  lemma WrittenFromNothing(updates: seq<Update>, key: Bytes)
    requires |updates| + 1 < MAX_SEQUENCE
    ensures Read(SetOf(GroupCommit.EntriesFrom(1, updates)), Bytewise.Rank(key), |updates|)
         == GroupCommit.LastUpdate(updates, key)
  {
    hide GroupCommit.EntriesFrom, GroupCommit.AsWrites, Read, Entries, Init, GroupCommit.LastUpdate, Runs.LastWrite,
         Runs.SafeRun, Next;
    var entries, writes := GroupCommit.EntriesFrom(1, updates), GroupCommit.AsWrites(updates);
    var states := GroupCommit.PublishIsWrites(EmptyDatabase(), updates);
    GroupCommit.WritesAreSafe(states, updates);
    PublishedFromNothing(entries, |updates|);
    Runs.LatestReadIsLastWrite(states, writes, |updates|, Bytewise.Rank(key));
    GroupCommit.LastWriteIsLastUpdate(updates, key);
    assert writes[..|updates|] == writes;
  }

  /** After recovery a read gives the last update among the surviving groups. */
  lemma RecoveredReads(tables: seq<seq<Entry>>, log: seq<Record>, n: nat, key: Bytes)
    requires n <= |log| && Replayed(tables, log, n)
    requires |GroupCommit.LoggedUpdates(log[..n])| + 1 < MAX_SEQUENCE
    ensures var updates := GroupCommit.LoggedUpdates(log[..n]);
      Read(AllOf(tables), Bytewise.Rank(key), |updates|) == GroupCommit.LastUpdate(updates, key)
  {
    hide GroupCommit.EntriesFrom, Read, GroupCommit.LastUpdate, AllOf, InTurn;
    WrittenFromNothing(GroupCommit.LoggedUpdates(log[..n]), key);
  }

  /** However much of the log survives, it is what some of the calls wrote that came first. */
  lemma {:induction false} LogEndsBetweenCalls(ss: seq<GroupCommit.State>, steps: seq<GroupCommit.Step>, i: nat, n: nat)
    returns (m: nat)
    requires GroupCommit.IsHistory(ss, steps) && i < |ss| && n <= |ss[i].log|
    ensures m <= |ss[i].arrived|
    ensures GroupCommit.LoggedUpdates(ss[i].log[..n]) == GroupCommit.AllUpdates(ss[i].arrived[..m])
  {
    hide GroupCommit.LoggedUpdates, GroupCommit.AllUpdates, GroupCommit.Inv, GroupCommit.CommitStep, GroupCommit.Init;
    if i == 0 {
      m := 0;
      NothingLogged(ss[0]);
    } else {
      LogGrows(ss[i - 1], ss[i], steps[i - 1]);
      if n <= |ss[i - 1].log| {
        m := LogEndsBetweenCalls(ss, steps, i - 1, n);
        assert ss[i].log[..n] == ss[i - 1].log[..n] && ss[i].arrived[..m] == ss[i - 1].arrived[..m];
      } else {
        GroupCommit.AlwaysInv(ss, steps, i);
        m := WholeLog(ss[i]);
        assert ss[i].log[..n] == ss[i].log;
      }
    }
  }

  lemma NothingLogged(s: GroupCommit.State)
    requires GroupCommit.Init(s)
    ensures s.log == [] && s.arrived == [] && GroupCommit.LoggedUpdates([]) == GroupCommit.AllUpdates([])
    ensures s.log[..0] == [] && s.arrived[..0] == []
  {
  }

  lemma LogGrows(s: GroupCommit.State, s': GroupCommit.State, step: GroupCommit.Step)
    requires GroupCommit.CommitStep(s, s', step)
    ensures s.log <= s'.log && s.arrived <= s'.arrived && |s'.log| <= |s.log| + 1
  {
    hide Next;
  }

  lemma WholeLog(s: GroupCommit.State) returns (m: nat)
    requires GroupCommit.Inv(s)
    ensures m <= |s.arrived| && GroupCommit.LoggedUpdates(s.log) == GroupCommit.AllUpdates(s.arrived[..m])
  {
    hide Inv, GroupCommit.LoggedUpdates, GroupCommit.AllUpdates, GroupCommit.LogFits, GroupCommit.EntriesFrom;
    var being := GroupCommit.BeingWritten(s);
    m := |s.done| + |being|;
    GroupCommit.AllUpdatesJoin(s.done, being);
    assert s.arrived[..m] == s.done + being;
    assert s.done + [] == s.done;
  }
}
