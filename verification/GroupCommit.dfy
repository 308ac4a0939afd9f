/** Concurrent writers: they queue up, and the one at the front logs and applies the batches
    of a whole group on behalf of the others. */
module GroupCommit {
  import opened Keys
  import opened Coding
  import opened WriteBatches
  import opened Database
  import opened Runs
  import opened Reads
  import opened Compactions
  import opened Replacement
  import opened Versions
  import opened Files

  import Bytewise

  /** One call of Write.  Without a batch it only asks for the memtable to be switched. */
  datatype Writer = Writer(batch: Option<seq<Update>>, sync: bool)

  function UpdatesOf(w: Writer): seq<Update> {
    match w.batch
    case None => []
    case Some(updates) => updates
  }

  function AllUpdates(writers: seq<Writer>): seq<Update> {
    if writers == [] then [] else AllUpdates(writers[..|writers| - 1]) + UpdatesOf(writers[|writers| - 1])
  }

  lemma {:induction false} AllUpdatesJoin(a: seq<Writer>, b: seq<Writer>)
    ensures AllUpdates(a + b) == AllUpdates(a) + AllUpdates(b)
  {
    if b == [] {
      assert a + b == a;
    } else {
      assert (a + b)[..|a + b| - 1] == a + b[..|b| - 1];
      AllUpdatesJoin(a, b[..|b| - 1]);
    }
  }

  // -------------------------------------------------------------------- choosing the group

  const SMALL: nat := 0x2_0000
  const LARGE: nat := 0x10_0000

  /** The size of a batch as bytes. */
  function Size(w: Writer): nat {
    match w.batch
    case None => 0
    case Some(updates) => HEADER + |Records(updates)|
  }

  function TotalSize(writers: seq<Writer>): nat {
    if writers == [] then 0 else TotalSize(writers[..|writers| - 1]) + Size(writers[|writers| - 1])
  }

  function MaxSize(first: nat): nat {
    if first <= SMALL then first + SMALL else LARGE
  }

  /** The writer at i may join all those before it. */
  predicate Joins(queue: seq<Writer>, i: nat)
    requires 0 < i < |queue|
  {
    && (queue[i].sync ==> queue[0].sync)
    && (queue[i].batch.Some? ==> TotalSize(queue[..i + 1]) <= MaxSize(Size(queue[0])))
  }

  ghost predicate IsGroup(queue: seq<Writer>, n: nat) {
    && 0 < n <= |queue|
    && (forall i :: 0 < i < n ==> Joins(queue, i))
    && (n < |queue| ==> !Joins(queue, n))
  }

  /** A small first write is followed by 128 kilobytes at most, a larger one by what fits in
      a megabyte; and the group ends only at a write that asks for more than the first one
      does or goes past that size. */
  lemma {:induction false} GroupLimits(queue: seq<Writer>, n: nat)
    requires IsGroup(queue, n)
    ensures var first := Size(queue[0]);
      && TotalSize(queue[..n])
      <= (if first <= 0x2_0000 then first + 0x2_0000 else if first <= 0x10_0000 then 0x10_0000 else first)
      && (n < |queue| ==>
            || (queue[n].sync && !queue[0].sync)
            || TotalSize(queue[..n + 1]) > (if first <= 0x2_0000 then first + 0x2_0000 else 0x10_0000))
  {
    SizeWithin(queue, n);
  }

  lemma {:induction false} SizeWithin(queue: seq<Writer>, n: nat)
    requires 0 < n <= |queue| && forall i :: 0 < i < n ==> Joins(queue, i)
    ensures TotalSize(queue[..n]) <= MaxSize(Size(queue[0])) || TotalSize(queue[..n]) == Size(queue[0])
  {
    hide Size;
    FirstWriter(queue);
    OneWriterMore(queue, n - 1);
    if n > 1 {
      SizeWithin(queue, n - 1);
      NothingToSend(queue[n - 1]);
      assert Joins(queue, n - 1);
    }
  }

  lemma NothingToSend(w: Writer)
    ensures w.batch.None? ==> Size(w) == 0
  {
  }

  datatype Waiting = Waiting(batch: WriteBatch?, sync: bool)

  ghost predicate Ready(w: Waiting)
    reads if w.batch == null then {} else {w.batch}
  {
    w.batch != null ==> w.batch.Valid()
  }

  ghost function AsWriter(w: Waiting): Writer
    reads if w.batch == null then {} else {w.batch}
  {
    Writer(if w.batch == null then None else Some(w.batch.updates), w.sync)
  }

  ghost function Batches(writers: seq<Waiting>): set<object> {
    set w | w in writers && w.batch != null :: w.batch
  }

  ghost function AsWriters(writers: seq<Waiting>): (r: seq<Writer>)
    reads Batches(writers)
    ensures |r| == |writers| && forall i :: 0 <= i < |r| ==> r[i] == AsWriter(writers[i])
  {
    if writers == [] then [] else
      assert Batches(writers[..|writers| - 1]) <= Batches(writers);
      AsWriters(writers[..|writers| - 1]) + [AsWriter(writers[|writers| - 1])]
  }

  lemma OneWriterMore(queue: seq<Writer>, i: nat)
    requires i < |queue|
    ensures TotalSize(queue[..i + 1]) == TotalSize(queue[..i]) + Size(queue[i])
    ensures AllUpdates(queue[..i + 1]) == AllUpdates(queue[..i]) + UpdatesOf(queue[i])
  {
    assert queue[..i + 1][..i] == queue[..i];
  }

  lemma FirstWriter(queue: seq<Writer>)
    requires queue != []
    ensures TotalSize(queue[..1]) == Size(queue[0]) && AllUpdates(queue[..1]) == UpdatesOf(queue[0])
  {
    OneWriterMore(queue, 0);
    assert queue[..0] == [] && TotalSize([]) == 0 && AllUpdates([]) == [];
  }

  lemma UpdatesFit(queue: seq<Writer>, i: nat)
    requires i < |queue|
    ensures |AllUpdates(queue[..i])| + |UpdatesOf(queue[i])| <= |AllUpdates(queue)|
  {
    hide *;
    OneWriterMore(queue, i);
    AllUpdatesJoin(queue[..i + 1], queue[i + 1..]);
    assert queue == queue[..i + 1] + queue[i + 1..];
  }

  lemma WriterIs(w: Waiting)
    requires Ready(w)
    ensures Size(AsWriter(w)) == if w.batch == null then 0 else |w.batch.rep|
    ensures UpdatesOf(AsWriter(w)) == if w.batch == null then [] else w.batch.updates
    ensures AsWriter(w).batch.Some? == (w.batch != null) && AsWriter(w).sync == w.sync
  {
  }

  /** Adds a batch to the group, which moves to tmp so that the first caller's batch stays as it is. */
  method Gather(result: WriteBatch, tmp: WriteBatch, batch: WriteBatch) returns (r: WriteBatch)
    requires result.Valid() && tmp.Valid() && batch.Valid() && batch != tmp
    requires |result.updates| + |batch.updates| < TWO_TO_31 && (result == tmp || tmp.updates == [])
    modifies tmp
    ensures r == tmp && tmp.Valid() && tmp.updates == old(result.updates) + batch.updates
  {
    hide WriteBatch.Valid;
    r := tmp;
    if result != tmp {
      tmp.Append(result);
    }
    tmp.Append(batch);
  }

  lemma JoinsIf(queue: seq<Writer>, i: nat, size: nat)
    requires 0 < i < |queue| && size == TotalSize(queue[..i]) + Size(queue[i])
    ensures Joins(queue, i) <==>
              ((queue[i].sync ==> queue[0].sync) && (queue[i].batch.Some? ==> size <= MaxSize(Size(queue[0]))))
  {
    hide Size;
    OneWriterMore(queue, i);
  }

  lemma AllReady(writers: seq<Waiting>, tmp: WriteBatch, i: nat)
    requires i < |writers| && tmp !in Batches(writers) && forall w :: w in writers ==> Ready(w)
    ensures Ready(writers[i]) && (writers[i].batch != null ==> writers[i].batch.Valid() && writers[i].batch != tmp)
  {
  }

  /** Gathers the batches at the front of the queue, into tmp unless the first stands alone. */
  method BuildBatchGroup(writers: seq<Waiting>, tmp: WriteBatch) returns (result: WriteBatch, count: nat)
    requires writers != [] && writers[0].batch != null && forall w :: w in writers ==> Ready(w)
    requires tmp.Valid() && tmp.updates == [] && tmp !in Batches(writers)
    requires |AllUpdates(AsWriters(writers))| < TWO_TO_31
    modifies tmp
    ensures IsGroup(AsWriters(writers), count) && AsWriters(writers) == old(AsWriters(writers))
    ensures result.Valid() && result.updates == AllUpdates(AsWriters(writers)[..count])
    ensures result == tmp || (result == writers[0].batch && tmp.updates == [] && tmp.Valid())
  {
    hide TotalSize, AllUpdates, Records, Joins, WriteBatch.Valid, Ready, AsWriter, Size, UpdatesOf;
    ghost var queue := AsWriters(writers);
    AllReady(writers, tmp, 0);
    var first := writers[0];
    result := first.batch;
    var size := |first.batch.rep|;
    var maxSize := if size <= SMALL then size + SMALL else LARGE;
    count := 1;
    FirstWriter(queue);
    WriterIs(first);
    while count < |writers|
      invariant 0 < count <= |writers| && AsWriters(writers) == queue
      invariant forall w :: w in writers ==> Ready(w)
      invariant forall i :: 0 < i < count ==> Joins(queue, i)
      invariant size == TotalSize(queue[..count])
      invariant result == tmp || (result == first.batch && tmp.updates == [])
      invariant tmp.Valid() && result.Valid() && result.updates == AllUpdates(queue[..count])
    {
      var w := writers[count];
      AllReady(writers, tmp, count);
      WriterIs(w);
      OneWriterMore(queue, count);
      JoinsIf(queue, count, size + Size(queue[count]));
      if w.sync && !first.sync {
        return;
      }
      if w.batch != null {
        size := size + |w.batch.rep|;
        if size > maxSize {
          return;
        }
        UpdatesFit(queue, count);
        result := Gather(result, tmp, w.batch);
        assert AsWriters(writers) == queue;
      }
      count := count + 1;
    }
  }

  // -------------------------------------------------------------------------- the protocol

  /** What the inserter adds to the memtable for an update. */
  function EntryFor(sequence: Sequence, u: Update): Entry {
    match u
    case Put(key, value) => Entry(InternalKey(Bytewise.Rank(key), sequence, Value), Bytewise.Text(value))
    case Delete(key) => Entry(InternalKey(Bytewise.Rank(key), sequence, Deletion), "")
  }

  function EntriesFrom(first: nat, updates: seq<Update>): seq<Entry>
    requires first + |updates| <= MAX_SEQUENCE
  {
    if updates == [] then [] else
      var n := |updates| - 1;
      EntriesFrom(first, updates[..n]) + [EntryFor(first + n, updates[n])]
  }

  function InsertAll(run: seq<Entry>, entries: seq<Entry>): seq<Entry> {
    if entries == [] then run
    else InsertSorted(InsertAll(run, entries[..|entries| - 1]), entries[|entries| - 1])
  }

  /** A record of the log: the bytes of one group. */
  datatype Record = Record(first: nat, updates: seq<Update>, writers: seq<Writer>, synced: bool)

  /** What the front writer is doing.  It holds the lock except while it makes room, logs and inserts. */
  datatype Phase =
    | MakingRoom(switched: bool)
    | Logging(count: nat, group: seq<Update>)
    | Inserting(count: nat, group: seq<Update>, inserted: nat)

  /** `db` is the database at its published sequence number; `inflight` is what the front
      writer has put into the memtable since. */
  datatype State = State(arrived: seq<Writer>, done: seq<Writer>, queue: seq<Writer>, phase: Phase,
                         log: seq<Record>, db: Database.State, inflight: seq<Entry>)

  ghost predicate Init(s: State) {
    && s.arrived == [] && s.done == [] && s.queue == [] && s.log == [] && s.inflight == []
    && s.phase == MakingRoom(false) && Database.Init(s.db)
  }

  datatype Step =
    | Arrive(writer: Writer)
    | Background(step: Database.Step)
    | SwitchLog
    | FinishWithoutBatch
    | FormGroup
    | AddToLog
    | InsertOne
    | Publish

  ghost predicate BackgroundStep(s: State, s': State, step: Database.Step) {
    && !step.Write? && !step.SwitchMemTable? && Next(s.db, s'.db, step) && Safe(s.db, step)
    && s' == s.(db := s'.db)
  }

  ghost predicate FormStep(s: State, s': State) {
    && s.queue != [] && s.phase.MakingRoom? && s.queue[0].batch.Some?
    && exists n :: IsGroup(s.queue, n) && FormsGroup(s, s', n)
  }

  ghost predicate FormsGroup(s: State, s': State, n: nat) {
    && n <= |s.queue|
    && s.db.lastSequence + |AllUpdates(s.queue[..n])| < MAX_SEQUENCE
    && s' == s.(phase := Logging(n, AllUpdates(s.queue[..n])))
  }

  ghost predicate LogStep(s: State, s': State) {
    && s.phase.Logging? && 0 < s.phase.count <= |s.queue|
    && s' == s.(phase := Inserting(s.phase.count, s.phase.group, 0),
                log := s.log + [Record(s.db.lastSequence + 1, s.phase.group, s.queue[..s.phase.count],
                                       s.queue[0].sync)])
  }

  ghost predicate InsertStep(s: State, s': State) {
    && s.phase.Inserting? && s.phase.inserted < |s.phase.group|
    && s.db.lastSequence + 1 + s.phase.inserted <= MAX_SEQUENCE
    && s' == s.(phase := s.phase.(inserted := s.phase.inserted + 1),
                inflight := s.inflight
                  + [EntryFor(s.db.lastSequence + 1 + s.phase.inserted, s.phase.group[s.phase.inserted])])
  }

  ghost predicate PublishStep(s: State, s': State) {
    && s.phase.Inserting? && s.phase.inserted == |s.phase.group| && s.phase.count <= |s.queue|
    && s' == s.(phase := MakingRoom(false), inflight := [],
                db := s.db.(mem := InsertAll(s.db.mem, s.inflight),
                            lastSequence := s.db.lastSequence + |s.phase.group|),
                done := s.done + s.queue[..s.phase.count], queue := s.queue[s.phase.count..])
  }

  ghost predicate CommitStep(s: State, s': State, step: Step) {
    match step
    case Arrive(w) => s' == s.(arrived := s.arrived + [w], queue := s.queue + [w])
    case Background(step) => BackgroundStep(s, s', step)
    case SwitchLog =>
      && s.queue != [] && s.phase.MakingRoom? && Next(s.db, s'.db, SwitchMemTable)
      && s' == s.(phase := MakingRoom(true), db := s'.db)
    case FinishWithoutBatch =>
      && s.queue != [] && s.phase == MakingRoom(true) && s.queue[0].batch.None?
      && s' == s.(phase := MakingRoom(false), done := s.done + [s.queue[0]], queue := s.queue[1..])
    case FormGroup => FormStep(s, s')
    case AddToLog => LogStep(s, s')
    case InsertOne => InsertStep(s, s')
    case Publish => PublishStep(s, s')
  }

  // ------------------------------------------------------------------------ the invariant

  ghost function LoggedUpdates(log: seq<Record>): seq<Update> {
    if log == [] then [] else LoggedUpdates(log[..|log| - 1]) + log[|log| - 1].updates
  }

  /** Records hold whole batches, number them consecutively, and are synced when a writer asks. */
  ghost predicate LogFits(log: seq<Record>) {
    forall i :: 0 <= i < |log| ==>
      && log[i].first == |LoggedUpdates(log[..i])| + 1
      && log[i].updates == AllUpdates(log[i].writers)
      && forall w :: w in log[i].writers && w.sync ==> log[i].synced
  }

  ghost predicate Inv(s: State) {
    && s.arrived == s.done + s.queue
    && Database.Inv(s.db)
    && s.db.lastSequence == |AllUpdates(s.done)|
    && LogFits(s.log)
    && match s.phase
       case MakingRoom(switched) =>
         s.inflight == [] && LoggedUpdates(s.log) == AllUpdates(s.done) && (switched ==> s.db.mem == [])
       case Logging(count, group) =>
         s.inflight == [] && LoggedUpdates(s.log) == AllUpdates(s.done) && Taken(s, count, group)
       case Inserting(count, group, inserted) =>
         && LoggedUpdates(s.log) == AllUpdates(s.done) + group && Taken(s, count, group)
         && s.log != [] && s.log[|s.log| - 1].updates == group && s.log[|s.log| - 1].writers == s.queue[..count]
         && inserted <= |group| && s.inflight == EntriesFrom(s.db.lastSequence + 1, group[..inserted])
  }

  /** The front writer's group: the head of the queue, none of it asking for more than it does. */
  ghost predicate Taken(s: State, count: nat, group: seq<Update>) {
    && 0 < count <= |s.queue| && group == AllUpdates(s.queue[..count]) && s.queue[0].batch.Some?
    && (forall i :: 0 <= i < count && s.queue[i].sync ==> s.queue[0].sync)
    && s.db.lastSequence + |group| < MAX_SEQUENCE
  }

  lemma InitHasInv(s: State)
    requires Init(s)
    ensures Inv(s)
  {
    hide Database.Inv, Database.Init;
    Database.InitHasInv(s.db);
    NothingWritten(s.db);
  }

  lemma NothingWritten(db: Database.State)
    requires Database.Init(db)
    ensures db.lastSequence == 0
  {
  }

  // -------------------------------------------------------------- publishing is many writes

  ghost function AsWrite(u: Update): Database.Step {
    match u
    case Put(key, value) => Write(Bytewise.Rank(key), Value, Bytewise.Text(value))
    case Delete(key) => Write(Bytewise.Rank(key), Deletion, "")
  }

  ghost function AsWrites(updates: seq<Update>): (r: seq<Database.Step>)
    ensures |r| == |updates| && forall i :: 0 <= i < |r| ==> r[i] == AsWrite(updates[i])
  {
    if updates == [] then [] else AsWrites(updates[..|updates| - 1]) + [AsWrite(updates[|updates| - 1])]
  }

  ghost function Published(db: Database.State, entries: seq<Entry>, n: nat): Database.State {
    db.(mem := InsertAll(db.mem, entries), lastSequence := db.lastSequence + n)
  }

  lemma OneWriteMore(db: Database.State, entries: seq<Entry>, n: nat, u: Update)
    requires db.lastSequence + n + 1 < MAX_SEQUENCE
    ensures var e := EntryFor(db.lastSequence + 1 + n, u);
      Next(Published(db, entries, n), Published(db, entries + [e], n + 1), AsWrite(u))
  {
    hide InsertSorted, Bytewise.Text;
    var e := EntryFor(db.lastSequence + 1 + n, u);
    assert (entries + [e])[..|entries|] == entries;
  }

  /** Publishing a group is the same as writing its updates one by one. */
  lemma {:induction false} PublishIsWrites(db: Database.State,
                                           updates: seq<Update>) returns (states: seq<Database.State>)
    requires db.lastSequence + |updates| < MAX_SEQUENCE
    ensures IsRun(states, AsWrites(updates)) && states[0] == db
    ensures states[|updates|] == Published(db, EntriesFrom(db.lastSequence + 1, updates), |updates|)
    ensures forall k :: 0 <= k < |states| ==> states[k].snapshots == db.snapshots
  {
    hide InsertSorted, Bytewise.Text, AsWrite, EntryFor, Next;
    var n := |updates| - 1;
    if updates == [] {
      states := [db];
    } else {
      var front := PublishIsWrites(db, updates[..n]);
      OneWriteMore(db, EntriesFrom(db.lastSequence + 1, updates[..n]), n, updates[n]);
      var last := Published(db, EntriesFrom(db.lastSequence + 1, updates), |updates|);
      states := front + [last];
      forall i | 0 <= i < |updates| ensures Next(states[i], states[i + 1], AsWrites(updates)[i]) {
        if i < n {
          assert Next(front[i], front[i + 1], AsWrites(updates[..n])[i]);
        }
      }
    }
  }

  lemma WritesAreSafe(states: seq<Database.State>, updates: seq<Update>)
    requires IsRun(states, AsWrites(updates))
    ensures SafeRun(states, AsWrites(updates))
  {
    hide UncoversNothing, Next, Bytewise.Text;
  }

  lemma PublishKeepsDatabase(db: Database.State, updates: seq<Update>)
    requires Database.Inv(db) && db.lastSequence + |updates| < MAX_SEQUENCE
    ensures Database.Inv(Published(db, EntriesFrom(db.lastSequence + 1, updates), |updates|))
  {
    hide Database.Inv, Published, EntriesFrom;
    var states := PublishIsWrites(db, updates);
    RunKeepsInv(states, AsWrites(updates), |updates|);
  }

  // --------------------------------------------------------------------- every step keeps it

  lemma ArriveKeepsInv(s: State, s': State, w: Writer)
    requires Inv(s) && CommitStep(s, s', Arrive(w))
    ensures Inv(s')
  {
    hide Database.Inv, LogFits, AllUpdates, EntriesFrom, LoggedUpdates;
    assert s'.arrived == s'.done + s'.queue;
    if !s.phase.MakingRoom? {
      assert s'.queue[..s.phase.count] == s.queue[..s.phase.count];
    }
  }

  lemma OtherStepsKeepMem(db: Database.State, db': Database.State, step: Database.Step)
    requires Next(db, db', step) && !step.Write? && !step.SwitchMemTable?
    ensures db'.mem == db.mem && db'.lastSequence == db.lastSequence
  {
    hide ChosenInputs, MergedInputs, OutputFiles, Kept, Replaced, Added, Settles, ValidFile;
  }

  lemma BackgroundKeepsInv(s: State, s': State, step: Database.Step)
    requires Inv(s) && BackgroundStep(s, s', step)
    ensures Inv(s')
  {
    hide Database.Inv, LogFits, AllUpdates, EntriesFrom, LoggedUpdates, Next, Safe, Taken;
    NextKeepsInv(s.db, s'.db, step);
    OtherStepsKeepMem(s.db, s'.db, step);
    TakenDependsOn(s, s');
  }

  lemma TakenDependsOn(s: State, s': State)
    requires s'.queue == s.queue && s'.db.lastSequence == s.db.lastSequence
    ensures forall count, group :: Taken(s, count, group) ==> Taken(s', count, group)
  {
    hide AllUpdates;
  }

  lemma SwitchFacts(db: Database.State, db': Database.State)
    requires Next(db, db', SwitchMemTable)
    ensures db'.mem == [] && db'.lastSequence == db.lastSequence
  {
  }

  lemma SwitchLogKeepsInv(s: State, s': State)
    requires Inv(s) && CommitStep(s, s', SwitchLog)
    ensures Inv(s')
  {
    hide Database.Inv, LogFits, LoggedUpdates, AllUpdates, Next, Taken;
    NextKeepsInv(s.db, s'.db, SwitchMemTable);
    SwitchFacts(s.db, s'.db);
  }

  lemma NullAddsNothing(done: seq<Writer>, w: Writer)
    requires w.batch.None?
    ensures AllUpdates(done + [w]) == AllUpdates(done)
  {
    assert (done + [w])[..|done|] == done;
  }

  lemma FinishKeepsInv(s: State, s': State)
    requires Inv(s) && CommitStep(s, s', FinishWithoutBatch)
    ensures Inv(s')
  {
    hide Database.Inv, LogFits, LoggedUpdates, AllUpdates, Taken;
    NullAddsNothing(s.done, s.queue[0]);
  }

  lemma FormKeepsInv(s: State, s': State)
    requires Inv(s) && FormStep(s, s')
    ensures Inv(s')
  {
    var n: nat :| IsGroup(s.queue, n) && FormsGroup(s, s', n);
    hide Database.Inv, LogFits, AllUpdates, LoggedUpdates, TotalSize, Size;
    forall i | 0 <= i < n && s.queue[i].sync ensures s.queue[0].sync {
      assert i > 0 ==> Joins(s.queue, i);
    }
    assert Taken(s', n, s'.phase.group);
  }

  lemma LogStepKeepsInv(s: State, s': State)
    requires Inv(s) && LogStep(s, s')
    ensures Inv(s')
  {
    hide Database.Inv, AllUpdates;
    var n := |s.log|;
    assert s'.log[..n] == s.log;
    forall i | 0 <= i < |s'.log| ensures s'.log[..i] == s.log[..i] {
    }
    var r := s'.log[n];
    forall w | w in r.writers && w.sync ensures r.synced {
      var i :| 0 <= i < s.phase.count && s.queue[i] == w;
    }
    assert s.phase.group[..0] == [];
    TakenDependsOn(s, s');
  }

  lemma InsertKeepsInv(s: State, s': State)
    requires Inv(s) && InsertStep(s, s')
    ensures Inv(s')
  {
    hide Database.Inv, AllUpdates, LogFits, LoggedUpdates, EntryFor, Taken;
    var k := s.phase.inserted;
    assert s.phase.group[..k + 1][..k] == s.phase.group[..k];
    TakenDependsOn(s, s');
  }

  lemma PublishKeepsInv(s: State, s': State)
    requires Inv(s) && PublishStep(s, s')
    ensures Inv(s')
    ensures AllUpdates(s'.done) == AllUpdates(s.done) + s.phase.group
    ensures s'.db == Published(s.db, EntriesFrom(s.db.lastSequence + 1, s.phase.group), |s.phase.group|)
  {
    hide Database.Inv, AllUpdates, LogFits, LoggedUpdates, EntriesFrom, InsertAll;
    var n := s.phase.count;
    assert s.phase.group[..|s.phase.group|] == s.phase.group;
    AllUpdatesJoin(s.done, s.queue[..n]);
    PublishKeepsDatabase(s.db, s.phase.group);
    assert s.queue == s.queue[..n] + s.queue[n..];
  }

  lemma StepKeepsInv(s: State, s': State, step: Step)
    requires Inv(s) && CommitStep(s, s', step)
    ensures Inv(s')
  {
    hide Inv, BackgroundStep, FormStep, LogStep, InsertStep, PublishStep;
    match step {
      case Arrive(w) => ArriveKeepsInv(s, s', w);
      case Background(other) => BackgroundKeepsInv(s, s', other);
      case SwitchLog => SwitchLogKeepsInv(s, s');
      case FinishWithoutBatch => FinishKeepsInv(s, s');
      case FormGroup => FormKeepsInv(s, s');
      case AddToLog => LogStepKeepsInv(s, s');
      case InsertOne => InsertKeepsInv(s, s');
      case Publish => PublishKeepsInv(s, s');
    }
  }

  // ------------------------------------------------------------------------- whole runs

  ghost predicate IsHistory(ss: seq<State>, steps: seq<Step>) {
    && |ss| == |steps| + 1 && Init(ss[0])
    && forall i :: 0 <= i < |steps| ==> CommitStep(ss[i], ss[i + 1], steps[i])
  }

  lemma {:induction false} AlwaysInv(ss: seq<State>, steps: seq<Step>, i: nat)
    requires IsHistory(ss, steps) && i < |ss|
    ensures Inv(ss[i])
  {
    hide Inv, CommitStep, Init;
    if i == 0 {
      InitHasInv(ss[0]);
    } else {
      AlwaysInv(ss, steps, i - 1);
      StepKeepsInv(ss[i - 1], ss[i], steps[i - 1]);
    }
  }

  ghost function WritesOf(steps: seq<Database.Step>): seq<Database.Step> {
    if steps == [] then [] else
      WritesOf(steps[..|steps| - 1]) + if steps[|steps| - 1].Write? then [steps[|steps| - 1]] else []
  }

  lemma {:induction false} WritesOfJoin(a: seq<Database.Step>, b: seq<Database.Step>)
    ensures WritesOf(a + b) == WritesOf(a) + WritesOf(b)
  {
    if b == [] {
      assert a + b == a;
    } else {
      assert (a + b)[..|a + b| - 1] == a + b[..|b| - 1];
      WritesOfJoin(a, b[..|b| - 1]);
    }
  }

  lemma {:induction false} WritesOfWrites(updates: seq<Update>)
    ensures WritesOf(AsWrites(updates)) == AsWrites(updates)
  {
    hide Bytewise.Text;
    if updates != [] {
      var n := |updates| - 1;
      assert AsWrites(updates)[..n] == AsWrites(updates[..n]);
      WritesOfWrites(updates[..n]);
    }
  }

  lemma {:induction false} AsWritesJoin(a: seq<Update>, b: seq<Update>)
    ensures AsWrites(a + b) == AsWrites(a) + AsWrites(b)
  {
  }

  ghost predicate Refined(s: State, s': State, states: seq<Database.State>, steps: seq<Database.Step>,
                          updates: seq<Update>)
  {
    && SafeRun(states, steps) && states[0] == s.db && states[|steps|] == s'.db
    && WritesOf(steps) == AsWrites(updates) && AllUpdates(s'.done) == AllUpdates(s.done) + updates
    && forall k :: 0 <= k < |states| ==> states[k].snapshots == s.db.snapshots || states[k].snapshots == s'.db.snapshots
  }

  lemma OneStepRefines(s: State, s': State, step: Database.Step)
    requires Next(s.db, s'.db, step) && Safe(s.db, step) && !step.Write? && s'.done == s.done
    ensures Refined(s, s', [s.db, s'.db], [step], [])
  {
    hide Next, Safe, AllUpdates;
    assert [step][..0] == [] && WritesOf([]) == [];
  }

  lemma NoStepRefines(s: State, s': State)
    requires s'.db == s.db && AllUpdates(s'.done) == AllUpdates(s.done)
    ensures Refined(s, s', [s.db], [], [])
  {
    hide Next, Safe, AllUpdates;
  }

  lemma PublishRefines(s: State, s': State) returns (states: seq<Database.State>)
    requires Inv(s) && PublishStep(s, s')
    ensures Refined(s, s', states, AsWrites(s.phase.group), s.phase.group)
  {
    PublishKeepsInv(s, s');
    GroupLeavesRoom(s);
    hide Inv, Next, Safe, EntriesFrom, InsertAll, AllUpdates, AsWrite, PublishStep;
    states := PublishIsWrites(s.db, s.phase.group);
    WritesAreSafe(states, s.phase.group);
    WritesOfWrites(s.phase.group);
  }

  lemma GroupLeavesRoom(s: State)
    requires Inv(s) && s.phase.Inserting?
    ensures s.db.lastSequence + |s.phase.group| < MAX_SEQUENCE
  {
    hide Database.Inv, AllUpdates, LogFits, LoggedUpdates, EntriesFrom;
  }

  /** What one step of the protocol does to the database: nothing, one step, or the writes of a group. */
  lemma StepRefines(s: State, s': State, step: Step) returns (states: seq<Database.State>, steps: seq<Database.Step>,
                                                             updates: seq<Update>)
    requires Inv(s) && CommitStep(s, s', step)
    ensures Refined(s, s', states, steps, updates)
  {
    hide Inv, Refined, Next, Safe, AllUpdates, LogStep, InsertStep, FormStep;
    states, steps, updates := [s.db], [], [];
    match step {
      case Background(other) =>
        OneStepRefines(s, s', other);
        states, steps := [s.db, s'.db], [other];
      case SwitchLog =>
        SwitchIsSafe(s.db);
        OneStepRefines(s, s', SwitchMemTable);
        states, steps := [s.db, s'.db], [SwitchMemTable];
      case Publish =>
        states := PublishRefines(s, s');
        steps, updates := AsWrites(s.phase.group), s.phase.group;
      case FinishWithoutBatch =>
        NullAddsNothing(s.done, s.queue[0]);
        NoStepRefines(s, s');
      case Arrive(_) => NoStepRefines(s, s');
      case FormGroup =>
        FormLeavesDatabase(s, s');
        NoStepRefines(s, s');
      case AddToLog =>
        LogLeavesDatabase(s, s');
        NoStepRefines(s, s');
      case InsertOne =>
        InsertLeavesDatabase(s, s');
        NoStepRefines(s, s');
    }
  }

  lemma SwitchIsSafe(db: Database.State)
    ensures Safe(db, SwitchMemTable)
  {
  }

  lemma FormLeavesDatabase(s: State, s': State)
    requires FormStep(s, s')
    ensures s'.db == s.db && s'.done == s.done
  {
    hide IsGroup, AllUpdates;
  }

  lemma LogLeavesDatabase(s: State, s': State)
    requires LogStep(s, s')
    ensures s'.db == s.db && s'.done == s.done
  {
  }

  lemma InsertLeavesDatabase(s: State, s': State)
    requires InsertStep(s, s')
    ensures s'.db == s.db && s'.done == s.done
  {
    hide EntryFor;
  }

  /** Every history of concurrent writers is a run of single writes: those of the finished
      batches, in the order in which the calls arrived. */
  lemma {:induction false} HistoryRefinesRun(ss: seq<State>, steps: seq<Step>, i: nat)
    returns (states: seq<Database.State>, dbSteps: seq<Database.Step>)
    requires IsHistory(ss, steps) && i < |ss|
    ensures SafeRun(states, dbSteps) && Database.Init(states[0]) && states[|dbSteps|] == ss[i].db
    ensures WritesOf(dbSteps) == AsWrites(AllUpdates(ss[i].done))
    ensures ss[i].arrived == ss[i].done + ss[i].queue
  {
    hide Next, Safe, CommitStep, Database.Init, AllUpdates, AsWrite, Database.Inv;
    AlwaysInv(ss, steps, i);
    if i == 0 {
      states, dbSteps := [ss[0].db], [];
      assert AllUpdates([]) == [] by { NoUpdates(); }
    } else {
      var front, frontSteps := HistoryRefinesRun(ss, steps, i - 1);
      AlwaysInv(ss, steps, i - 1);
      var more, moreSteps, updates := StepRefines(ss[i - 1], ss[i], steps[i - 1]);
      SafeRunsJoin(front, frontSteps, more, moreSteps);
      WritesOfJoin(frontSteps, moreSteps);
      AsWritesJoin(AllUpdates(ss[i - 1].done), updates);
      states, dbSteps := front + more[1..], frontSteps + moreSteps;
    }
  }

  lemma NoUpdates()
    ensures AllUpdates([]) == []
  {
  }

  // ------------------------------------------------------------------------- what reads see

  /** What a map holds for a key after these updates in turn. */
  function LastUpdate(updates: seq<Update>, key: Bytes): Option<string> {
    if updates == [] then None else
      var u := updates[|updates| - 1];
      if u.key == key then (if u.Put? then Some(Bytewise.Text(u.value)) else None)
      else LastUpdate(updates[..|updates| - 1], key)
  }

  lemma {:induction false} LastWriteIsAmongWrites(steps: seq<Database.Step>, user: UserKey)
    ensures LastWrite(WritesOf(steps), user) == LastWrite(steps, user)
  {
    if steps != [] {
      var front := steps[..|steps| - 1];
      LastWriteIsAmongWrites(front, user);
      if steps[|steps| - 1].Write? {
        assert WritesOf(steps)[..|WritesOf(steps)| - 1] == WritesOf(front);
      } else {
        assert WritesOf(steps) == WritesOf(front);
      }
    }
  }

  lemma {:induction false} LastWriteIsLastUpdate(updates: seq<Update>, key: Bytes)
    ensures LastWrite(AsWrites(updates), Bytewise.Rank(key)) == LastUpdate(updates, key)
  {
    hide Bytewise.Text, Bytewise.Rank;
    if updates != [] {
      var n := |updates| - 1;
      assert AsWrites(updates)[..n] == AsWrites(updates[..n]);
      LastWriteIsLastUpdate(updates[..n], key);
      Bytewise.RankKeepsOrder(updates[n].key, key);
    }
  }

  lemma InsertedSet(run: seq<Entry>, e: Entry)
    ensures SetOf(InsertSorted(run, e)) == SetOf(run) + {e}
  {
    var i := LowerBound(run, e.key);
    assert run == run[..i] + run[i..];
  }

  lemma {:induction false} AllInsertedSet(run: seq<Entry>, entries: seq<Entry>)
    ensures SetOf(InsertAll(run, entries)) == SetOf(run) + SetOf(entries)
  {
    hide InsertSorted;
    if entries != [] {
      var front, e := entries[..|entries| - 1], entries[|entries| - 1];
      AllInsertedSet(run, front);
      InsertedSet(InsertAll(run, front), e);
      assert entries == front + [e];
    }
  }

  lemma {:induction false} EntriesAreNumbered(first: nat, updates: seq<Update>)
    requires first + |updates| <= MAX_SEQUENCE
    ensures var es := EntriesFrom(first, updates);
      |es| == |updates| && forall i :: 0 <= i < |es| ==> es[i].key.sequence == first + i
  {
    hide Bytewise.Text, Bytewise.Rank;
    if updates != [] {
      EntriesAreNumbered(first, updates[..|updates| - 1]);
    }
  }

  /** The database as it lies in memory: with what the front writer has inserted so far. */
  ghost function InMemory(s: State): Database.State {
    s.db.(mem := InsertAll(s.db.mem, s.inflight))
  }

  /** Entries that no sequence number given out covers change no read. */
  lemma LaterEntriesAreUnseen(es: set<Entry>, entries: seq<Entry>, last: nat, user: UserKey, q: nat)
    requires DistinctSequences(es) && WrittenBy(es, last) && q <= last
    requires forall i :: 0 <= i < |entries| ==> entries[i].key.sequence == last + 1 + i
    ensures Read(es + SetOf(entries), user, q) == Read(es, user, q)
  {
    hide Read;
    SameReads(es + SetOf(entries), es, user, q, es + SetOf(entries));
  }

  lemma InMemoryEntries(s: State)
    ensures Entries(InMemory(s)) == Entries(s.db) + SetOf(s.inflight)
  {
    AllInsertedSet(s.db.mem, s.inflight);
    hide VersionEntries, InsertAll, SetOf;
    assert ImmEntries(InMemory(s)) == ImmEntries(s.db);
  }

  lemma InflightIsLater(s: State)
    requires Inv(s)
    ensures forall i :: 0 <= i < |s.inflight| ==> s.inflight[i].key.sequence == s.db.lastSequence + 1 + i
  {
    hide Database.Inv, AllUpdates, LoggedUpdates, LogFits, EntriesFrom;
    if s.phase.Inserting? {
      EntriesAreNumbered(s.db.lastSequence + 1, s.phase.group[..s.phase.inserted]);
    }
  }

  lemma UnpublishedIsUnseen(s: State, user: UserKey, q: nat)
    requires Inv(s) && q <= s.db.lastSequence
    ensures Read(Entries(InMemory(s)), user, q) == Read(Entries(s.db), user, q)
  {
    InflightIsLater(s);
    assert Database.Inv(s.db);
    hide Inv, Database.Inv, Entries, Read, InMemory;
    WrittenInv(s.db);
    InMemoryEntries(s);
    LaterEntriesAreUnseen(Entries(s.db), s.inflight, s.db.lastSequence, user, q);
  }

  /** At every moment, whatever the front writer is in the middle of, a read at the published
      sequence number sees the finished batches, each wholly, in order of arrival, and nothing else. */
  lemma ReadsSeeWholeBatches(ss: seq<State>, steps: seq<Step>, i: nat, key: Bytes)
    requires IsHistory(ss, steps) && i < |ss|
    ensures Read(Entries(InMemory(ss[i])), Bytewise.Rank(key), ss[i].db.lastSequence)
         == LastUpdate(AllUpdates(ss[i].done), key)
    ensures ss[i].arrived == ss[i].done + ss[i].queue
  {
    hide Inv, Safe, Next, Entries, Read, InMemory, AllUpdates, Bytewise.Rank, CommitStep, Init, Database.Init,
         LastWrite;
    AlwaysInv(ss, steps, i);
    UnpublishedIsUnseen(ss[i], Bytewise.Rank(key), ss[i].db.lastSequence);
    var states, dbSteps := HistoryRefinesRun(ss, steps, i);
    LatestReadIsLastWrite(states, dbSteps, |dbSteps|, Bytewise.Rank(key));
    assert dbSteps[..|dbSteps|] == dbSteps;
    LastWriteIsAmongWrites(dbSteps, Bytewise.Rank(key));
    LastWriteIsLastUpdate(AllUpdates(ss[i].done), key);
  }

  ghost predicate HeldThroughout(ss: seq<State>, i: nat, j: nat, q: nat)
    requires i <= j < |ss|
  {
    forall k :: i <= k <= j ==> q in ss[k].db.snapshots
  }

  /** One step of the protocol changes nothing a live snapshot reads. */
  lemma StepKeepsSnapshot(s: State, s': State, step: Step, user: UserKey, q: nat)
    requires Inv(s) && CommitStep(s, s', step) && q in s.db.snapshots && q in s'.db.snapshots
    ensures Read(Entries(s'.db), user, q) == Read(Entries(s.db), user, q)
  {
    assert Database.Inv(s.db);
    hide Inv, Safe, Next, Entries, Read, CommitStep, Database.Inv;
    var states, dbSteps, _ := StepRefines(s, s', step);
    assert LiveThroughout(states, 0, |dbSteps|, q);
    LiveSnapshotIsFrozen(states, dbSteps, 0, |dbSteps|, q, user);
  }

  /** A snapshot taken at some moment sees, for as long as it is held, the batches finished
      at that moment, each wholly, however many writers have come and gone since. */
  lemma {:induction false} SnapshotsSeeWholeBatches(ss: seq<State>, steps: seq<Step>, i: nat, j: nat, key: Bytes)
    requires IsHistory(ss, steps) && i <= j < |ss| && HeldThroughout(ss, i, j, ss[i].db.lastSequence)
    ensures Read(Entries(InMemory(ss[j])), Bytewise.Rank(key), ss[i].db.lastSequence)
         == LastUpdate(AllUpdates(ss[i].done), key)
    decreases j - i
  {
    hide Inv, Safe, Next, Entries, Read, InMemory, AllUpdates, Bytewise.Rank, CommitStep, Init, Database.Init,
         Database.Inv;
    if i == j {
      ReadsSeeWholeBatches(ss, steps, i, key);
    } else {
      SnapshotsSeeWholeBatches(ss, steps, i, j - 1, key);
      AlwaysInv(ss, steps, j - 1);
      SnapshotStep(ss[j - 1], ss[j], steps[j - 1], Bytewise.Rank(key), ss[i].db.lastSequence);
    }
  }

  lemma SnapshotStep(s: State, s': State, step: Step, user: UserKey, q: nat)
    requires Inv(s) && CommitStep(s, s', step) && q in s.db.snapshots && q in s'.db.snapshots
    ensures Read(Entries(InMemory(s')), user, q) == Read(Entries(InMemory(s)), user, q)
  {
    hide Inv, Entries, Read, InMemory, CommitStep, Database.Inv;
    StepKeepsInv(s, s', step);
    InvOf(s);
    InvOf(s');
    SnapshotIsPast(s.db, q);
    SnapshotIsPast(s'.db, q);
    StepKeepsSnapshot(s, s', step, user, q);
    UnpublishedIsUnseen(s, user, q);
    UnpublishedIsUnseen(s', user, q);
  }

  lemma InvOf(s: State)
    requires Inv(s)
    ensures Database.Inv(s.db)
  {
  }

  lemma SnapshotIsPast(db: Database.State, q: nat)
    requires Database.Inv(db) && q in db.snapshots
    ensures q <= db.lastSequence
  {
    hide Database.Inv;
    SmallestIsPast(db);
  }

  // ---------------------------------------------------------------------------- the log

  /** The writers whose group is in the log but not yet published. */
  function BeingWritten(s: State): seq<Writer> {
    if s.phase.Inserting? && s.phase.count <= |s.queue| then s.queue[..s.phase.count] else []
  }

  /** After a crash at any moment, replaying the log gives the finished batches, and either
      nothing or all of the group being written. */
  lemma LogHoldsWholeGroups(ss: seq<State>, steps: seq<Step>, i: nat)
    requires IsHistory(ss, steps) && i < |ss|
    ensures LogFits(ss[i].log)
    ensures LoggedUpdates(ss[i].log) == AllUpdates(ss[i].done + BeingWritten(ss[i]))
  {
    hide CommitStep, Init, Database.Inv, AllUpdates, LoggedUpdates, LogFits, EntriesFrom;
    var s := ss[i];
    AlwaysInv(ss, steps, i);
    if s.phase.Inserting? {
      AllUpdatesJoin(s.done, s.queue[..s.phase.count]);
    } else {
      assert s.done + [] == s.done;
    }
  }

  /** Nothing reaches the memtable before its record is in the log. */
  lemma LoggedBeforeInserted(ss: seq<State>, steps: seq<Step>, i: nat)
    requires IsHistory(ss, steps) && i < |ss| && ss[i].inflight != []
    ensures ss[i].phase.Inserting? && ss[i].log != []
    ensures var r := ss[i].log[|ss[i].log| - 1];
      r.first == ss[i].db.lastSequence + 1 && r.updates == ss[i].phase.group && r.writers == BeingWritten(ss[i])
  {
    hide CommitStep, Init, Database.Inv, AllUpdates, EntriesFrom;
    AlwaysInv(ss, steps, i);
  }

  /** What a call without a batch gets: an empty memtable if it comes to the front, but when a
      group takes it along, the memtable is empty afterwards only if there was nothing in it. */
  lemma CallWithoutBatch(s: State, s': State, step: Step)
    requires Inv(s) && CommitStep(s, s', step)
    ensures step.FinishWithoutBatch? ==> s'.db.mem == []
    ensures step.Publish? ==> (s'.db.mem == [] <==> s.db.mem == [] && s.phase.group == [])
  {
    hide Database.Inv, LoggedUpdates, LogFits, AllUpdates, Next, FormsGroup, LogStep, BackgroundStep, InsertStep,
         FormStep;
    if step.Publish? {
      EntriesAreNumbered(s.db.lastSequence + 1, s.phase.group);
      assert s.phase.group[..|s.phase.group|] == s.phase.group;
      InsertedLength(s.db.mem, s.inflight);
    }
  }

  lemma {:induction false} InsertedLength(run: seq<Entry>, entries: seq<Entry>)
    ensures |InsertAll(run, entries)| == |run| + |entries|
  {
    if entries != [] {
      InsertedLength(run, entries[..|entries| - 1]);
    }
  }

  lemma PairIsGroup(u: Update)
    ensures var queue := [Writer(Some([u]), false), Writer(None, false)];
      IsGroup(queue, 2) && AllUpdates(queue[..2]) == [u]
  {
    hide Records;
    var queue := [Writer(Some([u]), false), Writer(None, false)];
    assert queue[..1] == [queue[0]] && queue[..2] == queue;
    FirstWriter(queue);
    OneWriterMore(queue, 1);
    assert Joins(queue, 1);
  }

  lemma PairForms(s: State, s': State, u: Update)
    requires s.queue == [Writer(Some([u]), false), Writer(None, false)] && s.phase.MakingRoom? && s.db.lastSequence == 0
    requires s' == s.(phase := Logging(2, [u]))
    ensures CommitStep(s, s', FormGroup)
  {
    hide IsGroup, AllUpdates, UpdatesOf;
    PairIsGroup(u);
    assert FormsGroup(s, s', 2);
  }

  /** Two calls on the empty database, one with a batch and one without: they become one group,
      and when the second call is done the memtable is not empty. */
  lemma CallWithoutBatchTakenAlong(start: State, u: Update) returns (ss: seq<State>, steps: seq<Step>)
    requires Init(start)
    ensures IsHistory(ss, steps) && ss[0] == start
    ensures var end := ss[|steps|];
      end.done == [Writer(Some([u]), false), Writer(None, false)] && end.phase == MakingRoom(false) && end.db.mem != []
  {
    hide Database.Init, InsertAll, EntryFor, FormStep, BackgroundStep, Next;
    var first, call := Writer(Some([u]), false), Writer(None, false);
    var queue := [first, call];
    NothingWritten(start.db);
    assert queue[..2] == queue && queue[2..] == [];
    var s1 := start.(arrived := [first], queue := [first]);
    var s2 := s1.(arrived := queue, queue := queue);
    var s3 := s2.(phase := Logging(2, [u]));
    var s4 := s3.(phase := Inserting(2, [u], 0), log := [Record(1, [u], queue, false)]);
    var e := EntryFor(1, u);
    var s5 := s4.(phase := Inserting(2, [u], 1), inflight := [e]);
    var s6 := s5.(phase := MakingRoom(false), inflight := [],
                  db := s5.db.(mem := InsertAll(s5.db.mem, [e]), lastSequence := 1), done := queue, queue := []);
    assert CommitStep(start, s1, Arrive(first));
    assert CommitStep(s1, s2, Arrive(call));
    PairForms(s2, s3, u);
    assert CommitStep(s3, s4, AddToLog);
    assert CommitStep(s4, s5, InsertOne);
    assert CommitStep(s5, s6, Publish);
    InsertedLength(s5.db.mem, [e]);
    hide CommitStep;
    ss := [start, s1, s2, s3, s4, s5, s6];
    steps := [Arrive(first), Arrive(call), FormGroup, AddToLog, InsertOne, Publish];
  }
}
