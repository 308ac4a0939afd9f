/** A batch of updates as bytes: twelve bytes of header and a record for each update. */
module WriteBatches {
  import opened Coding

  datatype Update = Put(key: Bytes, value: Bytes) | Delete(key: Bytes)

  datatype Status = Ok | TooSmall | BadPut | BadDelete | UnknownTag | WrongCount

  const HEADER: nat := 12
  const TYPE_DELETION: Byte := 0
  const TYPE_VALUE: Byte := 1
  const TWO_TO_31: nat := 0x8000_0000

  function Record(u: Update): (r: Bytes)
    ensures |r| > 0
  {
    match u
    case Put(key, value) => [TYPE_VALUE] + Prefixed(key) + Prefixed(value)
    case Delete(key) => [TYPE_DELETION] + Prefixed(key)
  }

  function Records(updates: seq<Update>): Bytes {
    if updates == [] then [] else Record(updates[0]) + Records(updates[1..])
  }

  function BatchBytes(sequence: nat, updates: seq<Update>): (r: Bytes)
    ensures |r| == HEADER + |Records(updates)|
  {
    Fixed(sequence, 8) + Fixed(|updates|, 4) + Records(updates)
  }

  /** A slice's length is stored in 32 bits. */
  predicate Fits(u: Update) {
    |u.key| < TWO_TO_32 && (u.Put? ==> |u.value| < TWO_TO_32)
  }

  ghost predicate AllFit(updates: seq<Update>) {
    forall i :: 0 <= i < |updates| ==> Fits(updates[i])
  }

  lemma {:induction false} RecordsAppend(a: seq<Update>, b: seq<Update>)
    ensures Records(a + b) == Records(a) + Records(b)
  {
    hide Record;
    if a == [] {
      assert a + b == b;
    } else {
      assert (a + b)[1..] == a[1..] + b;
      RecordsAppend(a[1..], b);
    }
  }

  lemma RecordsOfOne(u: Update)
    ensures Records([u]) == Record(u)
  {
    hide Record;
    assert Records([]) == [];
  }

  // ------------------------------------------------------------------------- reading back

  datatype Parsed = Parsed(update: Update, rest: Bytes) | Failed(status: Status)

  function ReadRecord(input: Bytes): (r: Parsed)
    requires input != []
    ensures r.Parsed? ==> |r.rest| < |input|
    ensures r.Failed? ==> r.status == BadPut || r.status == BadDelete || r.status == UnknownTag
  {
    if input[0] == TYPE_VALUE then
      match ReadPrefixed(input[1..])
      case None => Failed(BadPut)
      case Some((key, rest)) => (
        match ReadPrefixed(rest)
        case None => Failed(BadPut)
        case Some((value, rest')) => Parsed(Put(key, value), rest')
      )
    else if input[0] == TYPE_DELETION then
      match ReadPrefixed(input[1..])
      case None => Failed(BadDelete)
      case Some((key, rest)) => Parsed(Delete(key), rest)
    else Failed(UnknownTag)
  }

  /** The updates up to the first record that cannot be read. */
  function ReadRecords(input: Bytes): (seq<Update>, Status)
    decreases |input|
  {
    if input == [] then ([], Ok) else
      match ReadRecord(input)
      case Failed(status) => ([], status)
      case Parsed(u, rest) =>
        var (updates, status) := ReadRecords(rest);
        ([u] + updates, status)
  }

  /** The handler calls made for any bytes, and the status returned after them. */
  function Iterated(rep: Bytes): (seq<Update>, Status) {
    if |rep| < HEADER then ([], TooSmall) else
      var (updates, status) := ReadRecords(rep[HEADER..]);
      (updates, if status.Ok? && |updates| != FixedValue(rep[8..12]) then WrongCount else status)
  }

  lemma RecordRoundTrip(u: Update, rest: Bytes)
    requires Fits(u)
    ensures ReadRecord(Record(u) + rest) == Parsed(u, rest)
  {
    hide Prefixed, ReadPrefixed;
    var all := Record(u) + rest;
    match u {
      case Put(key, value) =>
        assert all[1..] == Prefixed(key) + (Prefixed(value) + rest);
        PrefixedRoundTrip(key, Prefixed(value) + rest);
        PrefixedRoundTrip(value, rest);
      case Delete(key) =>
        assert all[1..] == Prefixed(key) + rest;
        PrefixedRoundTrip(key, rest);
    }
  }

  lemma {:induction false} RecordsRoundTrip(updates: seq<Update>)
    requires AllFit(updates)
    ensures ReadRecords(Records(updates)) == (updates, Ok)
  {
    hide Record, ReadRecord, Fits;
    if updates != [] {
      RecordRoundTrip(updates[0], Records(updates[1..]));
      RecordsRoundTrip(updates[1..]);
      assert updates == [updates[0]] + updates[1..];
    }
  }

  lemma CountIsStored(sequence: nat, updates: seq<Update>)
    requires |updates| < TWO_TO_31
    ensures FixedValue(BatchBytes(sequence, updates)[8..12]) == |updates|
    ensures BatchBytes(sequence, updates)[HEADER..] == Records(updates)
    ensures BatchBytes(sequence, updates)[..8] == Fixed(sequence, 8)
  {
    hide Fixed, Records, FixedValue;
    assert BatchBytes(sequence, updates)[8..12] == Fixed(|updates|, 4);
    Fixed32RoundTrip(|updates|);
  }

  /** Iterating a batch makes exactly the calls that built it. */
  lemma IterateRoundTrip(sequence: nat, updates: seq<Update>)
    requires AllFit(updates) && |updates| < TWO_TO_31
    ensures Iterated(BatchBytes(sequence, updates)) == (updates, Ok)
  {
    hide Records, ReadRecords, BatchBytes;
    CountIsStored(sequence, updates);
    RecordsRoundTrip(updates);
  }

  lemma EmptyBatch()
    ensures BatchBytes(0, []) == [0, 0, 0, 0, 0, 0, 0, 0, 0, 0, 0, 0]
  {
    assert Fixed(0, 4) == [0, 0, 0, 0] by {
      assert Fixed(0, 2) == [0, 0];
    }
    assert Fixed(0, 8) == [0, 0, 0, 0, 0, 0, 0, 0] by {
      assert Fixed(0, 6) == [0, 0] + Fixed(0, 4);
    }
  }

  class WriteBatch {
    var rep: Bytes
    ghost var sequence: nat
    ghost var updates: seq<Update>

    ghost predicate Valid()
      reads this
    {
      && AllFit(updates) && |updates| < TWO_TO_31 && sequence < TWO_TO_64
      && rep == BatchBytes(sequence, updates)
    }

    constructor ()
      ensures Valid() && updates == [] && sequence == 0
    {
      rep := [0, 0, 0, 0, 0, 0, 0, 0, 0, 0, 0, 0];
      sequence, updates := 0, [];
      EmptyBatch();
    }

    method Clear()
      modifies this
      ensures Valid() && updates == [] && sequence == 0
    {
      rep := [0, 0, 0, 0, 0, 0, 0, 0, 0, 0, 0, 0];
      sequence, updates := 0, [];
      EmptyBatch();
    }

    method Count() returns (n: nat)
      requires Valid()
      ensures n == |updates|
    {
      hide Valid, Fixed, FixedValue, Records, BatchBytes;
      ValidBytes();
      CountIsStored(sequence, updates);
      n := FixedValue(rep[8..12]);
    }

    method Sequence() returns (n: nat)
      requires Valid()
      ensures n == sequence
    {
      hide Fixed, FixedValue, Records;
      CountIsStored(sequence, updates);
      Fixed64RoundTrip(sequence);
      n := FixedValue(rep[..8]);
    }

    lemma ValidBytes()
      requires Valid()
      ensures rep == BatchBytes(sequence, updates) && |updates| < TWO_TO_31 && AllFit(updates) && sequence < TWO_TO_64
      ensures |rep| >= HEADER
    {
    }

    method SetSequence(n: nat)
      requires Valid() && n < TWO_TO_64
      modifies this
      ensures Valid() && updates == old(updates) && sequence == n
    {
      hide Fixed, Records;
      rep := Fixed(n, 8) + rep[8..];
      sequence := n;
    }

    /** Patches the count in the header and appends the records of `added`. */
    method Extend(n: nat, records: Bytes, ghost added: seq<Update>)
      requires Valid() && AllFit(added) && n == |updates| + |added| < TWO_TO_31 && records == Records(added)
      modifies this
      ensures Valid() && updates == old(updates) + added && sequence == old(sequence)
    {
      hide Fixed, Records, Fits;
      CountIsStored(sequence, updates);
      RecordsAppend(updates, added);
      rep := rep[..8] + Fixed(n, 4) + rep[12..];
      rep := rep + records;
      updates := updates + added;
    }

    method Put(key: Bytes, value: Bytes)
      requires Valid() && Fits(Update.Put(key, value)) && |updates| + 1 < TWO_TO_31
      modifies this
      ensures Valid() && updates == old(updates) + [Update.Put(key, value)] && sequence == old(sequence)
    {
      hide Records, Prefixed, Valid;
      var n := Count();
      RecordsOfOne(Update.Put(key, value));
      Extend(n + 1, [TYPE_VALUE] + Prefixed(key) + Prefixed(value), [Update.Put(key, value)]);
    }

    method Delete(key: Bytes)
      requires Valid() && Fits(Update.Delete(key)) && |updates| + 1 < TWO_TO_31
      modifies this
      ensures Valid() && updates == old(updates) + [Update.Delete(key)] && sequence == old(sequence)
    {
      hide Records, Prefixed, Valid;
      var n := Count();
      RecordsOfOne(Update.Delete(key));
      Extend(n + 1, [TYPE_DELETION] + Prefixed(key), [Update.Delete(key)]);
    }

    /** Appending a batch, possibly to itself, adds its updates after the present ones. */
    method Append(source: WriteBatch)
      requires Valid() && source.Valid() && |updates| + |source.updates| < TWO_TO_31
      modifies this
      ensures Valid() && updates == old(updates) + old(source.updates) && sequence == old(sequence)
    {
      hide Records, Valid;
      var n := Count();
      var m := source.Count();
      source.ValidBytes();
      CountIsStored(source.sequence, source.updates);
      Extend(n + m, source.rep[HEADER..], source.updates);
    }

    /** Calls the handler for each record, whatever the bytes are. */
    method Iterate() returns (calls: seq<Update>, status: Status)
      ensures (calls, status) == Iterated(rep)
    {
      hide ReadRecord, FixedValue;
      if |rep| < HEADER {
        return [], TooSmall;
      }
      calls := [];
      var input := rep[HEADER..];
      assert [] + ReadRecords(input).0 == ReadRecords(input).0;
      while input != []
        invariant ReadRecords(rep[HEADER..]) == (calls + ReadRecords(input).0, ReadRecords(input).1)
        decreases |input|
      {
        match ReadRecord(input) {
          case Failed(bad) =>
            assert calls + [] == calls;
            return calls, bad;
          case Parsed(u, rest) =>
            assert calls + ([u] + ReadRecords(rest).0) == (calls + [u]) + ReadRecords(rest).0;
            calls, input := calls + [u], rest;
        }
      }
      assert calls + [] == calls;
      status := if |calls| != FixedValue(rep[8..12]) then WrongCount else Ok;
    }
  }
}
