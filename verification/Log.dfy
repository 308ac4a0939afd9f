/** The log: records fragmented over blocks, and what a reader makes of any byte-prefix of
    a log, as a crash leaves it. */
module Log {
  import opened Coding
  import opened Checksums
  import Seqs

  const BLOCK_SIZE: nat := 32768
  const HEADER_SIZE: nat := 7

  const FULL: Byte := 1
  const FIRST: Byte := 2
  const MIDDLE: Byte := 3
  const LAST: Byte := 4

  // -------------------------------------------------------------------------- the layout

  /** The checksum of the type and payload of a fragment, as stored.  The layout is that of
      any checksum that can be computed in parts; module `Crc32cOfBytes` has the one in use. */
  function Checksum(extend: Extend, kind: Byte, payload: Bytes): (r: nat)
    ensures r < TWO_TO_32
  {
    Mask(extend(0, [kind] + payload))
  }

  function Physical(extend: Extend, kind: Byte, payload: Bytes): (r: Bytes)
    requires |payload| < 0x1_0000
    ensures |r| == HEADER_SIZE + |payload|
  {
    Fixed(Checksum(extend, kind, payload), 4) + [|payload| % 256, |payload| / 256] + [kind] + payload
  }

  /** Bytes of trailer at a place where no header fits in the rest of the block. */
  function Pad(at: nat): (r: nat)
    ensures r < HEADER_SIZE
    ensures (at + r) % BLOCK_SIZE + HEADER_SIZE <= BLOCK_SIZE
  {
    var leftover := BLOCK_SIZE - at % BLOCK_SIZE;
    if leftover < HEADER_SIZE then leftover else 0
  }

  /** The payload length of the next fragment. */
  function FragmentLength(at: nat, left: nat): (r: nat)
    ensures r <= left && (at + Pad(at)) % BLOCK_SIZE + HEADER_SIZE + r <= BLOCK_SIZE
    ensures r < left ==> (at + Pad(at)) % BLOCK_SIZE + HEADER_SIZE + r == BLOCK_SIZE
  {
    var avail := BLOCK_SIZE - (at + Pad(at)) % BLOCK_SIZE - HEADER_SIZE;
    if left < avail then left else avail
  }

  function FragmentKind(begin: bool, end: bool): Byte {
    if begin && end then FULL else if begin then FIRST else if end then LAST else MIDDLE
  }

  /** Where the next fragment ends. */
  function After(at: nat, left: nat): nat {
    at + Pad(at) + HEADER_SIZE + FragmentLength(at, left)
  }

  /** The bytes of the rest of a record, from place `at` of the file on. */
  function Emitted(extend: Extend, at: nat, data: Bytes, begin: bool): Bytes
    decreases |data|, (at + Pad(at)) % BLOCK_SIZE
  {
    var n := FragmentLength(at, |data|);
    var front := Zeros(Pad(at)) + Physical(extend, FragmentKind(begin, n == |data|), data[..n]);
    if n == |data| then front else front + Emitted(extend, After(at, |data|), data[n..], false)
  }

  /** The file that adding records one after another leaves. */
  function Written(extend: Extend, records: seq<Bytes>): Bytes {
    if records == [] then [] else
      var front := Written(extend, records[..|records| - 1]);
      front + Emitted(extend, |front|, records[|records| - 1], true)
  }

  lemma WrittenGrows(extend: Extend, records: seq<Bytes>, r: Bytes)
    ensures Written(extend, records + [r])
         == Written(extend, records) + Emitted(extend, |Written(extend, records)|, r, true)
  {
    assert (records + [r])[..|records|] == records;
  }

  // -------------------------------------------------------------------------- the writer

  ghost predicate TypeCrcs(extend: Extend, typeCrc: seq<Crc32>) {
    && Composes(extend)
    && |typeCrc| == LAST + 1 && forall kind :: 0 <= kind <= LAST ==> typeCrc[kind] == extend(0, [kind])
  }

  class Writer {
    const extend: Extend
    const typeCrc: seq<Crc32>   // where the checksum of a fragment goes on from
    var dest: Bytes
    var blockOffset: nat

    ghost predicate Valid()
      reads this
    {
      && TypeCrcs(extend, typeCrc)
      && blockOffset <= BLOCK_SIZE && blockOffset % BLOCK_SIZE == |dest| % BLOCK_SIZE
    }

    constructor (extend: Extend)
      requires Composes(extend)
      ensures Valid() && dest == [] && this.extend == extend
    {
      this.extend, dest, blockOffset := extend, [], 0;
      typeCrc := seq(LAST + 1, kind requires 0 <= kind <= LAST => extend(0, [kind]));
    }

    /** Goes on writing at the end of an existing file. */
    constructor Reopen(extend: Extend, existing: Bytes)
      requires Composes(extend)
      ensures Valid() && dest == existing && this.extend == extend
    {
      this.extend, dest, blockOffset := extend, existing, |existing| % BLOCK_SIZE;
      typeCrc := seq(LAST + 1, kind requires 0 <= kind <= LAST => extend(0, [kind]));
    }

    /** The checksum of type and payload goes on from that of the type. */
    method EmitPhysicalRecord(kind: Byte, payload: Bytes)
      requires Valid() && kind <= LAST && blockOffset + HEADER_SIZE + |payload| <= BLOCK_SIZE
      modifies this
      ensures Valid() && dest == old(dest) + Physical(extend, kind, payload)
      ensures blockOffset == old(blockOffset) + HEADER_SIZE + |payload|
    {
      hide Fixed, Mask;
      OffsetMoves(blockOffset, |dest|, HEADER_SIZE + |payload|);
      ComposesAt(extend, 0, [kind], payload);
      var crc := Mask(extend(typeCrc[kind], payload));
      var header := Fixed(crc, 4) + [|payload| % 256, |payload| / 256] + [kind];
      dest := dest + header;
      dest := dest + payload;
      blockOffset := blockOffset + HEADER_SIZE + |payload|;
      assert dest == old(dest) + (header + payload);
    }

    /** Switches to a new block when no header fits; returns the room for payload. */
    method SwitchBlock() returns (avail: nat)
      requires Valid()
      modifies this
      ensures Valid() && dest == old(dest) + Zeros(Pad(|old(dest)|)) && blockOffset == |dest| % BLOCK_SIZE
      ensures forall left: nat :: FragmentLength(|old(dest)|, left) == if left < avail then left else avail
      ensures avail + HEADER_SIZE + blockOffset == BLOCK_SIZE
    {
      var leftover := BLOCK_SIZE - blockOffset;
      assert dest + [] == dest;
      if leftover < HEADER_SIZE {
        if leftover > 0 {
          dest := dest + Zeros(leftover);
        }
        blockOffset := 0;
      }
      avail := BLOCK_SIZE - blockOffset - HEADER_SIZE;
    }

    method AddRecord(slice: Bytes)
      requires Valid()
      modifies this
      ensures Valid() && dest == old(dest) + Emitted(extend, |old(dest)|, slice, true)
      // Also when the writer was reopened at the end of such a file.
      ensures forall records :: old(dest) == Written(extend, records) ==> dest == Written(extend, records + [slice])
    {
      hide Emitted, Physical, Pad, FragmentLength, Written, TypeCrcs;
      forall records | old(dest) == Written(extend, records)
        ensures Written(extend, records + [slice]) == old(dest) + Emitted(extend, |old(dest)|, slice, true)
      {
        WrittenGrows(extend, records, slice);
      }
      var left, begin := slice, true;
      ghost var all := dest + Emitted(extend, |dest|, slice, true);
      while true
        invariant Valid() && dest + Emitted(extend, |dest|, left, begin) == all
        decreases |left|, (|dest| + Pad(|dest|)) % BLOCK_SIZE
      {
        ghost var before := dest;
        EmittedSplits(extend, before, left, begin);
        FragmentsAdvance(|before|, |left|);
        var avail := SwitchBlock();
        var fragmentLength := if |left| < avail then |left| else avail;
        var end := |left| == fragmentLength;
        EmitPhysicalRecord(FragmentKind(begin, end), left[..fragmentLength]);
        if end {
          return;
        }
        left, begin := left[fragmentLength..], false;
      }
    }
  }

  /** An empty fragment ends a block. */
  lemma FragmentsAdvance(at: nat, left: nat)
    ensures FragmentLength(at, left) == 0 < left ==>
      (After(at, left) + Pad(After(at, left))) % BLOCK_SIZE < (at + Pad(at)) % BLOCK_SIZE
  {
  }

  lemma OffsetMoves(blockOffset: nat, at: nat, n: nat)
    requires blockOffset + n <= BLOCK_SIZE
    ensures blockOffset == at % BLOCK_SIZE ==> (blockOffset + n) % BLOCK_SIZE == (at + n) % BLOCK_SIZE
  {
  }

  lemma EmittedSplits(extend: Extend, dest: Bytes, data: Bytes, begin: bool)
    ensures var at, n := |dest|, FragmentLength(|dest|, |data|);
      var dest' := dest + Zeros(Pad(at)) + Physical(extend, FragmentKind(begin, n == |data|), data[..n]);
      && |dest'| == After(at, |data|)
      && dest + Emitted(extend, at, data, begin)
         == if n == |data| then dest' else dest' + Emitted(extend, |dest'|, data[n..], false)
  {
    var at, n := |dest|, FragmentLength(|dest|, |data|);
    var front := Zeros(Pad(at)) + Physical(extend, FragmentKind(begin, n == |data|), data[..n]);
    assert dest + front == dest + Zeros(Pad(at)) + Physical(extend, FragmentKind(begin, n == |data|), data[..n]);
    if n < |data| {
      var rest := Emitted(extend, After(at, |data|), data[n..], false);
      assert dest + (front + rest) == (dest + front) + rest;
    }
  }

  // -------------------------------------------------------------------------- the reader

  const END_OF_FILE: nat := 5
  const BAD_RECORD: nat := 6

  /** At place `at` of `log`, after its pad, stands a fragment that fits its block. */
  ghost predicate Stored(extend: Extend, log: Bytes, at: nat, kind: Byte, payload: Bytes) {
    var start := at + Pad(at);
    && FULL <= kind <= LAST && start % BLOCK_SIZE + HEADER_SIZE + |payload| <= BLOCK_SIZE
    && Seqs.StandsAt(log, start, Physical(extend, kind, payload))
  }

  function Unmasked(s: Bytes): nat
    requires |s| == 4
  {
    FixedValueFits(s);
    Unmask(FixedValue(s))
  }

  class Reader {
    const extend: Extend
    const file: Bytes
    const checksum: bool
    var buffer: Bytes
    var eof: bool
    var endOfBufferOffset: nat
    var corruptions: nat

    /** The buffer is what is left of the last block read. */
    ghost predicate Valid()
      reads this
    {
      && |buffer| <= endOfBufferOffset <= |file|
      && buffer == file[endOfBufferOffset - |buffer|..endOfBufferOffset]
      && if eof then endOfBufferOffset == |file| && |buffer| <= |file| % BLOCK_SIZE
         else endOfBufferOffset % BLOCK_SIZE == 0 && |buffer| <= BLOCK_SIZE
    }

    ghost function Position(): nat
      reads this
    {
      if |buffer| <= endOfBufferOffset then endOfBufferOffset - |buffer| else 0
    }

    lemma PositionInFile()
      requires Valid()
      ensures Position() <= |file|
    {
    }

    constructor (extend: Extend, file: Bytes, checksum: bool)
      ensures Valid() && Position() == 0 && corruptions == 0
      ensures this.extend == extend && this.file == file && this.checksum == checksum
    {
      this.extend, this.file, this.checksum := extend, file, checksum;
      buffer, eof, endOfBufferOffset, corruptions := [], false, 0, 0;
    }

    method ReportCorruption()
      modifies `corruptions
      ensures corruptions == old(corruptions) + 1 && (old(Valid()) ==> Valid())
    {
      corruptions := corruptions + 1;
    }

    /** Reads the next block of the file; less than a block is left only at its end. */
    method ReadBlock()
      requires Valid() && !eof && |buffer| < HEADER_SIZE
      modifies `buffer, `eof, `endOfBufferOffset
      ensures Valid() && Position() == old(endOfBufferOffset)
      ensures endOfBufferOffset > old(endOfBufferOffset) || eof
      ensures eof || |buffer| == BLOCK_SIZE
    {
      var n := if |file| - endOfBufferOffset < BLOCK_SIZE then |file| - endOfBufferOffset else BLOCK_SIZE;
      buffer := file[endOfBufferOffset..endOfBufferOffset + n];
      endOfBufferOffset := endOfBufferOffset + n;
      if n < BLOCK_SIZE {
        eof := true;
      }
    }

    /** Fills the buffer until it holds a header or the file ends. */
    method FillBuffer() returns (more: bool)
      requires Valid()
      modifies `buffer, `eof, `endOfBufferOffset
      ensures Valid() && (more <==> |buffer| >= HEADER_SIZE) && (!more ==> eof)
      ensures Position() >= old(Position())
      ensures more ==> Position() == old(Position()) + Pad(old(Position()))
      ensures !more ==> old(Position()) + Pad(old(Position())) + HEADER_SIZE > |file|
    {
      while |buffer| < HEADER_SIZE
        invariant Valid()
        invariant (buffer == old(buffer) && eof == old(eof) && endOfBufferOffset == old(endOfBufferOffset))
               || (Position() == old(endOfBufferOffset) && old(|buffer|) < HEADER_SIZE && !old(eof)
                   && (eof || |buffer| == BLOCK_SIZE))
        decreases if eof then 0 else 1, |file| - endOfBufferOffset
      {
        if !eof {
          ReadBlock();
        } else {
          return false;
        }
      }
      return true;
    }

    method DropBuffer()
      requires Valid()
      modifies `buffer
      ensures Valid() && Position() == endOfBufferOffset
    {
      buffer := [];
    }

    method Consume(n: nat)
      requires Valid() && n <= |buffer|
      modifies `buffer
      ensures Valid() && Position() == old(Position()) + n
    {
      buffer := buffer[n..];
    }

    method ChecksumFits(length: nat) returns (fits: bool)
      requires HEADER_SIZE + length <= |buffer|
      ensures fits <==> (checksum ==> Unmasked(buffer[..4]) == extend(0, buffer[6..HEADER_SIZE + length]))
    {
      if !checksum {
        return true;
      }
      var expected := Unmasked(buffer[..4]);
      var actual := extend(0, buffer[6..HEADER_SIZE + length]);
      return actual == expected;
    }

    /** Parses the fragment at the front of the buffer. */
    method ParseRecord(ghost log: Bytes, ghost k: Byte, ghost payload: Bytes, ghost at: nat)
      returns (kind: nat, result: Bytes)
      requires Valid() && |buffer| >= HEADER_SIZE && Position() == at + Pad(at)
      modifies this
      ensures Valid()
      ensures kind != END_OF_FILE ==> Position() > old(Position())
      ensures file <= log && Stored(extend, log, at, k, payload) ==>
          && corruptions == old(corruptions)
          && var end := at + Pad(at) + HEADER_SIZE + |payload|;
             if end <= |file| then kind == k && result == payload && Position() == end else kind == END_OF_FILE
    {
      hide Stored, Pad, Unmasked;
      ghost var stored := file <= log && Stored(extend, log, at, k, payload);
      if stored {
        StoredHeader(extend, file, log, at, k, payload);
        StoredPayload(extend, file, log, at, k, payload, buffer);
        FragmentsEndInBlock(at + Pad(at), |payload|, endOfBufferOffset, |buffer|);
      }
      var low: nat, high: nat := buffer[4], buffer[5];
      var length := low + 256 * high;
      var type_ := buffer[6];
      if HEADER_SIZE + length > |buffer| {
        DropBuffer();
        if !eof {
          ReportCorruption();
          return BAD_RECORD, [];
        }
        return END_OF_FILE, [];
      }
      if type_ == 0 && length == 0 {
        DropBuffer();
        return BAD_RECORD, [];
      }
      var fits := ChecksumFits(length);
      if !fits {
        DropBuffer();
        ReportCorruption();
        return BAD_RECORD, [];
      }
      kind, result := type_, buffer[HEADER_SIZE..HEADER_SIZE + length];
      Consume(HEADER_SIZE + length);
    }

    /** Reads the next fragment.  What is promised is about a file that is a prefix of a
        log with the fragment (k, payload) stored where the reader stands. */
    method ReadPhysicalRecord(ghost log: Bytes, ghost k: Byte, ghost payload: Bytes) returns (kind: nat, result: Bytes)
      requires Valid()
      modifies this
      ensures Valid()
      ensures kind != END_OF_FILE ==> Position() > old(Position())
      ensures file <= log && Stored(extend, log, old(Position()), k, payload) ==>
          && corruptions == old(corruptions)
          && var end := old(Position()) + Pad(old(Position())) + HEADER_SIZE + |payload|;
             if end <= |file| then kind == k && result == payload && Position() == end else kind == END_OF_FILE
      ensures old(Position()) == |file| ==> kind == END_OF_FILE && corruptions == old(corruptions)
    {
      hide Stored;
      ghost var at := Position();
      var more := FillBuffer();
      if !more {
        buffer := [];
        return END_OF_FILE, [];
      }
      kind, result := ParseRecord(log, k, payload, at);
    }

    /** Reads the next record.  What is promised is about a file that is a prefix of a log
        in which a record stands where the reader does. */
    method ReadRecord(ghost log: Bytes, ghost data: Bytes) returns (ok: bool, record: Bytes)
      requires Valid()
      modifies this
      ensures Valid()
      ensures file <= log && Holds(extend, log, old(Position()), data, true) ==>
          && corruptions == old(corruptions)
          && var end := RecordEnd(old(Position()), |data|);
             if end <= |file| then ok && record == data && Position() == end else !ok
      ensures old(Position()) == |file| ==> !ok && corruptions == old(corruptions)
    {
      hide Stored, Emitted, Holds, RecordEnd, FragmentLength, Pad, After, Valid;
      ghost var start, known := Position(), file <= log && Holds(extend, log, Position(), data, true);
      ghost var left, begin := data, true;
      var scratch: Bytes, inFragmentedRecord := [], false;
      while true
        invariant Valid()
        invariant start == |file| ==> Position() == start && corruptions == old(corruptions)
        invariant known ==> corruptions == old(corruptions) && Holds(extend, log, Position(), left, begin)
        invariant known ==> RecordEnd(Position(), |left|) == RecordEnd(start, |data|)
        invariant known ==> scratch + left == data && (begin <==> !inFragmentedRecord) && (begin ==> scratch == [])
        decreases |file| - Position()
      {
        ghost var at, n := Position(), FragmentLength(Position(), |left|);
        ghost var k := FragmentKind(begin, n == |left|);
        if known {
          HoldsSplits(extend, log, at, left, begin);
        }
        var kind, fragment := ReadPhysicalRecord(log, k, left[..n]);
        PositionInFile();
        if kind == 1 {
          if inFragmentedRecord && scratch != [] {
            ReportCorruption();
          }
          return true, fragment;
        } else if kind == 2 {
          if inFragmentedRecord && scratch != [] {
            ReportCorruption();
          }
          scratch, inFragmentedRecord := fragment, true;
        } else if kind == 3 {
          if !inFragmentedRecord {
            ReportCorruption();
          } else {
            scratch := scratch + fragment;
          }
        } else if kind == 4 {
          if !inFragmentedRecord {
            ReportCorruption();
          } else {
            return true, scratch + fragment;
          }
        } else if kind == END_OF_FILE {
          return false, [];
        } else if kind == BAD_RECORD {
          if inFragmentedRecord {
            ReportCorruption();
            scratch, inFragmentedRecord := [], false;
          }
        } else {
          ReportCorruption();
          scratch, inFragmentedRecord := [], false;
        }
        left, begin := left[n..], false;
      }
    }
  }

  lemma PhysicalParts(extend: Extend, kind: Byte, payload: Bytes)
    requires |payload| < 0x1_0000
    ensures var p := Physical(extend, kind, payload);
      && p[..4] == Fixed(Checksum(extend, kind, payload), 4) && p[4] == |payload| % 256 && p[5] == |payload| / 256
      && p[6] == kind && p[6..] == [kind] + payload && p[7..] == payload
  {
    var front := Fixed(Checksum(extend, kind, payload), 4);
    assert Physical(extend, kind, payload) == front + ([|payload| % 256, |payload| / 256] + ([kind] + payload));
  }

  /** The rest of a record is stored from place `at` on. */
  ghost predicate Holds(extend: Extend, log: Bytes, at: nat, data: Bytes, begin: bool) {
    Seqs.StandsAt(log, at, Emitted(extend, at, data, begin))
  }

  /** Where a record that starts at a place ends. */
  ghost function RecordEnd(at: nat, left: nat): (r: nat)
    ensures r >= After(at, left)
    decreases left, (at + Pad(at)) % BLOCK_SIZE
  {
    var n := FragmentLength(at, left);
    if n == left then After(at, left) else RecordEnd(After(at, left), left - n)
  }

  lemma {:induction false} EmittedLength(extend: Extend, at: nat, data: Bytes, begin: bool)
    ensures at + |Emitted(extend, at, data, begin)| == RecordEnd(at, |data|)
    decreases |data|, (at + Pad(at)) % BLOCK_SIZE
  {
    var n := FragmentLength(at, |data|);
    if n < |data| {
      EmittedLength(extend, After(at, |data|), data[n..], false);
    }
  }

  ghost function RestEmitted(extend: Extend, at: nat, data: Bytes): Bytes {
    var n := FragmentLength(at, |data|);
    if n == |data| then [] else Emitted(extend, After(at, |data|), data[n..], false)
  }

  lemma EmittedIs(extend: Extend, at: nat, data: Bytes, begin: bool)
    ensures var n := FragmentLength(at, |data|);
      && |data[..n]| < 0x1_0000
      && Emitted(extend, at, data, begin)
         == Zeros(Pad(at)) + Physical(extend, FragmentKind(begin, n == |data|), data[..n])
            + RestEmitted(extend, at, data)
  {
    hide Physical, Zeros;
  }

  lemma RestIsEmitted(extend: Extend, at: nat, data: Bytes)
    ensures var n := FragmentLength(at, |data|);
      n < |data| ==> RestEmitted(extend, at, data) == Emitted(extend, After(at, |data|), data[n..], false)
  {
  }

  lemma RecordEndStep(at: nat, left: nat)
    ensures var n := FragmentLength(at, left);
      && n <= left && After(at, left) == at + Pad(at) + HEADER_SIZE + n
      && RecordEnd(at, left) == if n == left then After(at, left) else RecordEnd(After(at, left), left - n)
  {
  }

  lemma HoldsSplits(extend: Extend, log: Bytes, at: nat, data: Bytes, begin: bool)
    requires Holds(extend, log, at, data, begin)
    ensures var n := FragmentLength(at, |data|);
      && n <= |data| && Stored(extend, log, at, FragmentKind(begin, n == |data|), data[..n])
      && After(at, |data|) == at + Pad(at) + HEADER_SIZE + n
      && RecordEnd(at, |data|) == (if n == |data| then After(at, |data|) else RecordEnd(After(at, |data|), |data| - n))
      && (n < |data| ==> Holds(extend, log, After(at, |data|), data[n..], false))
  {
    hide *;
    var n := FragmentLength(at, |data|);
    var kind := FragmentKind(begin, n == |data|);
    RecordEndStep(at, |data|);
    HoldsParts(extend, log, at, data, begin);
    StoredIs(extend, log, at, kind, data[..n]);
    if n < |data| {
      RestIsEmitted(extend, at, data);
      HoldsIs(extend, log, After(at, |data|), data[n..], false);
    }
  }

  lemma HoldsIs(extend: Extend, log: Bytes, at: nat, data: Bytes, begin: bool)
    ensures Holds(extend, log, at, data, begin) <==> Seqs.StandsAt(log, at, Emitted(extend, at, data, begin))
  {
    hide Emitted, Seqs.StandsAt;
  }

  lemma StoredIs(extend: Extend, log: Bytes, at: nat, kind: Byte, payload: Bytes)
    requires FULL <= kind <= LAST && (at + Pad(at)) % BLOCK_SIZE + HEADER_SIZE + |payload| <= BLOCK_SIZE
    requires Seqs.StandsAt(log, at + Pad(at), Physical(extend, kind, payload))
    ensures Stored(extend, log, at, kind, payload)
  {
    hide Physical, Seqs.StandsAt;
  }

  lemma HoldsParts(extend: Extend, log: Bytes, at: nat, data: Bytes, begin: bool)
    requires Holds(extend, log, at, data, begin)
    ensures var n := FragmentLength(at, |data|);
      && |data[..n]| == n < 0x1_0000 && (at + Pad(at)) % BLOCK_SIZE + HEADER_SIZE + n <= BLOCK_SIZE
      && FULL <= FragmentKind(begin, n == |data|) <= LAST
      && Seqs.StandsAt(log, at + Pad(at), Physical(extend, FragmentKind(begin, n == |data|), data[..n]))
      && Seqs.StandsAt(log, at + Pad(at) + (HEADER_SIZE + n), RestEmitted(extend, at, data))
  {
    hide Emitted, Physical, Zeros, RecordEnd, Pad, RestEmitted, Seqs.StandsAt, FragmentLength, After;
    var n := FragmentLength(at, |data|);
    EmittedIs(extend, at, data, begin);
    Seqs.ThreeParts(log, at, Zeros(Pad(at)), Physical(extend, FragmentKind(begin, n == |data|), data[..n]),
                    RestEmitted(extend, at, data));
  }

  lemma FixedValueFits(s: Bytes)
    requires |s| == 4
    ensures FixedValue(s) < TWO_TO_32
  {
    FixedValueBelow(s);
    PowersOf256();
  }

  /** The header of a stored fragment, as far as it is in the file. */
  lemma StoredHeader(extend: Extend, file: Bytes, log: Bytes, at: nat, kind: Byte, payload: Bytes)
    requires file <= log && Stored(extend, log, at, kind, payload)
    ensures var start := at + Pad(at);
      && FULL <= kind <= LAST && start % BLOCK_SIZE + HEADER_SIZE + |payload| <= BLOCK_SIZE
      && (start + HEADER_SIZE <= |file| ==>
            && |payload| < 0x1_0000 && file[start + 4] == |payload| % 256 && file[start + 5] == |payload| / 256
            && file[start + 6] == kind)
  {
    PhysicalParts(extend, kind, payload);
    hide Physical, Checksum, Fixed;
    var start := at + Pad(at);
    var bytes := log[start..start + HEADER_SIZE + |payload|];
    if start + HEADER_SIZE <= |file| {
      assert file[start + 4] == bytes[4] && file[start + 5] == bytes[5] && file[start + 6] == bytes[6];
    }
  }

  /** A fragment that fits its block fits what a full read left of it. */
  lemma FragmentsEndInBlock(start: nat, length: nat, end: nat, n: nat)
    requires start + n == end && 0 < n <= BLOCK_SIZE && start % BLOCK_SIZE + HEADER_SIZE + length <= BLOCK_SIZE
    ensures end % BLOCK_SIZE == 0 ==> HEADER_SIZE + length <= n
  {
  }

  /** What a buffer that starts with a stored fragment holds, if it holds all of it. */
  lemma StoredPayload(extend: Extend, file: Bytes, log: Bytes, at: nat, kind: Byte, payload: Bytes, buffer: Bytes)
    requires file <= log && Stored(extend, log, at, kind, payload)
    requires at + Pad(at) + |buffer| <= |file| && buffer == file[at + Pad(at)..at + Pad(at) + |buffer|]
    ensures HEADER_SIZE + |payload| <= |buffer| ==>
      && Unmasked(buffer[..4]) == extend(0, buffer[6..HEADER_SIZE + |payload|])
      && buffer[HEADER_SIZE..HEADER_SIZE + |payload|] == payload
  {
    if HEADER_SIZE + |payload| <= |buffer| {
      var start, n := at + Pad(at), HEADER_SIZE + |payload|;
      PhysicalParts(extend, kind, payload);
      assert buffer[..n] == log[start..start + n];
      assert buffer[..4] == buffer[..n][..4] && buffer[6..n] == buffer[..n][6..] && buffer[7..n] == buffer[..n][7..];
      Fixed32RoundTrip(Checksum(extend, kind, payload));
      UnmaskMask(extend(0, [kind] + payload));
    }
  }

  // ------------------------------------------------------------------ reading after a crash

  lemma {:induction false} WrittenPrefix(extend: Extend, records: seq<Bytes>, i: nat)
    requires i <= |records|
    ensures Written(extend, records[..i]) <= Written(extend, records)
  {
    if i == |records| {
      assert records[..i] == records;
    } else {
      var n := |records| - 1;
      WrittenPrefix(extend, records[..n], i);
      assert records[..n][..i] == records[..i];
    }
  }

  /** Every record stands where the ones before it end. */
  lemma WrittenHolds(extend: Extend, records: seq<Bytes>, i: nat)
    requires i < |records|
    ensures Holds(extend, Written(extend, records), |Written(extend, records[..i])|, records[i], true)
    ensures |Written(extend, records[..i + 1])| == RecordEnd(|Written(extend, records[..i])|, |records[i]|)
  {
    var front, at := Written(extend, records[..i]), |Written(extend, records[..i])|;
    var e := Emitted(extend, at, records[i], true);
    assert records[..i + 1] == records[..i] + [records[i]];
    WrittenGrows(extend, records[..i], records[i]);
    WrittenPrefix(extend, records, i + 1);
    EmittedLength(extend, at, records[i], true);
    hide Written, Emitted, RecordEnd;
    var log := Written(extend, records);
    assert log[..at + |e|] == front + e;
    assert log[at..at + |e|] == log[..at + |e|][at..];
  }

  ghost function EndOfRecord(extend: Extend, records: seq<Bytes>, i: nat): nat
    requires i < |records|
  {
    |Written(extend, records[..i + 1])|
  }

  /** Reads all records of a file that is any byte-prefix of a log: exactly the records whose
      last byte is there, in order, and nothing is reported corrupt. */
  method ReadAll(extend: Extend, file: Bytes, checksum: bool, ghost records: seq<Bytes>)
    returns (read: seq<Bytes>, corruptions: nat)
    requires file <= Written(extend, records)
    ensures corruptions == 0 && read <= records
    ensures forall i :: 0 <= i < |records| ==> (i < |read| <==> EndOfRecord(extend, records, i) <= |file|)
  {
    hide Written, Holds, RecordEnd, Reader.Valid;
    ghost var log := Written(extend, records);
    var reader := new Reader(extend, file, checksum);
    read := [];
    NothingWritten(extend);
    assert records[..0] == [];
    while true
      invariant reader.Valid() && reader.file == file && reader.extend == extend && reader.corruptions == 0
      invariant |read| <= |records| && read == records[..|read|]
      invariant reader.Position() == |Written(extend, records[..|read|])| <= |file|
      decreases |records| - |read|
    {
      ghost var n, data := |read|, [];
      if n < |records| {
        WrittenHolds(extend, records, n);
        data := records[n];
      } else {
        assert records[..n] == records;
        assert reader.Position() == |file|;
      }
      var ok, record := reader.ReadRecord(log, data);
      if !ok {
        corruptions := reader.corruptions;
        forall i | 0 <= i < |records| ensures i < |read| <==> EndOfRecord(extend, records, i) <= |file| {
          RecordEndsGrow(extend, records, i, n);
        }
        return;
      }
      read := read + [record];
      assert records[..n + 1] == records[..n] + [records[n]];
    }
  }

  lemma NothingWritten(extend: Extend)
    ensures Written(extend, []) == []
  {
  }

  lemma RecordEndsGrow(extend: Extend, records: seq<Bytes>, i: nat, n: nat)
    requires i < |records| && n <= |records|
    ensures i < n ==> |Written(extend, records[..i + 1])| <= |Written(extend, records[..n])|
    ensures n <= i ==> n < |records| && |Written(extend, records[..n + 1])| <= |Written(extend, records[..i + 1])|
  {
    if i < n {
      WrittenPrefix(extend, records[..n], i + 1);
      assert records[..n][..i + 1] == records[..i + 1];
    } else {
      WrittenPrefix(extend, records[..i + 1], n + 1);
      assert records[..i + 1][..n + 1] == records[..n + 1];
    }
  }
}
