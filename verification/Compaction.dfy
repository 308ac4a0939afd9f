/** The compaction loop: which entries of the merged inputs survive, and the output files. */
module Compactions {
  import opened Keys
  import opened Files
  import opened Merger
  import opened Cuts

  // --------------------------------------------------------------- the drop rules

  /** Rule (A): the previous entry of the same user key is already visible at the
      smallest live snapshot, so no snapshot can see this one. */
  ghost predicate Hidden(stream: seq<Entry>, snapshot: nat, i: nat)
    requires i < |stream|
  {
    i > 0 && stream[i - 1].key.user == stream[i].key.user && stream[i - 1].key.sequence <= snapshot
  }

  /** No file of the deeper levels covers the user key. */
  ghost predicate IsBase(deep: seq<seq<File>>, user: UserKey) {
    forall l, f :: 0 <= l < |deep| && f in deep[l] ==> !(f.smallest.user <= user <= f.largest.user)
  }

  /** The tombstone rule: a deletion that every snapshot sees, with nothing below it. */
  ghost predicate Obsolete(stream: seq<Entry>, snapshot: nat, deep: seq<seq<File>>, i: nat)
    requires i < |stream|
  {
    && stream[i].key.kind.Deletion? && stream[i].key.sequence <= snapshot
    && IsBase(deep, stream[i].key.user)
  }

  ghost predicate Dropped(stream: seq<Entry>, snapshot: nat, deep: seq<seq<File>>, i: nat)
    requires i < |stream|
  {
    Hidden(stream, snapshot, i) || Obsolete(stream, snapshot, deep, i)
  }

  /** The survivors among the first n entries, in order. */
  ghost function Kept(stream: seq<Entry>, snapshot: nat, deep: seq<seq<File>>, n: nat): seq<Entry>
    requires n <= |stream|
  {
    if n == 0 then []
    else if Dropped(stream, snapshot, deep, n - 1) then Kept(stream, snapshot, deep, n - 1)
    else Kept(stream, snapshot, deep, n - 1) + [stream[n - 1]]
  }

  lemma {:induction false} KeptMembers(stream: seq<Entry>, snapshot: nat, deep: seq<seq<File>>, n: nat)
    requires n <= |stream|
    ensures forall e :: e in Kept(stream, snapshot, deep, n)
              <==> exists i :: 0 <= i < n && stream[i] == e && !Dropped(stream, snapshot, deep, i)
  {
    if n > 0 {
      KeptMembers(stream, snapshot, deep, n - 1);
    }
  }

  lemma {:induction false} KeptIsSorted(stream: seq<Entry>, snapshot: nat, deep: seq<seq<File>>, n: nat)
    requires n <= |stream| && Sorted(stream)
    ensures Sorted(Kept(stream, snapshot, deep, n))
  {
    if n > 0 {
      var front := Kept(stream, snapshot, deep, n - 1);
      KeptIsSorted(stream, snapshot, deep, n - 1);
      forall i | 0 <= i < |front| ensures Precedes(front[i].key, stream[n - 1].key) {
        KeptMembers(stream, snapshot, deep, n - 1);
        assert front[i] in front;
      }
    }
  }

  // ------------------------------------------------------- the base-level cursor

  /** One compaction's view of the levels below its output: for each of them, how far the
      scan for covering files has advanced. */
  class BaseLevelScan {
    const deep: seq<seq<File>>
    const levelPtrs: array<nat>

    /** The files passed over all lie before the last user key asked about. */
    ghost predicate AdvancedTo(last: Option<UserKey>)
      reads levelPtrs
    {
      && levelPtrs.Length == |deep|
      && (forall l :: 0 <= l < |deep| ==> Ordered(deep[l]) && levelPtrs[l] <= |deep[l]|)
      && forall l, k :: 0 <= l < |deep| && 0 <= k < levelPtrs[l] ==> last.Some? && deep[l][k].largest.user < last.value
    }

    constructor (deep: seq<seq<File>>)
      requires forall l :: 0 <= l < |deep| ==> Ordered(deep[l])
      ensures this.deep == deep && fresh(levelPtrs)
      ensures AdvancedTo(None)
    {
      this.deep := deep;
      levelPtrs := new nat[|deep|](_ => 0);
    }

    /** Queries come with non-decreasing user keys, so the scan never turns back and still
        gives the answer a fresh look at every file would. */
    method IsBaseLevelForKey(user: UserKey, ghost last: Option<UserKey>) returns (r: bool)
      requires AdvancedTo(last) && (last.Some? ==> last.value <= user)
      modifies levelPtrs
      ensures r <==> IsBase(deep, user)
      ensures AdvancedTo(Some(user))
    {
      assert AdvancedTo(Some(user));
      for lvl := 0 to |deep|
        invariant AdvancedTo(Some(user))
        invariant forall l, f :: 0 <= l < lvl && f in deep[l] ==> !(f.smallest.user <= user <= f.largest.user)
      {
        var covered := AdvanceLevel(lvl, user);
        if covered {
          return false;
        }
      }
      return true;
    }

    method AdvanceLevel(lvl: nat, user: UserKey) returns (covered: bool)
      requires AdvancedTo(Some(user)) && lvl < |deep|
      modifies levelPtrs
      ensures AdvancedTo(Some(user))
      ensures covered <==> exists f :: f in deep[lvl] && f.smallest.user <= user <= f.largest.user
    {
      var files := deep[lvl];
      while levelPtrs[lvl] < |files|
        invariant AdvancedTo(Some(user))
        decreases |files| - levelPtrs[lvl]
      {
        var f := files[levelPtrs[lvl]];
        if user <= f.largest.user {
          if user >= f.smallest.user {
            assert f in files;
            return true;
          }
          break;
        }
        levelPtrs[lvl] := levelPtrs[lvl] + 1;
      }
      var p := levelPtrs[lvl];
      forall k | 0 <= k < |files| ensures !(files[k].smallest.user <= user <= files[k].largest.user) {
        if p < k {
          assert Less(files[p].largest, files[k].smallest);
        }
      }
      return false;
    }
  }

  // ------------------------------------------------------------------ output files

  function Flatten(files: seq<File>): seq<Entry> {
    if files == [] then [] else Flatten(files[..|files| - 1]) + files[|files| - 1].entries
  }

  lemma FlattenSnoc(files: seq<File>, f: File)
    ensures Flatten(files + [f]) == Flatten(files) + f.entries
  {
    assert (files + [f])[..|files|] == files;
  }

  lemma {:induction false} FlattenMembers(files: seq<File>)
    ensures forall e :: e in Flatten(files) <==> exists f :: f in files && e in f.entries
  {
    if files != [] {
      var front, last := files[..|files| - 1], files[|files| - 1];
      FlattenMembers(front);
      assert files == front + [last];
    }
  }

  /** What the loop leaves behind: valid files with fresh, consecutive numbers whose
      entries, in order, are exactly the survivors. */
  ghost predicate OutputFiles(outputs: seq<File>, firstNumber: nat, entries: seq<Entry>) {
    && Flatten(outputs) == entries
    && AllValid(outputs)
    && forall i :: 0 <= i < |outputs| ==> outputs[i].number == firstNumber + i
  }

  /** The finished outputs followed by the open one hold `entries`. */
  ghost predicate Written(outputs: seq<File>, builder: seq<Entry>, firstNumber: nat, entries: seq<Entry>) {
    OutputFiles(outputs, firstNumber, Flatten(outputs)) && Flatten(outputs) + builder == entries
  }

  lemma AllWritten(outputs: seq<File>, firstNumber: nat, entries: seq<Entry>)
    requires Written(outputs, [], firstNumber, entries)
    ensures OutputFiles(outputs, firstNumber, entries)
  {
    assert Flatten(outputs) + [] == Flatten(outputs);
  }

  lemma WrittenSurvives(outputs: seq<File>, builder: seq<Entry>, e: Entry, firstNumber: nat, entries: seq<Entry>)
    requires Written(outputs, builder, firstNumber, entries)
    ensures Written(outputs, builder + [e], firstNumber, entries + [e])
  {
    assert Flatten(outputs) + (builder + [e]) == Flatten(outputs) + builder + [e];
  }

  lemma OpenOutputIsSorted(finished: seq<Entry>, builder: seq<Entry>)
    requires Sorted(finished + builder)
    ensures Sorted(builder)
  {
    forall i, j | 0 <= i < j < |builder| ensures Precedes(builder[i].key, builder[j].key) {
      var entries, k := finished + builder, |finished|;
      assert entries[k + i] == builder[i] && entries[k + j] == builder[j];
    }
  }

  lemma OutputAdded(outputs: seq<File>, f: File, firstNumber: nat, entries: seq<Entry>)
    requires Written(outputs, f.entries, firstNumber, entries) && ValidFile(f) && f.number == firstNumber + |outputs|
    ensures Written(outputs + [f], [], firstNumber, entries)
  {
    hide ValidFile;
    FlattenSnoc(outputs, f);
    assert Flatten(outputs + [f]) + [] == entries;
  }

  /** Applies the drop rules to the n-th entry, given the sequence number of the previous
      entry of its user key, or the largest one when there is none. */
  method ShouldDrop(e: Entry, lastSequenceForKey: nat, smallestSnapshot: nat, scan: BaseLevelScan,
                    ghost stream: seq<Entry>, ghost n: nat, ghost last: Option<UserKey>)
    returns (drop: bool)
    requires n < |stream| && stream[n] == e && smallestSnapshot < MAX_SEQUENCE
    requires lastSequenceForKey
          == if n > 0 && stream[n - 1].key.user == e.key.user then stream[n - 1].key.sequence else MAX_SEQUENCE
    requires scan.AdvancedTo(last) && (last.Some? ==> last.value <= e.key.user)
    modifies scan.levelPtrs
    ensures drop <==> Dropped(stream, smallestSnapshot, scan.deep, n)
    ensures scan.AdvancedTo(Some(e.key.user))
  {
    if lastSequenceForKey <= smallestSnapshot {
      drop := true;
    } else if e.key.kind.Deletion? && e.key.sequence <= smallestSnapshot {
      drop := scan.IsBaseLevelForKey(e.key.user, last);
    } else {
      drop := false;
    }
  }

  /** The state of a running compaction: finished outputs, the open one, and what the drop
      rules remember of the entry before.  How big a table gets is left open by this model:
      `isFull` and `tableSize` stand for it. */
  class CompactionState {
    const firstNumber: nat
    const smallestSnapshot: nat
    const cuts: GrandparentScan
    const isFull: seq<Entry> -> bool
    const tableSize: seq<Entry> -> nat
    var outputs: seq<File>
    var builder: seq<Entry>
    var currentUserKey: Option<UserKey>
    var lastSequenceForKey: nat

    constructor (firstNumber: nat, smallestSnapshot: nat, grandparents: seq<File>, limit: nat,
                 isFull: seq<Entry> -> bool, tableSize: seq<Entry> -> nat)
      ensures this.firstNumber == firstNumber && this.smallestSnapshot == smallestSnapshot && fresh(cuts)
      ensures forall stream, deep :: Progress(stream, deep, 0)
      ensures forall stream :: Cut(stream) == Cutter(grandparents, limit, stream, isFull)
    {
      this.firstNumber, this.smallestSnapshot := firstNumber, smallestSnapshot;
      this.isFull, this.tableSize := isFull, tableSize;
      outputs, builder, currentUserKey, lastSequenceForKey := [], [], None, MAX_SEQUENCE;
      cuts := new GrandparentScan(grandparents, limit);
    }

    /** What decides about the outputs. */
    ghost function Cut(stream: seq<Entry>): Cutter {
      Cutter(cuts.grandparents, cuts.limit, stream, isFull)
    }

    /** The first n entries are dealt with: survivors written, the last key remembered. */
    ghost predicate Progress(stream: seq<Entry>, deep: seq<seq<File>>, n: nat)
      reads this, cuts
    {
      && n <= |stream| && cuts.At(Cut(stream), n) && Cut(stream).Running(outputs, builder, n)
      && Written(outputs, builder, firstNumber, Kept(stream, smallestSnapshot, deep, n))
      && if n == 0 then currentUserKey == None
         else currentUserKey == Some(stream[n - 1].key.user) && lastSequenceForKey == stream[n - 1].key.sequence
    }

    method FinishOutput(ghost entries: seq<Entry>)
      requires builder != [] && Sorted(entries) && Written(outputs, builder, firstNumber, entries)
      modifies this`outputs, this`builder
      ensures Written(outputs, builder, firstNumber, entries) && builder == []
      ensures outputs != [] && outputs[|outputs| - 1].entries == old(builder)
      ensures outputs == old(outputs) + [outputs[|outputs| - 1]]
    {
      OpenOutputIsSorted(Flatten(outputs), builder);
      var f := MakeFile(firstNumber + |outputs|, tableSize(builder), builder);
      OutputAdded(outputs, f, firstNumber, entries);
      outputs := outputs + [f];
      builder := [];
    }

    /** Ends the open output if it has come to overlap too much. */
    method StopBefore(key: InternalKey, ghost stream: seq<Entry>, ghost n: nat, ghost entries: seq<Entry>)
      requires Sorted(stream) && n < |stream| && stream[n].key == key && Sorted(entries)
      requires cuts.At(Cut(stream), n) && Cut(stream).Running(outputs, builder, n)
      requires Written(outputs, builder, firstNumber, entries)
      modifies `outputs, `builder, cuts
      ensures cuts.At(Cut(stream), n + 1) && Cut(stream).Running(outputs, builder, n + 1)
      ensures Written(outputs, builder, firstNumber, entries)
    {
      hide Written, Cutter.Running, Cutter.Stops, GrandparentScan.At;
      ghost var c := Cut(stream);
      var stop := cuts.ShouldStopBefore(key, c, n);
      if stop && builder != [] {
        ghost var before := outputs;
        FinishOutput(entries);
        StoppedBefore(c, before, outputs[|outputs| - 1], n);
      } else {
        NotStopped(c, outputs, builder, n);
      }
    }

    /** Adds an entry to the open output, and ends that if it is full. */
    method AddToOutput(e: Entry, ghost stream: seq<Entry>, ghost n: nat, ghost entries: seq<Entry>)
      requires Sorted(stream) && n < |stream| && stream[n] == e && Sorted(entries + [e])
      requires Cut(stream).Running(outputs, builder, n + 1) && Written(outputs, builder, firstNumber, entries)
      modifies `outputs, `builder
      ensures Cut(stream).Running(outputs, builder, n + 1)
      ensures Written(outputs, builder, firstNumber, entries + [e])
    {
      hide Written, Cutter.Running;
      ghost var c, before, open := Cut(stream), outputs, builder;
      WrittenSurvives(outputs, builder, e, firstNumber, entries);
      Cuts.Joined(c, outputs, builder, n);
      builder := builder + [e];
      if isFull(builder) {
        FinishOutput(entries + [e]);
        FullOutput(c, before, open, outputs[|outputs| - 1], n);
      }
    }

    method ProcessEntry(e: Entry, scan: BaseLevelScan, ghost stream: seq<Entry>, n: nat)
      requires smallestSnapshot < MAX_SEQUENCE && Sorted(stream) && n < |stream| && stream[n] == e
      requires Progress(stream, scan.deep, n) && scan.AdvancedTo(currentUserKey)
      modifies this, cuts, scan.levelPtrs
      ensures Progress(stream, scan.deep, n + 1) && scan.AdvancedTo(currentUserKey)
    {
      hide Written, Cutter.Running, GrandparentScan.At;
      ghost var entries, last := Kept(stream, smallestSnapshot, scan.deep, n), currentUserKey;
      KeptIsSorted(stream, smallestSnapshot, scan.deep, n);
      KeptIsSorted(stream, smallestSnapshot, scan.deep, n + 1);
      StopBefore(e.key, stream, n, entries);
      if currentUserKey != Some(e.key.user) {
        currentUserKey := Some(e.key.user);
        lastSequenceForKey := MAX_SEQUENCE;
      }
      var drop := ShouldDrop(e, lastSequenceForKey, smallestSnapshot, scan, stream, n, last);
      lastSequenceForKey := e.key.sequence;
      if !drop {
        assert Kept(stream, smallestSnapshot, scan.deep, n + 1) == entries + [e];
        AddToOutput(e, stream, n, entries);
      }
    }
  }

  /** The loop of a compaction over its merged inputs. */
  method DoCompactionWork(input: MergingIterator, scan: BaseLevelScan, c: CompactionState) returns (outputs: seq<File>)
    requires input.Invariant() && c.smallestSnapshot < MAX_SEQUENCE
    requires scan.AdvancedTo(None) && c.Progress(input.order.merged, scan.deep, 0)
    requires input.pos as object != scan.levelPtrs as object && {c, c.cuts} !! {input, input.pos, scan.levelPtrs}
    modifies input, input.pos, scan.levelPtrs, c, c.cuts
    ensures OutputFiles(outputs, c.firstNumber,
                        Kept(input.order.merged, c.smallestSnapshot, scan.deep, |input.order.merged|))
    ensures c.Cut(input.order.merged).WellCut(outputs)
  {
    hide Interleaves, OutputFiles, Written, Kept, Cutter.WellCut, Cutter.Uncut, Cutter.Reason, Cutter.Stops;
    hide GrandparentScan.At;
    ghost var stream := input.order.merged;
    input.UnionIsSorted();
    input.SeekToFirst();
    var n := 0;
    while input.Valid()
      invariant 0 <= n <= |stream|
      invariant input.Invariant() && input.at == (if n < |stream| then n else -1)
      invariant c.Progress(stream, scan.deep, n) && scan.AdvancedTo(c.currentUserKey)
      decreases |stream| - n
    {
      c.ProcessEntry(input.CurrentEntry(), scan, stream, n);
      n := n + 1;
      input.Next();
    }
    ghost var survivors := Kept(stream, c.smallestSnapshot, scan.deep, n);
    KeptIsSorted(stream, c.smallestSnapshot, scan.deep, n);
    if c.builder != [] {
      ghost var before := c.outputs;
      c.FinishOutput(survivors);
      OneOutputMore(c.Cut(stream), before, c.outputs[|c.outputs| - 1]);
    }
    AllWritten(c.outputs, c.firstNumber, survivors);
    outputs := c.outputs;
  }
}
