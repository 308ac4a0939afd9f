/** The two-level iterator: an index of block handles over the blocks themselves, read as
    one sequence. */
module TwoLevel {
  import opened Keys
  import opened Files
  import opened Compactions
  import Cursors

  /** The blocks of the first n index entries, one after another. */
  ghost function Joined(index: seq<Entry>, block: string -> seq<Entry>, n: nat): seq<Entry>
    requires n <= |index|
  {
    if n == 0 then [] else Joined(index, block, n - 1) + block(index[n - 1].value)
  }

  ghost function All(index: seq<Entry>, block: string -> seq<Entry>): seq<Entry> {
    Joined(index, block, |index|)
  }

  /** Every index key lies at or after its own block and before the next ones. */
  ghost predicate Separates(index: seq<Entry>, block: string -> seq<Entry>) {
    && (forall i, e :: 0 <= i < |index| && e in block(index[i].value) ==> !Less(index[i].key, e.key))
    && forall i, j, e :: 0 <= i < j < |index| && e in block(index[j].value) ==> Less(index[i].key, e.key)
  }

  lemma {:induction false} JoinedGrows(index: seq<Entry>, block: string -> seq<Entry>, i: nat, j: nat)
    requires i <= j <= |index|
    ensures |Joined(index, block, i)| <= |Joined(index, block, j)|
    ensures Joined(index, block, j)[..|Joined(index, block, i)|] == Joined(index, block, i)
  {
    if i < j {
      JoinedGrows(index, block, i, j - 1);
    }
  }

  /** Where entry k of block i is in the whole. */
  lemma BlockEntry(index: seq<Entry>, block: string -> seq<Entry>, i: nat, k: nat)
    requires i < |index| && k <= |block(index[i].value)|
    ensures |Joined(index, block, i)| + k <= |All(index, block)|
    ensures k < |block(index[i].value)| ==>
      && |Joined(index, block, i)| + k < |All(index, block)|
      && All(index, block)[|Joined(index, block, i)| + k] == block(index[i].value)[k]
  {
    JoinedGrows(index, block, i + 1, |index|);
    if k < |block(index[i].value)| {
      assert Joined(index, block, i + 1)[|Joined(index, block, i)| + k] == block(index[i].value)[k];
    }
  }

  /** Every place of the whole is in some block. */
  lemma {:induction false} InSomeBlock(index: seq<Entry>, block: string -> seq<Entry>, n: nat, m: nat)
    returns (i: nat, k: nat)
    requires n <= |index| && m < |Joined(index, block, n)|
    ensures i < n && k < |block(index[i].value)| && m == |Joined(index, block, i)| + k
    ensures Joined(index, block, n)[m] == block(index[i].value)[k]
  {
    if m < |Joined(index, block, n - 1)| {
      i, k := InSomeBlock(index, block, n - 1, m);
    } else {
      i, k := n - 1, m - |Joined(index, block, n - 1)|;
    }
  }

  /** A seek in the whole lands in, or right behind, the block the index seek lands on. */
  lemma SeekLands(index: seq<Entry>, block: string -> seq<Entry>, target: InternalKey)
    requires Separates(index, block)
    ensures var i := LowerBound(index, target);
      LowerBound(All(index, block), target)
      == if i < |index| then |Joined(index, block, i)| + LowerBound(block(index[i].value), target)
         else |All(index, block)|
  {
    var all, i := All(index, block), LowerBound(index, target);
    var bound := if i < |index| then |Joined(index, block, i)| + LowerBound(block(index[i].value), target) else |all|;
    hide Separates, LowerBound, All, Joined;
    if i < |index| {
      BlockEntry(index, block, i, LowerBound(block(index[i].value), target));
    }
    forall m | 0 <= m < |all|
      ensures (m < bound ==> Less(all[m].key, target)) && (m == bound ==> !Less(all[m].key, target))
    {
      SeekSplits(index, block, target, m);
    }
    BoundIs(all, target, bound);
  }

  /** Which entries of the whole lie before the place a seek lands on. */
  lemma SeekSplits(index: seq<Entry>, block: string -> seq<Entry>, target: InternalKey, m: nat)
    requires Separates(index, block) && m < |All(index, block)|
    ensures var all, i := All(index, block), LowerBound(index, target);
      var bound := if i < |index| then |Joined(index, block, i)| + LowerBound(block(index[i].value), target) else |all|;
      (m < bound ==> Less(all[m].key, target)) && (m == bound ==> !Less(all[m].key, target))
  {
    hide *;
    AllIs(index, block);
    var i := LowerBound(index, target);
    var j, k := InSomeBlock(index, block, |index|, m);
    KeyAgainstIndex(index, block, j, k);
    if j < i {
      JoinedStep(index, block, j);
      JoinedGrows(index, block, j + 1, i);
      LessThrough(block(index[j].value)[k].key, index[j].key, target);
    } else if i < j {
      JoinedStep(index, block, i);
      JoinedGrows(index, block, i + 1, j);
      LessThrough(index[i].key, block(index[j].value)[k].key, target);
    }
  }

  lemma AllIs(index: seq<Entry>, block: string -> seq<Entry>)
    ensures All(index, block) == Joined(index, block, |index|)
  {
  }

  lemma JoinedStep(index: seq<Entry>, block: string -> seq<Entry>, i: nat)
    requires i < |index|
    ensures |Joined(index, block, i + 1)| == |Joined(index, block, i)| + |block(index[i].value)|
  {
  }

  /** An entry against the index keys of its own and of earlier blocks. */
  lemma KeyAgainstIndex(index: seq<Entry>, block: string -> seq<Entry>, j: nat, k: nat)
    requires Separates(index, block) && j < |index| && k < |block(index[j].value)|
    ensures !Less(index[j].key, block(index[j].value)[k].key)
    ensures forall i :: 0 <= i < j ==> Less(index[i].key, block(index[j].value)[k].key)
  {
    assert block(index[j].value)[k] in block(index[j].value);
  }

  lemma LessThrough(a: InternalKey, b: InternalKey, target: InternalKey)
    ensures !Less(b, a) && Less(b, target) ==> Less(a, target)
    ensures Less(a, b) && !Less(a, target) ==> !Less(b, target)
  {
  }

  lemma BoundIs(run: seq<Entry>, target: InternalKey, bound: nat)
    requires bound <= |run|
    requires forall m :: 0 <= m < |run| ==> m < bound ==> Less(run[m].key, target)
    requires bound < |run| ==> !Less(run[bound].key, target)
    ensures LowerBound(run, target) == bound
  {
    var r := LowerBound(run, target);
    assert bound < |run| ==> !Less(run[bound].key, target);
    assert !(bound < r) && !(r < bound);
  }

  class TwoLevelIterator {
    const index: seq<Entry>
    const block: string -> seq<Entry>
    var indexPos: int
    var dataHandle: string
    var dataOpen: bool
    var dataPos: int

    ghost function Whole(): seq<Entry> {
      All(index, block)
    }

    ghost predicate Shape()
      reads this
    {
      -1 <= indexPos < |index| && (dataOpen ==> -1 <= dataPos < |block(dataHandle)|)
    }

    predicate Valid()
      reads this
    {
      dataOpen && dataPos >= 0
    }

    /** The position of the refined cursor over the whole. */
    ghost function Position(): int
      requires Shape()
      reads this
    {
      if Valid() && indexPos >= 0 then |Joined(index, block, indexPos)| + dataPos else -1
    }

    /** An open block is the one the index stands on. */
    ghost predicate Invariant()
      reads this
    {
      Shape() && (dataOpen ==> dataPos >= 0 && indexPos >= 0 && dataHandle == index[indexPos].value)
    }

    constructor (index: seq<Entry>, block: string -> seq<Entry>)
      ensures Invariant() && Position() == -1 && this.index == index && this.block == block
    {
      this.index, this.block := index, block;
      indexPos, dataHandle, dataOpen, dataPos := -1, "", false, -1;
    }

    function CurrentEntry(): Entry
      requires Invariant() && Valid()
      reads this
      ensures 0 <= Position() < |Whole()| && CurrentEntry() == Whole()[Position()]
    {
      BlockEntry(index, block, indexPos, dataPos);
      block(dataHandle)[dataPos]
    }

    /** Opens the block of the index entry, unless it is the one already open. */
    method InitDataBlock()
      requires Shape()
      modifies `dataHandle, `dataOpen, `dataPos
      ensures Shape() && (dataOpen <==> indexPos >= 0) && (dataOpen ==> dataHandle == index[indexPos].value)
    {
      if indexPos < 0 {
        dataOpen := false;
      } else {
        var handle := index[indexPos].value;
        if dataOpen && handle == dataHandle {
        } else {
          dataHandle, dataOpen, dataPos := handle, true, -1;
        }
      }
    }

    /** The entry at or after place `from` of the whole that the scan is to stop on. */
    method SkipEmptyDataBlocksForward(ghost from: nat)
      requires Shape() && (dataOpen ==> indexPos >= 0 && dataHandle == index[indexPos].value)
      requires Valid() ==> from == |Joined(index, block, indexPos)| + dataPos
      requires !Valid() ==> from == (if indexPos >= 0 then |Joined(index, block, indexPos + 1)| else |Whole()|)
      modifies this
      ensures Invariant() && Position() == if from < |Whole()| then from else -1
    {
      while !(dataOpen && dataPos >= 0)
        invariant Shape() && (dataOpen ==> indexPos >= 0 && dataHandle == index[indexPos].value)
        invariant Valid() ==> from == |Joined(index, block, indexPos)| + dataPos
        invariant !Valid() ==> from == (if indexPos >= 0 then |Joined(index, block, indexPos + 1)| else |Whole()|)
        decreases if indexPos >= 0 then |index| - indexPos else 0, if dataOpen && dataPos >= 0 then 0 else 1
      {
        if indexPos < 0 {
          dataOpen := false;
          return;
        }
        indexPos := Cursors.Next(|index|, indexPos);
        InitDataBlock();
        if dataOpen {
          dataPos := Cursors.First(|block(dataHandle)|);
        }
      }
      BlockEntry(index, block, indexPos, dataPos);
    }

    /** The entry before place `to` of the whole that the scan is to stop on. */
    method SkipEmptyDataBlocksBackward(ghost to: nat)
      requires Shape() && (dataOpen ==> indexPos >= 0 && dataHandle == index[indexPos].value)
      requires Valid() ==> to == |Joined(index, block, indexPos)| + dataPos + 1
      requires !Valid() ==> to == (if indexPos >= 0 then |Joined(index, block, indexPos)| else 0)
      modifies this
      ensures Invariant() && Position() == to - 1
    {
      while !(dataOpen && dataPos >= 0)
        invariant Shape() && (dataOpen ==> indexPos >= 0 && dataHandle == index[indexPos].value)
        invariant Valid() ==> to == |Joined(index, block, indexPos)| + dataPos + 1
        invariant !Valid() ==> to == (if indexPos >= 0 then |Joined(index, block, indexPos)| else 0)
        decreases indexPos, if dataOpen && dataPos >= 0 then 0 else 1
      {
        if indexPos < 0 {
          dataOpen := false;
          return;
        }
        indexPos := Cursors.Prev(indexPos);
        InitDataBlock();
        if dataOpen {
          dataPos := Cursors.Last(|block(dataHandle)|);
        }
      }
    }

    method Seek(target: InternalKey)
      requires Invariant() && Separates(index, block)
      modifies this
      ensures Invariant() && Position() == Cursors.Seek(Whole(), target)
    {
      indexPos := Cursors.Seek(index, target);
      InitDataBlock();
      if dataOpen {
        dataPos := Cursors.Seek(block(dataHandle), target);
      }
      SeekLands(index, block, target);
      SkipEmptyDataBlocksForward(LowerBound(Whole(), target));
    }

    method SeekToFirst()
      requires Invariant()
      modifies this
      ensures Invariant() && Position() == Cursors.First(|Whole()|)
    {
      indexPos := Cursors.First(|index|);
      InitDataBlock();
      if dataOpen {
        dataPos := Cursors.First(|block(dataHandle)|);
      }
      SkipEmptyDataBlocksForward(0);
    }

    method SeekToLast()
      requires Invariant()
      modifies this
      ensures Invariant() && Position() == Cursors.Last(|Whole()|)
    {
      indexPos := Cursors.Last(|index|);
      InitDataBlock();
      if dataOpen {
        dataPos := Cursors.Last(|block(dataHandle)|);
      }
      SkipEmptyDataBlocksBackward(|Whole()|);
    }

    method Next()
      requires Invariant() && Valid()
      modifies this
      ensures Invariant() && Position() == Cursors.Next(|Whole()|, old(Position()))
    {
      ghost var p := Position();
      BlockEntry(index, block, indexPos, dataPos);
      dataPos := Cursors.Next(|block(dataHandle)|, dataPos);
      SkipEmptyDataBlocksForward(p + 1);
    }

    method Prev()
      requires Invariant() && Valid()
      modifies this
      ensures Invariant() && Position() == Cursors.Prev(old(Position()))
    {
      ghost var p := Position();
      dataPos := Cursors.Prev(dataPos);
      SkipEmptyDataBlocksBackward(p);
    }
  }

  // ------------------------------------------------------------------ a level of files

  /** The index over the files of a level: their largest keys and numbers. */
  function FileIndex(files: seq<File>, handle: nat -> string): seq<Entry> {
    seq(|files|, i requires 0 <= i < |files| => Entry(files[i].largest, handle(files[i].number)))
  }

  /** Opening a file by its number reads its table. */
  ghost predicate Opens(files: seq<File>, handle: nat -> string, block: string -> seq<Entry>) {
    forall f :: f in files ==> block(handle(f.number)) == f.entries
  }

  lemma {:induction false} FilesJoin(files: seq<File>, handle: nat -> string, block: string -> seq<Entry>, n: nat)
    requires Opens(files, handle, block) && n <= |files|
    ensures Joined(FileIndex(files, handle), block, n) == Flatten(files[..n])
  {
    if n > 0 {
      FilesJoin(files, handle, block, n - 1);
      assert files[..n][..n - 1] == files[..n - 1] && files[n - 1] in files;
    }
  }

  /** A concatenating iterator over a level reads its files one after another. */
  lemma LevelIsConcatenated(files: seq<File>, handle: nat -> string, block: string -> seq<Entry>)
    requires Opens(files, handle, block) && AllValid(files) && Ordered(files)
    ensures All(FileIndex(files, handle), block) == Flatten(files)
    ensures Separates(FileIndex(files, handle), block)
  {
    FilesJoin(files, handle, block, |files|);
    assert files[..|files|] == files;
    forall i, e | 0 <= i < |files| && e in files[i].entries
      ensures !Less(files[i].largest, e.key) && !Less(e.key, files[i].smallest)
    {
      assert ValidFile(files[i]);
    }
    forall i | 0 <= i < |files| ensures block(handle(files[i].number)) == files[i].entries {
      assert files[i] in files;
    }
  }
}
