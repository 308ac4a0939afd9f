/** The table builder: entries in order go in, a good table comes out. */
module TableBuilders {
  import opened Keys
  import opened Coding
  import opened Bytewise
  import opened Filters
  import opened Tables

  const BLOCK_TRAILER_SIZE: nat := 5

  /** Everything added so far. */
  ghost function Added(blocks: seq<Block>, data: seq<ByteEntry>): seq<ByteEntry> {
    Joined(blocks) + data
  }

  /** Finished filters have the keys of the blocks of their range, the next one those that
      came since. */
  ghost predicate Grouped(blocks: seq<Block>, groups: seq<seq<Bytes>>, pending: seq<Bytes>) {
    && (forall g :: 0 <= g < |groups| ==> groups[g] == KeysAt(blocks, g))
    && pending == KeysAt(blocks, |groups|)
  }

  /** Where blocks end up and when they are full depends on encodings and sizes this model
      leaves open. */
  datatype Layout = Layout(blockFull: seq<ByteEntry> -> bool, storedSize: seq<ByteEntry> -> nat)

  class TableBuilder {
    const policy: Policy
    const layout: Layout
    const filterBlock: FilterBlockBuilder?
    var offset: nat
    var data: seq<ByteEntry>
    var index: seq<IndexEntry>
    var lastKey: ByteKey
    var numEntries: nat
    var pendingIndexEntry: bool
    var pendingOffset: nat
    var blocks: seq<Block>  // the blocks in the file

    ghost predicate Shape()
      reads this
    {
      && InOrder(Added(blocks, data)) && Placed(blocks)
      && (forall i :: 0 <= i < |blocks| ==> blocks[i].offset < offset)
      && |blocks| == |index| + (if pendingIndexEntry then 1 else 0)
      && (pendingIndexEntry ==> data == [] && pendingOffset == blocks[|index|].offset)
      && Indexed(blocks, index, if data == [] then None else Some(data[0].key))
      && numEntries == |Added(blocks, data)|
      && (numEntries > 0 ==> lastKey == Added(blocks, data)[numEntries - 1].key)
      && (data == [] && blocks != [] ==> pendingIndexEntry)
    }

    ghost predicate FilterKeeps()
      reads this, filterBlock
    {
      filterBlock != null ==>
        && filterBlock.Valid() && filterBlock.policy == policy && |filterBlock.groups| == offset / FILTER_BASE
        && Grouped(blocks + [Block(offset, data)], filterBlock.groups, filterBlock.keys)
    }

    ghost predicate Valid()
      reads this, filterBlock
    {
      Shape() && FilterKeeps()
    }

    constructor (policy: Policy, layout: Layout, useFilter: bool)
      ensures Valid() && Added(blocks, data) == [] && (filterBlock != null ==> fresh(filterBlock))
      ensures useFilter <==> filterBlock != null
    {
      this.policy, this.layout := policy, layout;
      offset, data, index, numEntries, pendingIndexEntry, pendingOffset, blocks := 0, [], [], 0, false, 0, [];
      lastKey := ByteKey([], 0, Value);
      if useFilter {
        filterBlock := new FilterBlockBuilder(policy);
      } else {
        filterBlock := null;
      }
      new;
      if filterBlock != null {
        filterBlock.StartBlock(0);
      }
    }

    /** The index entry of the last finished block waits for the next key. */
    method AddPendingIndexEntry(next: ByteKey)
      requires Shape() && (numEntries > 0 ==> KeyLess(lastKey, next))
      modifies `index, `pendingIndexEntry
      ensures |blocks| == |index| && !pendingIndexEntry
      ensures Indexed(blocks, index, if data == [] then Some(next) else Some(data[0].key))
    {
      hide InOrder, KeyLess;
      if pendingIndexEntry {
        var separator := FindShortestKeySeparator(lastKey, next);
        LastOfBlocks(blocks);
        assert Added(blocks, data) == Joined(blocks);
        IndexGrows(blocks, index, IndexEntry(separator, pendingOffset), Some(next));
        index := index + [IndexEntry(separator, pendingOffset)];
        pendingIndexEntry := false;
      }
    }

    /** The user key of the new entry goes behind the filter of the open block. */
    method AddFilterKey(e: ByteEntry)
      requires FilterKeeps()
      modifies filterBlock
      ensures filterBlock != null ==>
        && filterBlock.Valid() && filterBlock.policy == policy && |filterBlock.groups| == offset / FILTER_BASE
        && Grouped(blocks + [Block(offset, data + [e])], filterBlock.groups, filterBlock.keys)
    {
      hide Grouped, FilterBlockBuilder.Valid;
      if filterBlock != null {
        GroupedWithKey(blocks, offset, data, e, filterBlock.groups, filterBlock.keys);
        filterBlock.AddKey(e.key.user);
      }
    }

    /** The new entry goes into the open block. */
    method Append(key: ByteKey, value: string)
      requires Valid() && (numEntries > 0 ==> KeyLess(lastKey, key))
      modifies this, filterBlock
      ensures Valid() && Added(blocks, data) == old(Added(blocks, data)) + [ByteEntry(key, value)]
      ensures data == old(data) + [ByteEntry(key, value)] && blocks == old(blocks) && offset == old(offset)
    {
      hide KeyLess, InOrder, Added, Placed, Indexed, Grouped, FilterBlockBuilder.Valid;
      AppendedInOrder(Added(blocks, data), ByteEntry(key, value));
      OneMoreAdded(blocks, data, ByteEntry(key, value));
      AddPendingIndexEntry(key);
      AddFilterKey(ByteEntry(key, value));
      lastKey, numEntries, data := key, numEntries + 1, data + [ByteEntry(key, value)];
    }

    method Add(key: ByteKey, value: string)
      requires Valid() && (numEntries > 0 ==> KeyLess(lastKey, key))
      modifies this, filterBlock
      ensures Valid() && Added(blocks, data) == old(Added(blocks, data)) + [ByteEntry(key, value)]
      // A block goes into the file as soon as it is full.
      ensures var open := old(data) + [ByteEntry(key, value)];
        if layout.blockFull(open) then data == [] && blocks == old(blocks) + [Block(old(offset), open)]
        else data == open && blocks == old(blocks)
    {
      hide Valid, KeyLess, Added;
      Append(key, value);
      if layout.blockFull(data) {
        Flush();
      }
    }

    method Flush()
      requires Valid()
      modifies this, filterBlock
      ensures Valid() && data == [] && Added(blocks, data) == old(Added(blocks, data))
      ensures numEntries == old(numEntries) && index == old(index)
      ensures blocks == old(blocks) + if old(data) == [] then [] else [Block(old(offset), old(data))]
      ensures offset ==
        old(offset) + if old(data) == [] then 0 else layout.storedSize(old(data)) + BLOCK_TRAILER_SIZE
    {
      hide InOrder, KeyLess, Grouped, FilterBlockBuilder.Valid, Joined, Indexed, Placed;
      if data == [] {
        return;
      }
      ghost var before := Added(blocks, data);
      BlockWritten(blocks, data, offset, index);
      pendingOffset, pendingIndexEntry := offset, true;
      blocks := blocks + [Block(offset, data)];
      offset, data := offset + layout.storedSize(data) + BLOCK_TRAILER_SIZE, [];
      assert Added(blocks, data) == before;
      if filterBlock != null {
        ghost var groups, pending := filterBlock.groups, filterBlock.keys;
        filterBlock.StartBlock(offset);
        GroupedAfterStart(blocks, offset, groups, pending, filterBlock.groups, filterBlock.keys);
      }
    }

    /** The filters of the keys of all blocks. */
    method FinishFilter() returns (filter: Option<Bytes>)
      requires Valid() && data == []
      modifies filterBlock
      ensures filter.Some? <==> filterBlock != null
      ensures filter.Some? && |filter.value| < TWO_TO_32 ==> Filtered(policy, blocks, filter.value)
    {
      hide InOrder, KeyLess, Grouped, FilterBlockBuilder.Valid, Joined, Indexed, Filtered, Matches;
      filter := None;
      if filterBlock != null {
        ghost var groups, pending := filterBlock.groups, filterBlock.keys;
        var contents := filterBlock.Finish();
        filter := Some(contents);
        if |contents| < TWO_TO_32 {
          FinishedFilters(policy, blocks, offset, groups, pending, filterBlock.groups, contents);
        }
      }
    }

    method Finish() returns (t: Table)
      requires Valid()
      modifies this, filterBlock
      ensures Joined(t.blocks) == old(Added(blocks, data)) && t.policy == policy
      ensures t.blocks == old(blocks) + if old(data) == [] then [] else [Block(old(offset), old(data))]
      ensures t.filter.Some? <==> filterBlock != null
      ensures (t.filter.Some? ==> |t.filter.value| < TWO_TO_32) ==> GoodTable(t)
    {
      hide InOrder, KeyLess, FilterBlockBuilder.Valid, FilterKeeps, Joined, Indexed, Placed, Filtered;
      Flush();
      var filter := FinishFilter();
      if pendingIndexEntry {
        var successor := FindShortKeySuccessor(lastKey);
        LastOfBlocks(blocks);
        IndexGrows(blocks, index, IndexEntry(successor, pendingOffset), None);
        index := index + [IndexEntry(successor, pendingOffset)];
        pendingIndexEntry := false;
      }
      assert Added(blocks, []) == Joined(blocks);
      t := Table(blocks, index, policy, filter);
    }
  }

  lemma LastOfBlocks(blocks: seq<Block>)
    requires Placed(blocks) && blocks != []
    ensures var last := blocks[|blocks| - 1].entries;
      last != [] && Joined(blocks) != [] && Joined(blocks)[|Joined(blocks)| - 1] == last[|last| - 1]
  {
  }

  lemma IndexGrows(blocks: seq<Block>, index: seq<IndexEntry>, e: IndexEntry, next: Option<ByteKey>)
    requires Indexed(blocks, index, None) && |blocks| == |index| + 1 && e.offset == blocks[|index|].offset
    requires Divides(e.key, blocks[|index|].entries, next)
    ensures Indexed(blocks, index + [e], next)
  {
  }

  lemma OneMoreAdded(blocks: seq<Block>, data: seq<ByteEntry>, e: ByteEntry)
    ensures Added(blocks, data + [e]) == Added(blocks, data) + [e]
    ensures (data + [e])[0] == if data == [] then e else data[0]
  {
    hide Joined;
    assert Joined(blocks) + (data + [e]) == Joined(blocks) + data + [e];
  }

  lemma AppendedInOrder(entries: seq<ByteEntry>, e: ByteEntry)
    requires InOrder(entries) && (entries != [] ==> KeyLess(entries[|entries| - 1].key, e.key))
    ensures InOrder(entries + [e])
  {
    forall i | 0 <= i < |entries| ensures KeyLess(entries[i].key, e.key) {
      assert i < |entries| - 1 ==> KeyLess(entries[i].key, entries[|entries| - 1].key);
    }
  }

  /** Moving the open block into the file. */
  lemma {:induction false} BlockWritten(blocks: seq<Block>, data: seq<ByteEntry>, offset: nat, index: seq<IndexEntry>)
    requires Placed(blocks) && data != [] && forall i :: 0 <= i < |blocks| ==> blocks[i].offset < offset
    requires |index| == |blocks| && Indexed(blocks, index, Some(data[0].key))
    ensures var blocks' := blocks + [Block(offset, data)];
      Placed(blocks') && Indexed(blocks', index, None) && Joined(blocks') == Joined(blocks) + data
  {
    assert (blocks + [Block(offset, data)])[..|blocks|] == blocks;
  }

  lemma KeysAtGrows(blocks: seq<Block>, b: Block, range: nat)
    ensures KeysAt(blocks + [b], range) ==
      KeysAt(blocks, range) + (if b.offset / FILTER_BASE == range then UserKeys(b.entries) else [])
  {
    assert (blocks + [b])[..|blocks|] == blocks;
  }

  lemma {:induction false} NoKeysAt(blocks: seq<Block>, range: nat)
    requires forall i :: 0 <= i < |blocks| ==> blocks[i].offset / FILTER_BASE != range
    ensures KeysAt(blocks, range) == []
  {
    if blocks != [] {
      NoKeysAt(blocks[..|blocks| - 1], range);
    }
  }

  lemma GroupedWithKey(blocks: seq<Block>, offset: nat, data: seq<ByteEntry>, e: ByteEntry, groups: seq<seq<Bytes>>,
                       pending: seq<Bytes>)
    requires Grouped(blocks + [Block(offset, data)], groups, pending) && |groups| == offset / FILTER_BASE
    ensures Grouped(blocks + [Block(offset, data + [e])], groups, pending + [e.key.user])
  {
    forall g | 0 <= g <= |groups|
      ensures KeysAt(blocks + [Block(offset, data + [e])], g) ==
        KeysAt(blocks + [Block(offset, data)], g) + (if g == |groups| then [e.key.user] else [])
    {
      KeysAtGrows(blocks, Block(offset, data), g);
      KeysAtGrows(blocks, Block(offset, data + [e]), g);
      hide KeysAt;
      assert UserKeys(data + [e]) == UserKeys(data) + [e.key.user];
    }
  }

  /** Once the filters up to the place of the next block are finished, it has no keys yet. */
  lemma GroupedAfterStart(blocks: seq<Block>, offset: nat, groups: seq<seq<Bytes>>, pending: seq<Bytes>,
                          groups': seq<seq<Bytes>>, pending': seq<Bytes>)
    requires Grouped(blocks, groups, pending) && |groups'| == offset / FILTER_BASE
    requires forall i :: 0 <= i < |blocks| ==> blocks[i].offset / FILTER_BASE <= |groups|
    requires if |groups'| == |groups| then groups' == groups && pending' == pending
             else groups + [pending] <= groups' && pending' == []
    requires forall g :: |groups| < g < |groups'| ==> groups'[g] == []
    ensures Grouped(blocks + [Block(offset, [])], groups', pending')
  {
    hide KeysAt;
    forall g | 0 <= g <= |groups'|
      ensures KeysAt(blocks + [Block(offset, [])], g) == if g < |groups'| then groups'[g] else pending'
    {
      KeysAtGrows(blocks, Block(offset, []), g);
      if g > |groups| {
        NoKeysAt(blocks, g);
      } else if |groups'| > |groups| {
        assert groups'[g] == (groups + [pending])[g];
      }
    }
  }

  lemma FinishedFilters(policy: Policy, blocks: seq<Block>, offset: nat, groups: seq<seq<Bytes>>, pending: seq<Bytes>,
                        groups': seq<seq<Bytes>>, contents: Bytes)
    requires Grouped(blocks + [Block(offset, [])], groups, pending) && Placed(blocks)
    requires forall i :: 0 <= i < |blocks| ==> blocks[i].offset < offset
    requires |groups| == offset / FILTER_BASE
    requires groups' == if pending == [] then groups else groups + [pending]
    requires Matches(policy, groups', contents)
    ensures Filtered(policy, blocks, contents)
  {
    hide BlockMayMatch, KeysMayMatch, KeysAt;
    forall i, user | 0 <= i < |blocks|
      ensures BlockMayMatch(policy, contents, blocks[i].offset, user) <==>
        KeysMayMatch(policy, KeysAt(blocks, blocks[i].offset / FILTER_BASE), user)
    {
      var g := blocks[i].offset / FILTER_BASE;
      KeysAtGrows(blocks, Block(offset, []), g);
      assert blocks[i].entries[0] in blocks[i].entries;
      OwnKeysAt(blocks, i, blocks[i].entries[0].key.user);
      assert groups'[g] == KeysAt(blocks + [Block(offset, [])], g) == KeysAt(blocks, g);
    }
  }
}
