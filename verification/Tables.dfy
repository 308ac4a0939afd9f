/** Tables: building blocks with shortened index keys and filters, and why a lookup may
    probe one block only. */
module Tables {
  import opened Keys
  import opened Coding
  import opened Bytewise
  import opened Filters
  import Lookup

  // ------------------------------------------------------------- sorted runs of byte keys

  predicate KeyLess(a: ByteKey, b: ByteKey)
    ensures KeyLess(a, b) <==> Less(KeyRank(a), KeyRank(b))
  {
    KeyRankKeepsOrder(a, b);
    KeyBefore(a, b)
  }

  ghost predicate InOrder(entries: seq<ByteEntry>) {
    forall i, j :: 0 <= i < j < |entries| ==> KeyLess(entries[i].key, entries[j].key)
  }

  /** Where a seek lands: the first entry that is not before the target. */
  function Seek(entries: seq<ByteEntry>, target: ByteKey): (r: nat)
    ensures r <= |entries|
    ensures forall i :: 0 <= i < r ==> KeyLess(entries[i].key, target)
    ensures r < |entries| ==> !KeyLess(entries[r].key, target)
  {
    if entries == [] || !KeyLess(entries[0].key, target) then 0 else 1 + Seek(entries[1..], target)
  }

  ghost function Ranked(entries: seq<ByteEntry>): seq<Entry> {
    seq(|entries|, i requires 0 <= i < |entries| => Entry(KeyRank(entries[i].key), entries[i].value))
  }

  // -------------------------------------------------------------------------- the table

  datatype Block = Block(offset: nat, entries: seq<ByteEntry>)

  datatype IndexEntry = IndexEntry(key: ByteKey, offset: nat)

  datatype Table = Table(blocks: seq<Block>, index: seq<IndexEntry>, policy: Policy, filter: Option<Bytes>)

  ghost function Joined(blocks: seq<Block>): seq<ByteEntry> {
    if blocks == [] then [] else Joined(blocks[..|blocks| - 1]) + blocks[|blocks| - 1].entries
  }

  /** The index key of a block: a separator between its last key and the first one of the next
      block, or behind it if there is none. */
  ghost predicate Divides(key: ByteKey, block: seq<ByteEntry>, next: Option<ByteKey>) {
    && block != []
    && var last := block[|block| - 1].key;
       if next.Some? then IsSeparator(last, next.value, key) else IsSuccessor(last, key)
  }

  ghost function FirstKey(blocks: seq<Block>, i: nat): Option<ByteKey> {
    if i < |blocks| && blocks[i].entries != [] then Some(blocks[i].entries[0].key) else None
  }

  ghost predicate Indexed(blocks: seq<Block>, index: seq<IndexEntry>, next: Option<ByteKey>) {
    && |index| <= |blocks|
    && forall i :: 0 <= i < |index| ==>
         && index[i].offset == blocks[i].offset
         && Divides(index[i].key, blocks[i].entries, if i + 1 < |blocks| then FirstKey(blocks, i + 1) else next)
  }

  ghost predicate Placed(blocks: seq<Block>) {
    && (forall i :: 0 <= i < |blocks| ==> blocks[i].entries != [])
    && forall i, j :: 0 <= i < j < |blocks| ==> blocks[i].offset < blocks[j].offset
  }

  ghost function UserKeys(entries: seq<ByteEntry>): (keys: seq<Bytes>)
    ensures forall e :: e in entries ==> e.key.user in keys
  {
    var keys := seq(|entries|, i requires 0 <= i < |entries| => entries[i].key.user);
    assert forall i :: 0 <= i < |entries| ==> keys[i] == entries[i].key.user;
    keys
  }

  /** The user keys of the blocks that start in a two-kilobyte range of the file. */
  ghost function KeysAt(blocks: seq<Block>, range: nat): seq<Bytes> {
    if blocks == [] then []
    else
      var last := blocks[|blocks| - 1];
      KeysAt(blocks[..|blocks| - 1], range) +
      (if last.offset / FILTER_BASE == range then UserKeys(last.entries) else [])
  }

  /** The filter answers for each block as a filter of exactly the user keys of its range. */
  ghost predicate Filtered(policy: Policy, blocks: seq<Block>, filter: Bytes) {
    forall i, user :: 0 <= i < |blocks| ==>
      (BlockMayMatch(policy, filter, blocks[i].offset, user) <==>
       KeysMayMatch(policy, KeysAt(blocks, blocks[i].offset / FILTER_BASE), user))
  }

  ghost predicate GoodTable(t: Table) {
    && InOrder(Joined(t.blocks)) && Placed(t.blocks)
    && |t.index| == |t.blocks| && Indexed(t.blocks, t.index, None)
    && (t.filter.Some? ==> Filtered(t.policy, t.blocks, t.filter.value))
  }

  // ---------------------------------------------------------------------- where things are

  lemma {:induction false} JoinedParts(blocks: seq<Block>, i: nat, k: nat)
    requires i < |blocks| && k < |blocks[i].entries|
    ensures var p := |Joined(blocks[..i])| + k;
      && p < |Joined(blocks)| && Joined(blocks)[p] == blocks[i].entries[k]
    ensures |Joined(blocks[..i])| + |blocks[i].entries| <= |Joined(blocks)|
  {
    var n := |blocks| - 1;
    if i < n {
      JoinedParts(blocks[..n], i, k);
      assert blocks[..n][..i] == blocks[..i];
    } else {
      assert blocks[..n] == blocks[..i];
    }
  }

  lemma {:induction false} InSomeBlock(blocks: seq<Block>, p: nat) returns (i: nat, k: nat)
    requires p < |Joined(blocks)|
    ensures i < |blocks| && k < |blocks[i].entries| && p == |Joined(blocks[..i])| + k
    ensures Joined(blocks)[p] == blocks[i].entries[k]
  {
    var n := |blocks| - 1;
    var front := Joined(blocks[..n]);
    if p < |front| {
      i, k := InSomeBlock(blocks[..n], p);
      assert blocks[..n][..i] == blocks[..i];
    } else {
      i, k := n, p - |front|;
    }
  }

  lemma {:induction false} JoinedGrows(blocks: seq<Block>, i: nat, j: nat)
    requires i < j <= |blocks|
    ensures |Joined(blocks[..i])| + |blocks[i].entries| <= |Joined(blocks[..j])|
  {
    assert blocks[..j][..j - 1] == blocks[..j - 1];
    if i < j - 1 {
      JoinedGrows(blocks, i, j - 1);
    }
  }

  /** Entries of a table are ordered by block and then by place. */
  lemma EntriesInOrder(blocks: seq<Block>, i: nat, m: nat, j: nat, k: nat)
    requires InOrder(Joined(blocks)) && i <= j < |blocks| && m < |blocks[i].entries| && k < |blocks[j].entries|
    requires i < j || m < k
    ensures Less(KeyRank(blocks[i].entries[m].key), KeyRank(blocks[j].entries[k].key))
  {
    JoinedParts(blocks, i, m);
    JoinedParts(blocks, j, k);
    if i < j {
      JoinedGrows(blocks, i, j);
    }
    assert KeyLess(blocks[i].entries[m].key, blocks[j].entries[k].key);
  }

  lemma DividesInRanks(key: ByteKey, block: seq<ByteEntry>, next: Option<ByteKey>)
    requires Divides(key, block, next)
    ensures var last, rank := KeyRank(block[|block| - 1].key), KeyRank(key);
      rank == last || (last.user < rank.user && (next.Some? ==> rank.user < KeyRank(next.value).user))
  {
    UserOrder(block[|block| - 1].key, key);
    if next.Some? {
      SeparatorLies(block[|block| - 1].key, next.value, key);
      UserOrder(key, next.value);
    } else {
      SuccessorLies(block[|block| - 1].key, key);
    }
  }

  /** An index key is at or after everything in its block and the ones before. */
  lemma IndexAfterBlock(t: Table, i: nat, j: nat, k: nat)
    requires GoodTable(t) && j <= i < |t.blocks| && k < |t.blocks[j].entries|
    ensures !KeyLess(t.index[i].key, t.blocks[j].entries[k].key)
  {
    var last := |t.blocks[i].entries| - 1;
    DividesInRanks(t.index[i].key, t.blocks[i].entries, FirstKey(t.blocks, i + 1));
    hide *;
    if j < i || k < last {
      GoodIsInOrder(t);
      EntriesInOrder(t.blocks, j, k, i, last);
    }
    NotLess(KeyRank(t.blocks[j].entries[k].key), KeyRank(t.blocks[i].entries[last].key), KeyRank(t.index[i].key));
  }

  lemma NotLess(a: InternalKey, last: InternalKey, key: InternalKey)
    requires a == last || Less(a, last)
    requires key == last || last.user < key.user
    ensures !Less(key, a)
  {
  }

  lemma GoodIsInOrder(t: Table)
    requires GoodTable(t)
    ensures InOrder(Joined(t.blocks)) && Placed(t.blocks)
  {
  }

  /** It is before everything in the blocks that follow; and if not the last key of its
      block, it has a smaller user key than they have. */
  lemma IndexBeforeRest(t: Table, i: nat, j: nat, k: nat)
    requires GoodTable(t) && i < j < |t.blocks| && k < |t.blocks[j].entries|
    ensures KeyLess(t.index[i].key, t.blocks[j].entries[k].key)
    ensures t.index[i].key == t.blocks[i].entries[|t.blocks[i].entries| - 1].key
         || KeyRank(t.index[i].key).user < KeyRank(t.blocks[j].entries[k].key).user
  {
    var last := |t.blocks[i].entries| - 1;
    assert FirstKey(t.blocks, i + 1) == Some(t.blocks[i + 1].entries[0].key);
    DividesInRanks(t.index[i].key, t.blocks[i].entries, FirstKey(t.blocks, i + 1));
    EntriesInOrder(t.blocks, i, last, j, k);
    KeyRankKeepsOrder(t.index[i].key, t.blocks[i].entries[last].key);
    if i + 1 < j || k > 0 {
      EntriesInOrder(t.blocks, i + 1, 0, j, k);
    }
  }

  lemma UserOrder(a: ByteKey, b: ByteKey)
    ensures Before(a.user, b.user) <==> KeyRank(a).user < KeyRank(b).user
    ensures a.user == b.user <==> KeyRank(a).user == KeyRank(b).user
  {
    RankKeepsOrder(a.user, b.user);
  }

  // -------------------------------------------------------------------- the single probe

  function SeekIndex(index: seq<IndexEntry>, target: ByteKey): (r: nat)
    ensures r <= |index|
    ensures forall i :: 0 <= i < r ==> KeyLess(index[i].key, target)
    ensures r < |index| ==> !KeyLess(index[r].key, target)
  {
    if index == [] || !KeyLess(index[0].key, target) then 0 else 1 + SeekIndex(index[1..], target)
  }

  function ReadBlock(blocks: seq<Block>, offset: nat): seq<ByteEntry> {
    if blocks == [] then []
    else if blocks[0].offset == offset then blocks[0].entries
    else ReadBlock(blocks[1..], offset)
  }

  lemma {:induction false} ReadsItsBlock(blocks: seq<Block>, i: nat)
    requires Placed(blocks) && i < |blocks|
    ensures ReadBlock(blocks, blocks[i].offset) == blocks[i].entries
  {
    if i > 0 {
      ReadsItsBlock(blocks[1..], i - 1);
    }
  }

  /** What one probe of a table hands back is right: the entry a seek in the whole table
      finds, whenever that has the wanted user key; otherwise none with that user key. */
  ghost predicate RightProbe(all: seq<ByteEntry>, target: ByteKey, r: Option<ByteEntry>) {
    var p := Seek(all, target);
    if p < |all| && all[p].key.user == target.user then r == Some(all[p])
    else r.Some? ==> r.value.key.user != target.user
  }

  /** No block before the one the index seek finds matters. */
  lemma EarlierBlocksAreBefore(t: Table, target: ByteKey, j: nat, k: nat)
    requires GoodTable(t) && j < SeekIndex(t.index, target) && k < |t.blocks[j].entries|
    ensures KeyLess(t.blocks[j].entries[k].key, target)
  {
    IndexAfterBlock(t, j, j, k);
    hide GoodTable, KeyRank;
  }

  /** Nor does one behind it, if the block found ends before the target: the user keys of
      later blocks are all greater than the target's. */
  lemma LaterBlocksDiffer(t: Table, target: ByteKey, j: nat, k: nat)
    requires GoodTable(t) && SeekIndex(t.index, target) < j < |t.blocks| && k < |t.blocks[j].entries|
    requires var i := SeekIndex(t.index, target); Seek(t.blocks[i].entries, target) == |t.blocks[i].entries|
    ensures t.blocks[j].entries[k].key.user != target.user
  {
    var i := SeekIndex(t.index, target);
    IndexBeforeRest(t, i, j, k);
    BlocksAreNotEmpty(t, i);
    UserOrder(target, t.blocks[j].entries[k].key);
    hide GoodTable;
    assert !KeyLess(t.index[i].key, target);
    assert KeyLess(t.blocks[i].entries[|t.blocks[i].entries| - 1].key, target);
  }

  lemma BlocksAreNotEmpty(t: Table, i: nat)
    requires GoodTable(t) && i < |t.blocks|
    ensures t.blocks[i].entries != [] && t.index[i].offset == t.blocks[i].offset
  {
  }

  /** What the seek in the whole table finds in the block that the index seek finds. */
  ghost predicate SeenFrom(t: Table, target: ByteKey, i: nat, p: nat)
    requires p <= |Joined(t.blocks)|
  {
    if p == |Joined(t.blocks)| then i < |t.blocks| ==> Seek(t.blocks[i].entries, target) == |t.blocks[i].entries|
    else i < |t.blocks| &&
         var q := Seek(t.blocks[i].entries, target);
         if q < |t.blocks[i].entries| then Joined(t.blocks)[p] == t.blocks[i].entries[q]
         else Joined(t.blocks)[p].key.user != target.user
  }

  lemma NothingFoundAtAll(t: Table, target: ByteKey, i: nat)
    requires Seek(Joined(t.blocks), target) == |Joined(t.blocks)| && i < |t.blocks|
    ensures Seek(t.blocks[i].entries, target) == |t.blocks[i].entries|
  {
    var q := Seek(t.blocks[i].entries, target);
    if q < |t.blocks[i].entries| {
      JoinedParts(t.blocks, i, q);
    }
  }

  lemma NotInEarlierBlock(t: Table, target: ByteKey, j: nat, k: nat)
    requires GoodTable(t) && j < |t.blocks| && k < |t.blocks[j].entries| && !KeyLess(t.blocks[j].entries[k].key, target)
    ensures SeekIndex(t.index, target) <= j
  {
    SameCount(t);
    if j < SeekIndex(t.index, target) {
      EarlierBlocksAreBefore(t, target, j, k);
    }
  }

  /** If the probed block has an entry at or after the target, the first such is the one. */
  lemma FoundInBlock(t: Table, target: ByteKey, i: nat, j: nat, k: nat)
    requires i <= j < |t.blocks| && k < |t.blocks[j].entries|
    requires Seek(Joined(t.blocks), target) == |Joined(t.blocks[..j])| + k
    requires !KeyLess(t.blocks[j].entries[k].key, target) && Seek(t.blocks[i].entries, target) < |t.blocks[i].entries|
    ensures j == i && k == Seek(t.blocks[i].entries, target)
  {
    var q := Seek(t.blocks[i].entries, target);
    JoinedParts(t.blocks, i, q);
    NotBeforeSeek(Joined(t.blocks), target, |Joined(t.blocks[..i])| + q);
    if j == i {
      NotBeforeSeek(t.blocks[i].entries, target, k);
    } else {
      JoinedGrows(t.blocks, i, j);
    }
  }

  lemma ProbedBlock(t: Table, target: ByteKey)
    requires GoodTable(t)
    ensures SeenFrom(t, target, SeekIndex(t.index, target), Seek(Joined(t.blocks), target))
  {
    var all, i := Joined(t.blocks), SeekIndex(t.index, target);
    var p := Seek(all, target);
    hide GoodTable, Joined, Seek, SeekIndex, KeyLess;
    if p == |all| {
      if i < |t.blocks| {
        NothingFoundAtAll(t, target, i);
      }
    } else {
      var j, k := InSomeBlock(t.blocks, p);
      NotInEarlierBlock(t, target, j, k);
      if Seek(t.blocks[i].entries, target) < |t.blocks[i].entries| {
        FoundInBlock(t, target, i, j, k);
      } else {
        if j > i {
          LaterBlocksDiffer(t, target, j, k);
        }
      }
    }
  }

  lemma SameCount(t: Table)
    requires GoodTable(t)
    ensures |t.index| == |t.blocks|
  {
  }

  lemma NotBeforeSeek(entries: seq<ByteEntry>, target: ByteKey, m: nat)
    requires m < |entries| && !KeyLess(entries[m].key, target)
    ensures Seek(entries, target) <= m
  {
  }

  /** The filter of a table rules out that the block holds a user key. */
  ghost predicate Denied(t: Table, i: nat, user: Bytes)
    requires i < |t.blocks|
  {
    t.filter.Some? && !KeysMayMatch(t.policy, KeysAt(t.blocks, t.blocks[i].offset / FILTER_BASE), user)
  }

  /** The one block the index points to is asked, unless the filter denies it. */
  ghost function Probe(t: Table, target: ByteKey): Option<ByteEntry>
    requires |t.index| == |t.blocks|
  {
    var i := SeekIndex(t.index, target);
    if i == |t.index| || Denied(t, i, target.user) then None
    else
      var q := Seek(t.blocks[i].entries, target);
      if q < |t.blocks[i].entries| then Some(t.blocks[i].entries[q]) else None
  }

  /** Looks a key up by probing the one block the index points to. */
  method InternalGet(t: Table, target: ByteKey) returns (r: Option<ByteEntry>)
    requires GoodTable(t)
    ensures r == Probe(t, target) && RightProbe(Joined(t.blocks), target, r)
  {
    ProbeIsRight(t, target);
    SameCount(t);
    r := None;
    var i := SeekIndex(t.index, target);
    if i < |t.index| {
      BlocksAreNotEmpty(t, i);
      GoodIsInOrder(t);
      var offset := t.index[i].offset;
      if t.filter.Some? {
        var filter := new FilterBlockReader(t.policy, t.filter.value);
        var mayMatch := filter.BlockKeyMayMatch(offset, target.user);
        if !mayMatch {
          return;
        }
      }
      ReadsItsBlock(t.blocks, i);
      hide GoodTable, BlockMayMatch, KeysMayMatch, KeysAt, RightProbe;
      var block := ReadBlock(t.blocks, offset);
      var q := Seek(block, target);
      if q < |block| {
        r := Some(block[q]);
      }
    }
  }

  lemma ProbeIsRight(t: Table, target: ByteKey)
    requires GoodTable(t)
    ensures |t.index| == |t.blocks| && RightProbe(Joined(t.blocks), target, Probe(t, target))
  {
    ProbedBlock(t, target);
    var i := SeekIndex(t.index, target);
    hide GoodTable, Denied, Joined, Seek, SeekIndex;
    SameCount(t);
    if i < |t.index| && Denied(t, i, target.user) {
      DeniesNoneOfItsOwn(t, i, target.user);
      var q := Seek(t.blocks[i].entries, target);
      assert q < |t.blocks[i].entries| ==> t.blocks[i].entries[q] in t.blocks[i].entries;
    }
  }

  lemma {:induction false} OwnKeysAt(blocks: seq<Block>, i: nat, user: Bytes)
    requires i < |blocks| && user in UserKeys(blocks[i].entries)
    ensures user in KeysAt(blocks, blocks[i].offset / FILTER_BASE)
  {
    if i < |blocks| - 1 {
      OwnKeysAt(blocks[..|blocks| - 1], i, user);
    }
  }

  lemma DeniesNoneOfItsOwn(t: Table, i: nat, user: Bytes)
    requires GoodTable(t) && i < |t.blocks| && Denied(t, i, user)
    ensures forall e :: e in t.blocks[i].entries ==> e.key.user != user
  {
    var keys := KeysAt(t.blocks, t.blocks[i].offset / FILTER_BASE);
    if user in UserKeys(t.blocks[i].entries) {
      OwnKeysAt(t.blocks, i, user);
      hide AllProbed, FilterBits;
      OwnKeysProbed(t.policy, keys, FilterBits(t.policy, keys), user);
      assert false;
    }
  }

  /** What a lookup makes of the entry it was handed. */
  function SaveValue(r: Option<ByteEntry>, user: Bytes): Lookup.Saver {
    if r.Some? && r.value.key.user == user then
      if r.value.key.kind.Value? then Lookup.Found(r.value.value) else Lookup.Deleted
    else Lookup.NotFound
  }

  lemma SeekIsLowerBound(entries: seq<ByteEntry>, target: ByteKey)
    ensures Seek(entries, target) == LowerBound(Ranked(entries), KeyRank(target))
  {
    var run, r, b := Ranked(entries), Seek(entries, target), LowerBound(Ranked(entries), KeyRank(target));
    assert r < |run| ==> run[r].key == KeyRank(entries[r].key);
    assert b < |run| ==> run[b].key == KeyRank(entries[b].key);
    assert !(r < b) && !(b < r);
  }

  /** A lookup through one probe answers as a lookup in the whole sorted run would. */
  lemma ProbeAnswersAsRun(all: seq<ByteEntry>, user: Bytes, sequence: Sequence, r: Option<ByteEntry>)
    requires RightProbe(all, ByteKey(user, sequence, Value), r)
    ensures SaveValue(r, user) == Lookup.FindInRun(Ranked(all), Rank(user), sequence)
  {
    var target := ByteKey(user, sequence, Value);
    SeekIsLowerBound(all, target);
    var p := Seek(all, target);
    if p < |all| {
      UserOrder(all[p].key, target);
    }
  }
}
