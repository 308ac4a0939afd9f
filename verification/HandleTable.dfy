/** The cache's hash table: buckets of linked handles, and the map they stand for. */
module HandleTables {
  import opened Keys
  import opened Coding

  /** Handles live in memory under an address. */
  type Handle = nat

  /** What a handle is looked up by. */
  datatype Tag = Tag(key: Bytes, hash: nat)

  /** hash & (length - 1): the length is a power of two. */
  function BucketOf(hash: nat, length: nat): (b: nat)
    requires length > 0
    ensures b < length
  {
    hash % length
  }

  /** The links from `head` go through the chain and end. */
  ghost predicate Chained(head: Option<Handle>, chain: seq<Handle>, nextHash: map<Handle, Option<Handle>>) {
    && head == (if chain == [] then None else Some(chain[0]))
    && (forall i :: 0 <= i < |chain| ==> chain[i] in nextHash)
    && forall i :: 0 <= i < |chain| ==> nextHash[chain[i]] == if i + 1 < |chain| then Some(chain[i + 1]) else None
  }

  /** A chain holds handles of its bucket, each the one its tag stands for. */
  ghost predicate Holds(chain: seq<Handle>, bucket: nat, length: nat, tags: map<Handle, Tag>, contents: map<Tag,
                        Handle>)
    requires length > 0
  {
    && (forall i, j :: 0 <= i < j < |chain| ==> chain[i] != chain[j])
    && forall h :: h in chain ==>
         h in tags && BucketOf(tags[h].hash, length) == bucket && tags[h] in contents && contents[tags[h]] == h
  }

  ghost predicate Buckets(list: seq<Option<Handle>>, chains: seq<seq<Handle>>, nextHash: map<Handle, Option<Handle>>,
                          tags: map<Handle, Tag>, contents: map<Tag, Handle>) {
    && |list| == |chains| > 0
    && (forall b :: 0 <= b < |list| ==> Chained(list[b], chains[b], nextHash))
    && (forall b :: 0 <= b < |list| ==> Holds(chains[b], b, |list|, tags, contents))
    && forall t :: t in contents ==>
         contents[t] in chains[BucketOf(t.hash, |list|)] && contents[t] in tags && tags[contents[t]] == t
  }

  ghost predicate PowerOfTwo(n: nat) {
    n == 1 || (n > 1 && n % 2 == 0 && PowerOfTwo(n / 2))
  }

  /** Where a tag is, or would be appended: after `prev` in the bucket, at place `at`. */
  datatype Slot = Slot(bucket: nat, prev: Option<Handle>, found: Option<Handle>)

  ghost predicate SlotAt(slot: Slot, chains: seq<seq<Handle>>, at: nat) {
    && slot.bucket < |chains| && at <= |chains[slot.bucket]|
    && slot.prev == (if at == 0 then None else Some(chains[slot.bucket][at - 1]))
    && slot.found == (if at < |chains[slot.bucket]| then Some(chains[slot.bucket][at]) else None)
  }

  class HandleTable {
    var length: nat
    var elems: nat
    var list: seq<Option<Handle>>
    var nextHash: map<Handle, Option<Handle>>
    var tags: map<Handle, Tag>
    ghost var chains: seq<seq<Handle>>
    ghost var contents: map<Tag, Handle>

    ghost predicate Valid()
      reads this
    {
      && length == |list| && length >= 4 && PowerOfTwo(length)
      && Buckets(list, chains, nextHash, tags, contents)
      && elems == |contents| <= length  // a bucket for every handle
    }

    constructor ()
      ensures Valid() && contents == map[]
    {
      length, elems := 4, 0;
      list, chains := [None, None, None, None], [[], [], [], []];
      nextHash, tags, contents := map[], map[], map[];
    }

    /** The slot of a tag. */
    method FindPointer(tag: Tag) returns (slot: Slot, ghost at: nat)
      requires Valid()
      ensures SlotAt(slot, chains, at) && slot.bucket == BucketOf(tag.hash, length)
      ensures slot.found == if tag in contents then Some(contents[tag]) else None
    {
      hide PowerOfTwo, BucketOf;
      slot, at := Slot(BucketOf(tag.hash, length), None, list[BucketOf(tag.hash, length)]), 0;
      ghost var chain := chains[slot.bucket];
      assert Chained(list[slot.bucket], chain, nextHash) && Holds(chain, slot.bucket, length, tags, contents);
      while slot.found.Some? && tags[slot.found.value] != tag
        invariant slot.bucket == BucketOf(tag.hash, length) && SlotAt(slot, chains, at)
        invariant forall i :: 0 <= i < at ==> tags[chain[i]] != tag
        decreases |chain| - at
      {
        LinkAt(list[slot.bucket], chain, nextHash, at);
        slot := slot.(prev := slot.found, found := nextHash[slot.found.value]);
        at := at + 1;
      }
      if tag in contents {
        var i :| 0 <= i < |chain| && chain[i] == contents[tag];
      }
    }

    method Lookup(tag: Tag) returns (h: Option<Handle>)
      requires Valid()
      ensures h == if tag in contents then Some(contents[tag]) else None
    {
      var slot, _ := FindPointer(tag);
      h := slot.found;
    }

    /** *ptr = h */
    method Store(slot: Slot, h: Option<Handle>)
      requires slot.bucket < |list|
      modifies `list, `nextHash
      ensures slot.prev.None? ==> list == old(list)[slot.bucket := h] && nextHash == old(nextHash)
      ensures slot.prev.Some? ==> list == old(list) && nextHash == old(nextHash)[slot.prev.value := h]
    {
      if slot.prev.None? {
        list := list[slot.bucket := h];
      } else {
        nextHash := nextHash[slot.prev.value := h];
      }
    }

    /** Puts a handle in; returns the one it replaces. */
    method Insert(h: Handle, tag: Tag) returns (old_: Option<Handle>)
      requires Valid() && forall t :: t in contents ==> contents[t] != h
      modifies this
      ensures Valid() && contents == old(contents)[tag := h]
      ensures old_ == if tag in old(contents) then Some(old(contents)[tag]) else None
      ensures length != old(length) <==> |contents| > old(length)
    {
      hide PowerOfTwo, BucketOf, Buckets;
      var slot, at := FindPointer(tag);
      ghost var before, n := this.nextHash, |list|;
      old_ := slot.found;
      SlotInMemory(list, chains, nextHash, tags, contents, slot, at);
      ghost var list0, nextHash0, tags0 := list, nextHash, tags;
      tags := tags[h := tag];
      nextHash := nextHash[h := if old_.None? then None else nextHash[old_.value]];
      Store(slot, Some(h));
      InsertedBuckets(list0, chains, nextHash0, tags0, contents, slot, at, h, tag, list, nextHash);
      chains := chains[slot.bucket := WithHandle(chains[slot.bucket], at, h)];
      if old_.None? {
        elems := elems + 1;
      }
      contents := contents[tag := h];
      if old_.None? && elems > length {
        Resize();
      }
    }

    /** Moves every handle into a bucket of a larger table. */
    method Resize()
      requires Buckets(list, chains, nextHash, tags, contents) && length == |list| && elems == |contents|
      modifies this
      ensures Valid() && contents == old(contents) && tags == old(tags) && elems == old(elems)
      // The least number of buckets for all handles.
      ensures elems <= length && (length == 4 || length < 2 * elems)
    {
      hide PowerOfTwo, BucketOf, Buckets, Moving;
      var newLength := 4;
      FourIsPower();
      while newLength < elems
        modifies {}
        invariant newLength >= 4 && PowerOfTwo(newLength) && (newLength == 4 || newLength < 2 * elems)
        decreases elems - newLength
      {
        DoubleIsPower(newLength);
        newLength := 2 * newLength;
      }
      var newList: seq<Option<Handle>> := seq(newLength, _ => None);
      ghost var newChains: seq<seq<Handle>>, done: map<Tag, Handle> := seq(newLength, _ => []), map[];
      MovingStarts(list, chains, nextHash, tags, contents, newList, newChains);
      for i := 0 to length
        modifies `nextHash
        invariant |newList| == newLength && length == |list| > 0
        invariant Moving(list, chains, nextHash, tags, contents, i, 0, newList, newChains, done)
      {
        var h := list[i];
        ghost var j := 0;
        HeadOfBucket(list, chains, nextHash, tags, contents, i, newList, newChains, done);
        while h.Some?
          invariant |newList| == newLength && j <= |chains[i]|
          invariant Moving(list, chains, nextHash, tags, contents, i, j, newList, newChains, done)
          invariant h == if j < |chains[i]| then Some(chains[i][j]) else None
          decreases |chains[i]| - j
        {
          NextToMove(list, chains, nextHash, tags, contents, i, j, newList, newChains, done);
          var next := nextHash[h.value];
          var b := BucketOf(tags[h.value].hash, newLength);
          ghost var before := nextHash;
          nextHash := nextHash[h.value := newList[b]];
          MovedOne(list, chains, before, tags, contents, i, j, newList, newChains, done, h.value);
          newChains := newChains[b := [h.value] + newChains[b]];
          done := done[tags[h.value] := h.value];
          newList := newList[b := h];
          h, j := next, j + 1;
        }
        BucketMoved(list, chains, nextHash, tags, contents, i, newList, newChains, done);
      }
      AllMoved(list, chains, nextHash, tags, contents, newList, newChains, done);
      list, length, chains := newList, newLength, newChains;
    }

    /** Takes a handle out of the table, if there is one for the tag. */
    method Remove(tag: Tag) returns (result: Option<Handle>)
      requires Valid()
      modifies this
      ensures Valid() && contents == old(contents) - {tag}
      ensures result == if tag in old(contents) then Some(old(contents)[tag]) else None
    {
      hide PowerOfTwo, BucketOf, Buckets;
      var slot, at := FindPointer(tag);
      result := slot.found;
      if result.Some? {
        SlotInMemory(list, chains, nextHash, tags, contents, slot, at);
        ghost var list0, nextHash0 := list, nextHash;
        Store(slot, nextHash[result.value]);
        RemovedBuckets(list0, chains, nextHash0, tags, contents, slot, at, tag, list, nextHash);
        chains := chains[slot.bucket := chains[slot.bucket][..at] + chains[slot.bucket][at + 1..]];
        FewerContents(contents, tag);
        elems, contents := elems - 1, contents - {tag};
      } else {
        assert contents - {tag} == contents;
      }
    }
  }

  lemma FewerContents(contents: map<Tag, Handle>, tag: Tag)
    requires tag in contents
    ensures |contents - {tag}| == |contents| - 1
  {
    assert (contents - {tag}).Keys == contents.Keys - {tag};
    assert |contents.Keys| == |contents| && |(contents - {tag}).Keys| == |contents - {tag}|;
  }

  /** The chain with a handle at a place, in place of the one there if any. */
  ghost function WithHandle(chain: seq<Handle>, at: nat, h: Handle): seq<Handle>
    requires at <= |chain|
  {
    chain[..at] + [h] + if at < |chain| then chain[at + 1..] else []
  }

  lemma SlotInMemory(list: seq<Option<Handle>>, chains: seq<seq<Handle>>, nextHash: map<Handle, Option<Handle>>,
                     tags: map<Handle, Tag>, contents: map<Tag, Handle>, slot: Slot, at: nat)
    requires Buckets(list, chains, nextHash, tags, contents) && SlotAt(slot, chains, at)
    ensures slot.bucket < |list| && (slot.found.Some? ==> slot.found.value in nextHash)
  {
    assert Chained(list[slot.bucket], chains[slot.bucket], nextHash);
  }

  /** Handles of other buckets are not the ones of this bucket. */
  lemma BucketsApart(list: seq<Option<Handle>>, chains: seq<seq<Handle>>, nextHash: map<Handle, Option<Handle>>,
                     tags: map<Handle, Tag>, contents: map<Tag, Handle>, b: nat, c: nat, h: Handle)
    requires Buckets(list, chains, nextHash, tags, contents) && b < |chains| && c < |chains| && b != c && h in chains[b]
    ensures h !in chains[c]
  {
    assert Holds(chains[b], b, |list|, tags, contents) && Holds(chains[c], c, |list|, tags, contents);
  }

  lemma SameChain(head: Option<Handle>, chain: seq<Handle>, nextHash: map<Handle, Option<Handle>>,
                  nextHash': map<Handle, Option<Handle>>)
    requires Chained(head, chain, nextHash)
    requires forall h :: h in chain ==> h in nextHash' && (h in nextHash ==> nextHash'[h] == nextHash[h])
    ensures Chained(head, chain, nextHash')
  {
    forall i | 0 <= i < |chain| ensures chain[i] in nextHash' && nextHash'[chain[i]] == nextHash[chain[i]] {
      assert chain[i] in chain;
    }
  }

  /** Writing through the slot splices a chain. */
  lemma SplicedChain(head: Option<Handle>, chain: seq<Handle>, nextHash: map<Handle, Option<Handle>>, at: nat,
                     rest: nat,
                     mid: seq<Handle>, head': Option<Handle>, nextHash': map<Handle, Option<Handle>>)
    requires Chained(head, chain, nextHash) && at <= rest <= |chain| && |mid| <= 1
    requires var after := if rest < |chain| then Some(chain[rest]) else None;
      var first := if mid == [] then after else Some(mid[0]);
      && (mid != [] ==> mid[0] in nextHash' && nextHash'[mid[0]] == after)
      && (if at == 0 then head' == first
          else head' == head && chain[at - 1] in nextHash' && nextHash'[chain[at - 1]] == first)
    requires forall i :: 0 <= i < |chain| && i + 1 != at ==>
      chain[i] in nextHash' && nextHash'[chain[i]] == nextHash[chain[i]]
    ensures Chained(head', chain[..at] + mid + chain[rest..], nextHash')
  {
    var chain' := chain[..at] + mid + chain[rest..];
    SplicedAt(chain, at, rest, mid);
    forall k | 0 <= k < |chain'|
      ensures chain'[k] in nextHash'
      ensures nextHash'[chain'[k]] == if k + 1 < |chain'| then Some(chain'[k + 1]) else None
    {
      if k + 1 < at {
        LinkAt(head, chain, nextHash, k);
      } else if k + 1 == at {
        assert chain'[k] == chain[at - 1];
      } else if k >= at + |mid| {
        LinkAt(head, chain, nextHash, k - at - |mid| + rest);
      }
    }
    assert forall k :: 0 <= k < |chain'| ==>
      nextHash'[chain'[k]] == if k + 1 < |chain'| then Some(chain'[k + 1]) else None;
    assert Chained(head', chain', nextHash');
  }

  lemma SplicedAt(chain: seq<Handle>, at: nat, rest: nat, mid: seq<Handle>)
    requires at <= rest <= |chain|
    ensures var chain' := chain[..at] + mid + chain[rest..];
      forall k :: 0 <= k < |chain'| ==>
        chain'[k] == if k < at then chain[k] else if k < at + |mid| then mid[k - at] else chain[k - at - |mid| + rest]
  {
  }

  lemma LinkAt(head: Option<Handle>, chain: seq<Handle>, nextHash: map<Handle, Option<Handle>>, i: nat)
    requires Chained(head, chain, nextHash) && i < |chain|
    ensures chain[i] in nextHash && nextHash[chain[i]] == if i + 1 < |chain| then Some(chain[i + 1]) else None
  {
  }

  /** What storing through a slot does to the links. */
  ghost predicate StoredAt(list: seq<Option<Handle>>, nextHash: map<Handle, Option<Handle>>, slot: Slot,
                           h: Option<Handle>,
                           list': seq<Option<Handle>>, nextHash': map<Handle, Option<Handle>>) {
    && slot.bucket < |list|
    && if slot.prev.None? then list' == list[slot.bucket := h] && nextHash' == nextHash
       else list' == list && nextHash' == nextHash[slot.prev.value := h]
  }

  /** The chains after splicing one of them through a slot. */
  lemma SplicedChains(list: seq<Option<Handle>>, chains: seq<seq<Handle>>, nextHash: map<Handle, Option<Handle>>,
                      tags: map<Handle, Tag>, contents: map<Tag, Handle>, slot: Slot, at: nat, rest: nat,
                      mid: seq<Handle>,
                      linked: map<Handle, Option<Handle>>, list': seq<Option<Handle>>, nextHash': map<Handle,
                      Option<Handle>>)
    requires Buckets(list, chains, nextHash, tags, contents) && SlotAt(slot, chains, at)
    requires at <= rest <= |chains[slot.bucket]|
    requires |mid| <= 1 && forall h, c :: h in mid && 0 <= c < |chains| ==> h !in chains[c]
    requires var after := if rest < |chains[slot.bucket]| then Some(chains[slot.bucket][rest]) else None;
      && linked == (if mid == [] then nextHash else nextHash[mid[0] := after])
      && StoredAt(list, linked, slot, if mid == [] then after else Some(mid[0]), list', nextHash')
    ensures |list'| == |list|
    ensures forall c :: 0 <= c < |list| ==>
      Chained(list'[c], chains[slot.bucket := chains[slot.bucket][..at] + mid + chains[slot.bucket][rest..]][c],
              nextHash')
  {
    hide Buckets, Holds, Chained, BucketOf;
    var b, chain := slot.bucket, chains[slot.bucket];
    NewBucketCount(list, chains, nextHash, tags, contents);
    ChainOf(list, chains, nextHash, tags, contents, b);
    assert slot.prev.Some? ==> slot.prev.value in chain;
    forall c | 0 <= c < |list| && c != b ensures Chained(list'[c], chains[c], nextHash') {
      ChainOf(list, chains, nextHash, tags, contents, c);
      MemoryOf(list[c], chains[c], nextHash);
      OtherChain(list, chains, nextHash, tags, contents, slot, b, c, mid, linked, list', nextHash');
    }
    DistinctInChain(chain, b, |list|, tags, contents);
    MemoryOf(list[b], chain, nextHash);
    forall i | 0 <= i < |chain| && i + 1 != at
      ensures chain[i] in nextHash' && nextHash'[chain[i]] == nextHash[chain[i]]
    {
      assert chain[i] in chain && (at > 0 ==> chain[i] != chain[at - 1]);
      assert mid != [] ==> mid[0] in mid;
    }
    assert (mid != [] ==> mid[0] in mid) && (at > 0 ==> chain[at - 1] in chain);
    SplicedChain(list[b], chain, nextHash, at, rest, mid, list'[b], nextHash');
  }

  lemma DistinctInChain(chain: seq<Handle>, b: nat, length: nat, tags: map<Handle, Tag>, contents: map<Tag, Handle>)
    requires length > 0 && Holds(chain, b, length, tags, contents)
    ensures forall i, j :: 0 <= i < j < |chain| ==> chain[i] != chain[j]
  {
  }

  lemma OtherChain(list: seq<Option<Handle>>, chains: seq<seq<Handle>>, nextHash: map<Handle, Option<Handle>>,
                   tags: map<Handle, Tag>, contents: map<Tag, Handle>, slot: Slot, b: nat, c: nat, mid: seq<Handle>,
                   linked: map<Handle, Option<Handle>>, list': seq<Option<Handle>>, nextHash': map<Handle,
                   Option<Handle>>)
    requires Buckets(list, chains, nextHash, tags, contents) && b < |chains| && c < |chains| && b != c
    requires b == slot.bucket
    requires slot.prev.Some? ==> slot.prev.value in chains[b]
    requires |mid| <= 1 && forall h :: h in mid ==> h !in chains[c]
    requires forall h :: h in nextHash && h !in mid ==> h in linked && linked[h] == nextHash[h]
    requires exists h :: StoredAt(list, linked, slot, h, list', nextHash')
    ensures c < |list'| && Chained(list'[c], chains[c], nextHash')
  {
    ChainOf(list, chains, nextHash, tags, contents, c);
    MemoryOf(list[c], chains[c], nextHash);
    if slot.prev.Some? {
      BucketsApart(list, chains, nextHash, tags, contents, b, c, slot.prev.value);
    }
    hide Buckets, Chained, Holds;
    SameChain(list[c], chains[c], nextHash, nextHash');
  }

  lemma MemoryOf(head: Option<Handle>, chain: seq<Handle>, nextHash: map<Handle, Option<Handle>>)
    requires Chained(head, chain, nextHash)
    ensures forall h :: h in chain ==> h in nextHash
  {
  }

  lemma InsertedBuckets(list: seq<Option<Handle>>, chains: seq<seq<Handle>>, nextHash: map<Handle, Option<Handle>>,
                        tags: map<Handle, Tag>, contents: map<Tag, Handle>, slot: Slot, at: nat, h: Handle, tag: Tag,
                        list': seq<Option<Handle>>, nextHash': map<Handle, Option<Handle>>)
    requires Buckets(list, chains, nextHash, tags, contents) && SlotAt(slot, chains, at)
    requires slot.bucket == BucketOf(tag.hash, |list|) && (forall t :: t in contents ==> contents[t] != h)
    requires slot.found == if tag in contents then Some(contents[tag]) else None
    requires slot.found.Some? ==> slot.found.value in nextHash
    requires StoredAt(list, nextHash[h := if slot.found.None? then None else nextHash[slot.found.value]], slot, Some(h),
                      list', nextHash')
    ensures Buckets(list', chains[slot.bucket := WithHandle(chains[slot.bucket], at, h)], nextHash', tags[h := tag],
                    contents[tag := h])
  {
    var chain := chains[slot.bucket];
    var rest := if at < |chain| then at + 1 else at;
    assert WithHandle(chain, at, h) == chain[..at] + [h] + chain[rest..];
    if at < |chain| {
      ChainOf(list, chains, nextHash, tags, contents, slot.bucket);
      LinkAt(list[slot.bucket], chain, nextHash, at);
    }
    NotInChains(list, chains, nextHash, tags, contents, h);
    InsertedHolds(list, chains, nextHash, tags, contents, slot, at, h, tag);
    SplicedChains(list, chains, nextHash, tags, contents, slot, at, rest, [h],
                  nextHash[h := if slot.found.None? then None else nextHash[slot.found.value]], list', nextHash');
    NewBucketCount(list, chains, nextHash, tags, contents);
    hide Chained, Holds, StoredAt;
  }

  lemma ChainOf(list: seq<Option<Handle>>, chains: seq<seq<Handle>>, nextHash: map<Handle, Option<Handle>>,
                tags: map<Handle, Tag>, contents: map<Tag, Handle>, b: nat)
    requires Buckets(list, chains, nextHash, tags, contents) && b < |chains|
    ensures b < |list| && Chained(list[b], chains[b], nextHash) && Holds(chains[b], b, |list|, tags, contents)
  {
  }

  lemma NotInChains(list: seq<Option<Handle>>, chains: seq<seq<Handle>>, nextHash: map<Handle, Option<Handle>>,
                    tags: map<Handle, Tag>, contents: map<Tag, Handle>, h: Handle)
    requires Buckets(list, chains, nextHash, tags, contents) && forall t :: t in contents ==> contents[t] != h
    ensures forall c :: 0 <= c < |chains| ==> h !in chains[c]
  {
    forall c | 0 <= c < |chains| ensures h !in chains[c] {
      assert Holds(chains[c], c, |list|, tags, contents);
    }
  }

  /** Every tag of the contents is in its bucket's chain. */
  ghost predicate Reachable(chains: seq<seq<Handle>>, tags: map<Handle, Tag>, contents: map<Tag, Handle>) {
    && |chains| > 0
    && forall t :: t in contents ==>
         contents[t] in chains[BucketOf(t.hash, |chains|)] && contents[t] in tags && tags[contents[t]] == t
  }

  lemma InsertedHolds(list: seq<Option<Handle>>, chains: seq<seq<Handle>>, nextHash: map<Handle, Option<Handle>>,
                      tags: map<Handle, Tag>, contents: map<Tag, Handle>, slot: Slot, at: nat, h: Handle, tag: Tag)
    requires Buckets(list, chains, nextHash, tags, contents) && SlotAt(slot, chains, at)
    requires slot.bucket == BucketOf(tag.hash, |list|) && (forall t :: t in contents ==> contents[t] != h)
    requires slot.found == if tag in contents then Some(contents[tag]) else None
    ensures var chains' := chains[slot.bucket := WithHandle(chains[slot.bucket], at, h)];
      && (forall c :: 0 <= c < |chains| ==> Holds(chains'[c], c, |list|, tags[h := tag], contents[tag := h]))
      && Reachable(chains', tags[h := tag], contents[tag := h])
  {
    var b, chain := slot.bucket, chains[slot.bucket];
    var chain' := WithHandle(chain, at, h);
    NotInChains(list, chains, nextHash, tags, contents, h);
    hide BucketOf;
    forall c | 0 <= c < |chains| && c != b ensures Holds(chains[c], c, |list|, tags[h := tag], contents[tag := h]) {
      assert Holds(chains[c], c, |list|, tags, contents);
    }
    assert Holds(chain, b, |list|, tags, contents);
    WithHandleMembers(chain, at, h);
    assert Holds(chain', b, |list|, tags[h := tag], contents[tag := h]);
  }

  lemma WithHandleMembers(chain: seq<Handle>, at: nat, h: Handle)
    requires at <= |chain| && h !in chain && forall i, j :: 0 <= i < j < |chain| ==> chain[i] != chain[j]
    ensures forall i, j :: 0 <= i < j < |WithHandle(chain, at, h)| ==>
      WithHandle(chain, at, h)[i] != WithHandle(chain, at, h)[j]
    ensures forall x :: x in WithHandle(chain, at, h) <==> x == h || (x in chain && !(at < |chain| && x == chain[at]))
  {
    var more := WithHandle(chain, at, h);
    forall i | 0 <= i < |more| ensures more[i] == if i == at then h else chain[i] {
    }
    assert forall i :: 0 <= i < |chain| && i != at ==> more[i] == chain[i];
    assert more[at] == h;
  }

  lemma RemovedBuckets(list: seq<Option<Handle>>, chains: seq<seq<Handle>>, nextHash: map<Handle, Option<Handle>>,
                       tags: map<Handle, Tag>, contents: map<Tag, Handle>, slot: Slot, at: nat, tag: Tag,
                       list': seq<Option<Handle>>, nextHash': map<Handle, Option<Handle>>)
    requires Buckets(list, chains, nextHash, tags, contents) && SlotAt(slot, chains, at)
    requires slot.bucket == BucketOf(tag.hash, |list|) && tag in contents && slot.found == Some(contents[tag])
    requires slot.found.value in nextHash
    requires StoredAt(list, nextHash, slot, nextHash[slot.found.value], list', nextHash')
    ensures Buckets(list', chains[slot.bucket := chains[slot.bucket][..at] + chains[slot.bucket][at + 1..]], nextHash',
                    tags,
                    contents - {tag})
  {
    var chain := chains[slot.bucket];
    assert chain[..at] + [] + chain[at + 1..] == chain[..at] + chain[at + 1..];
    ChainOf(list, chains, nextHash, tags, contents, slot.bucket);
    LinkAt(list[slot.bucket], chain, nextHash, at);
    SplicedChains(list, chains, nextHash, tags, contents, slot, at, at + 1, [], nextHash, list', nextHash');
    RemovedHolds(list, chains, nextHash, tags, contents, slot.bucket, at, tag);
    NewBucketCount(list, chains, nextHash, tags, contents);
    hide Chained, Holds, StoredAt;
  }

  lemma RemovedHolds(list: seq<Option<Handle>>, chains: seq<seq<Handle>>, nextHash: map<Handle, Option<Handle>>,
                     tags: map<Handle, Tag>, contents: map<Tag, Handle>, b: nat, at: nat, tag: Tag)
    requires Buckets(list, chains, nextHash, tags, contents) && b < |chains| && at < |chains[b]|
    requires b == BucketOf(tag.hash, |list|) && tag in contents && chains[b][at] == contents[tag]
    ensures var chains' := chains[b := chains[b][..at] + chains[b][at + 1..]];
      && (forall c :: 0 <= c < |chains| ==> Holds(chains'[c], c, |list|, tags, contents - {tag}))
      && forall t :: t in contents - {tag} ==> contents[t] in chains'[BucketOf(t.hash, |list|)]
  {
    var chain := chains[b];
    var chain' := chain[..at] + chain[at + 1..];
    hide BucketOf;
    forall c | 0 <= c < |chains| && c != b ensures Holds(chains[c], c, |list|, tags, contents - {tag}) {
      assert Holds(chains[c], c, |list|, tags, contents);
    }
    assert Holds(chain, b, |list|, tags, contents);
    RemovedMembers(chain, at);
    assert Holds(chain', b, |list|, tags, contents - {tag});
  }

  lemma RemovedMembers(chain: seq<Handle>, at: nat)
    requires at < |chain| && forall i, j :: 0 <= i < j < |chain| ==> chain[i] != chain[j]
    ensures var less := chain[..at] + chain[at + 1..];
      && (forall i, j :: 0 <= i < j < |less| ==> less[i] != less[j])
      && forall x :: x in less <==> x in chain && x != chain[at]
  {
    var less := chain[..at] + chain[at + 1..];
    forall x | x in chain && x != chain[at] ensures x in less {
      var i :| 0 <= i < |chain| && chain[i] == x;
      assert less[if i < at then i else i - 1] == x;
    }
  }

  // ----------------------------------------------------------------------------- resizing

  lemma FourIsPower()
    ensures PowerOfTwo(4)
  {
    assert PowerOfTwo(1);
    assert PowerOfTwo(2);
  }

  lemma DoubleIsPower(n: nat)
    requires PowerOfTwo(n)
    ensures PowerOfTwo(2 * n)
  {
    assert 2 * n / 2 == n;
  }

  /** The handles in front of the j-th one of bucket i have been moved, the others not. */
  ghost predicate MovedUpTo(chains: seq<seq<Handle>>, tags: map<Handle, Tag>, done: map<Tag, Handle>, i: nat, j: nat) {
    forall c, k :: 0 <= c < |chains| && 0 <= k < |chains[c]| && chains[c][k] in tags ==>
      (tags[chains[c][k]] in done <==> c < i || (c == i && k < j))
  }

  /** While resizing: bucket i is moved up to its j-th handle, the buckets before it all. */
  ghost predicate Moving(list: seq<Option<Handle>>, chains: seq<seq<Handle>>, nextHash: map<Handle, Option<Handle>>,
                         tags: map<Handle, Tag>, contents: map<Tag, Handle>, i: nat, j: nat,
                         newList: seq<Option<Handle>>, newChains: seq<seq<Handle>>, done: map<Tag, Handle>) {
    && |list| == |chains| > 0 && i <= |list|
    && Buckets(newList, newChains, nextHash, tags, done)
    && (forall t :: t in done ==> t in contents && done[t] == contents[t])
    && (forall c :: i < c < |chains| ==> Chained(list[c], chains[c], nextHash))
    && (i < |chains| ==> j <= |chains[i]| && Chained(FrontOf(chains[i][j..]), chains[i][j..], nextHash))
    && (j == 0 && i < |chains| ==> list[i] == FrontOf(chains[i]))
    && (forall c :: 0 <= c < |chains| ==> Holds(chains[c], c, |list|, tags, contents))
    && MovedUpTo(chains, tags, done, i, j)
    && forall t :: t in contents ==>
         contents[t] in chains[BucketOf(t.hash, |list|)] && contents[t] in tags && tags[contents[t]] == t
  }

  ghost function FrontOf(chain: seq<Handle>): Option<Handle> {
    if chain == [] then None else Some(chain[0])
  }

  lemma MovingStarts(list: seq<Option<Handle>>, chains: seq<seq<Handle>>, nextHash: map<Handle, Option<Handle>>,
                     tags: map<Handle, Tag>, contents: map<Tag, Handle>, newList: seq<Option<Handle>>,
                     newChains: seq<seq<Handle>>)
    requires Buckets(list, chains, nextHash, tags, contents) && |newList| == |newChains| > 0
    requires (forall b :: 0 <= b < |newList| ==> newList[b] == None && newChains[b] == [])
    ensures Moving(list, chains, nextHash, tags, contents, 0, 0, newList, newChains, map[])
  {
    assert chains[0][0..] == chains[0];
    assert Chained(list[0], chains[0], nextHash);
    forall b | 0 <= b < |newList|
      ensures Chained(newList[b], newChains[b], nextHash) && Holds(newChains[b], b, |newList|, tags, map[])
    {
    }
    assert Buckets(newList, newChains, nextHash, tags, map[]);
  }

  lemma HeadOfBucket(list: seq<Option<Handle>>, chains: seq<seq<Handle>>, nextHash: map<Handle, Option<Handle>>,
                     tags: map<Handle, Tag>, contents: map<Tag, Handle>, i: nat,
                     newList: seq<Option<Handle>>, newChains: seq<seq<Handle>>, done: map<Tag, Handle>)
    requires Moving(list, chains, nextHash, tags, contents, i, 0, newList, newChains, done) && i < |list|
    ensures i < |chains| && list[i] == if 0 < |chains[i]| then Some(chains[i][0]) else None
  {
    hide Buckets, Holds, Chained;
  }

  lemma NextToMove(list: seq<Option<Handle>>, chains: seq<seq<Handle>>, nextHash: map<Handle, Option<Handle>>,
                   tags: map<Handle, Tag>, contents: map<Tag, Handle>, i: nat, j: nat,
                   newList: seq<Option<Handle>>, newChains: seq<seq<Handle>>, done: map<Tag, Handle>)
    requires Moving(list, chains, nextHash, tags, contents, i, j, newList, newChains, done)
    requires i < |chains| && j < |chains[i]|
    ensures var h := chains[i][j];
      && h in tags && h in nextHash && nextHash[h] == (if j + 1 < |chains[i]| then Some(chains[i][j + 1]) else None)
      && tags[h] in contents && contents[tags[h]] == h && tags[h] !in done
    ensures |newList| == |newChains|
  {
    var chain := chains[i];
    hide Buckets, BucketOf;
    assert Holds(chain, i, |list|, tags, contents) && chain[j] in chain;
    assert Chained(FrontOf(chain[j..]), chain[j..], nextHash);
    LinkAt(FrontOf(chain[j..]), chain[j..], nextHash, 0);
    NewBucketCount(newList, newChains, nextHash, tags, done);
  }

  lemma NewBucketCount(list: seq<Option<Handle>>, chains: seq<seq<Handle>>, nextHash: map<Handle, Option<Handle>>,
                       tags: map<Handle, Tag>, contents: map<Tag, Handle>)
    requires Buckets(list, chains, nextHash, tags, contents)
    ensures |list| == |chains|
  {
  }

  /** The chain of bucket c when h goes to the front of bucket b. */
  lemma PushedChain(list: seq<Option<Handle>>, chains: seq<seq<Handle>>, nextHash: map<Handle, Option<Handle>>,
                    tags: map<Handle, Tag>, contents: map<Tag, Handle>, h: Handle, b: nat, c: nat)
    requires Buckets(list, chains, nextHash, tags, contents) && b < |list| && c < |list| == |chains|
    requires forall c :: 0 <= c < |chains| ==> h !in chains[c]
    ensures Chained(list[b := Some(h)][c], chains[b := [h] + chains[b]][c], nextHash[h := list[b]])
  {
    hide BucketOf, Holds;
    assert Chained(list[c], chains[c], nextHash);
    if c == b {
      SplicedChain(list[b], chains[b], nextHash, 0, 0, [h], Some(h), nextHash[h := list[b]]);
      assert chains[b][..0] + [h] + chains[b][0..] == [h] + chains[b];
    } else {
      SameChain(list[c], chains[c], nextHash, nextHash[h := list[b]]);
    }
  }

  lemma PushedHolds(chain: seq<Handle>, c: nat, length: nat, tags: map<Handle, Tag>, contents: map<Tag, Handle>,
                    h: Handle)
    requires length > 0 && Holds(chain, c, length, tags, contents) && h in tags && tags[h] !in contents && h !in chain
    ensures Holds(chain, c, length, tags, contents[tags[h] := h])
    ensures c == BucketOf(tags[h].hash, length) ==> Holds([h] + chain, c, length, tags, contents[tags[h] := h])
  {
    hide BucketOf;
  }

  /** One handle goes to the front of its new bucket. */
  lemma PushedBuckets(list: seq<Option<Handle>>, chains: seq<seq<Handle>>, nextHash: map<Handle, Option<Handle>>,
                      tags: map<Handle, Tag>, contents: map<Tag, Handle>, h: Handle)
    requires Buckets(list, chains, nextHash, tags, contents) && h in tags && tags[h] !in contents
    ensures var b := BucketOf(tags[h].hash, |list|);
      Buckets(list[b := Some(h)], chains[b := [h] + chains[b]], nextHash[h := list[b]], tags, contents[tags[h] := h])
  {
    var b := BucketOf(tags[h].hash, |list|);
    hide BucketOf, Chained, Holds;
    forall t | t in contents ensures contents[t] != h {
    }
    NotInChains(list, chains, nextHash, tags, contents, h);
    var list', chains', nextHash' := list[b := Some(h)], chains[b := [h] + chains[b]], nextHash[h := list[b]];
    forall c | 0 <= c < |list'| ensures Chained(list'[c], chains'[c], nextHash') {
      PushedChain(list, chains, nextHash, tags, contents, h, b, c);
    }
    forall c | 0 <= c < |list'| ensures Holds(chains'[c], c, |list'|, tags, contents[tags[h] := h]) {
      PushedHolds(chains[c], c, |list|, tags, contents, h);
    }
  }

  lemma MovedOne(list: seq<Option<Handle>>, chains: seq<seq<Handle>>, nextHash: map<Handle, Option<Handle>>,
                 tags: map<Handle, Tag>, contents: map<Tag, Handle>, i: nat, j: nat,
                 newList: seq<Option<Handle>>, newChains: seq<seq<Handle>>, done: map<Tag, Handle>, h: Handle)
    requires Moving(list, chains, nextHash, tags, contents, i, j, newList, newChains, done)
    requires i < |chains| && j < |chains[i]| && h == chains[i][j] && h in tags && |newList| > 0
    ensures var b := BucketOf(tags[h].hash, |newList|);
      && |newList| == |newChains|
      && Moving(list, chains, nextHash[h := newList[b]], tags, contents, i, j + 1, newList[b := Some(h)],
                newChains[b := [h] + newChains[b]], done[tags[h] := h])
  {
    NextToMove(list, chains, nextHash, tags, contents, i, j, newList, newChains, done);
    var b := BucketOf(tags[h].hash, |newList|);
    var nextHash' := nextHash[h := newList[b]];
    PushedBuckets(newList, newChains, nextHash, tags, done, h);
    NewBucketCount(newList, newChains, nextHash, tags, done);
    hide Buckets, BucketOf, Chained, Holds, MovedUpTo;
    RestStaysChained(list, chains, nextHash, tags, contents, i, j, h, nextHash');
    OnlyOneMoved(list, chains, tags, contents, i, j, done, h);
  }

  /** The chains that are still to be moved do not meet the handle that was. */
  lemma RestStaysChained(list: seq<Option<Handle>>, chains: seq<seq<Handle>>, nextHash: map<Handle, Option<Handle>>,
                         tags: map<Handle, Tag>, contents: map<Tag, Handle>, i: nat, j: nat, h: Handle,
                         nextHash': map<Handle, Option<Handle>>)
    requires |list| == |chains| > 0 && i < |chains| && j < |chains[i]| && h == chains[i][j]
    requires forall c :: i < c < |chains| ==> Chained(list[c], chains[c], nextHash)
    requires Chained(FrontOf(chains[i][j..]), chains[i][j..], nextHash)
    requires forall c :: 0 <= c < |chains| ==> Holds(chains[c], c, |list|, tags, contents)
    requires forall x :: x in nextHash && x != h ==> x in nextHash' && nextHash'[x] == nextHash[x]
    ensures forall c :: i < c < |chains| ==> Chained(list[c], chains[c], nextHash')
    ensures Chained(FrontOf(chains[i][j + 1..]), chains[i][j + 1..], nextHash')
  {
    hide BucketOf;
    assert Holds(chains[i], i, |list|, tags, contents) && h in chains[i];
    forall c | i < c < |chains| ensures Chained(list[c], chains[c], nextHash') {
      assert Holds(chains[c], c, |list|, tags, contents);
      SameChain(list[c], chains[c], nextHash, nextHash');
    }
    hide Chained;
    RestIsChained(chains[i], j, nextHash, nextHash', h);
  }

  lemma RestIsChained(chain: seq<Handle>, j: nat, nextHash: map<Handle, Option<Handle>>, nextHash': map<Handle,
                      Option<Handle>>,
                      h: Handle)
    requires j < |chain| && chain[j] == h && Chained(FrontOf(chain[j..]), chain[j..], nextHash)
    requires forall a, b :: 0 <= a < b < |chain| ==> chain[a] != chain[b]
    requires forall x :: x in nextHash && x != h ==> x in nextHash' && nextHash'[x] == nextHash[x]
    ensures Chained(FrontOf(chain[j + 1..]), chain[j + 1..], nextHash')
  {
    var before, rest := chain[j..], chain[j + 1..];
    forall k | 0 <= k < |rest|
      ensures rest[k] in nextHash'
      ensures nextHash'[rest[k]] == if k + 1 < |rest| then Some(rest[k + 1]) else None
    {
      assert rest[k] == before[k + 1] == chain[j + 1 + k] && rest[k] != h;
      LinkAt(FrontOf(before), before, nextHash, k + 1);
      assert k + 1 < |rest| ==> rest[k + 1] == before[k + 2];
    }
    assert forall k :: 0 <= k < |rest| ==> nextHash'[rest[k]] == if k + 1 < |rest| then Some(rest[k + 1]) else None;
    assert Chained(FrontOf(rest), rest, nextHash');
  }

  lemma OnlyOneMoved(list: seq<Option<Handle>>, chains: seq<seq<Handle>>, tags: map<Handle, Tag>, contents: map<Tag,
                     Handle>,
                     i: nat, j: nat, done: map<Tag, Handle>, h: Handle)
    requires |list| == |chains| > 0 && i < |chains| && j < |chains[i]| && h == chains[i][j] && h in tags
    requires forall c :: 0 <= c < |chains| ==> Holds(chains[c], c, |list|, tags, contents)
    requires MovedUpTo(chains, tags, done, i, j)
    ensures MovedUpTo(chains, tags, done[tags[h] := h], i, j + 1)
  {
    hide BucketOf;
    assert Holds(chains[i], i, |list|, tags, contents) && h in chains[i];
    forall c, k | 0 <= c < |chains| && 0 <= k < |chains[c]| && chains[c][k] in tags
      ensures tags[chains[c][k]] in done[tags[h] := h] <==> c < i || (c == i && k < j + 1)
    {
      assert Holds(chains[c], c, |list|, tags, contents) && chains[c][k] in chains[c];
    }
  }

  lemma BucketMoved(list: seq<Option<Handle>>, chains: seq<seq<Handle>>, nextHash: map<Handle, Option<Handle>>,
                    tags: map<Handle, Tag>, contents: map<Tag, Handle>, i: nat,
                    newList: seq<Option<Handle>>, newChains: seq<seq<Handle>>, done: map<Tag, Handle>)
    requires i < |chains| && Moving(list, chains, nextHash, tags, contents, i, |chains[i]|, newList, newChains, done)
    ensures Moving(list, chains, nextHash, tags, contents, i + 1, 0, newList, newChains, done)
  {
    hide Buckets, Holds, BucketOf;
    if i + 1 < |chains| {
      assert chains[i + 1][0..] == chains[i + 1];
      assert Chained(list[i + 1], chains[i + 1], nextHash);
    }
  }

  lemma AllMoved(list: seq<Option<Handle>>, chains: seq<seq<Handle>>, nextHash: map<Handle, Option<Handle>>,
                 tags: map<Handle, Tag>, contents: map<Tag, Handle>,
                 newList: seq<Option<Handle>>, newChains: seq<seq<Handle>>, done: map<Tag, Handle>)
    requires Moving(list, chains, nextHash, tags, contents, |list|, 0, newList, newChains, done)
    ensures Buckets(newList, newChains, nextHash, tags, contents)
  {
    hide Buckets, Holds, BucketOf, Chained;
    forall t | t in contents ensures t in done {
      var c := BucketOf(t.hash, |list|);
      var k :| 0 <= k < |chains[c]| && chains[c][k] == contents[t];
    }
    assert done == contents;
  }
}
