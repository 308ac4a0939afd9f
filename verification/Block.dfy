/** Blocks of a table: prefix-compressed entries, restart points, and a cursor over them. */
module Blocks {
  import opened Keys
  import opened Coding
  import opened Seqs

  /** An entry and how much of its key it shares with the key before it. */
  datatype Item = Item(shared: nat, key: Bytes, value: Bytes)

  function ItemBytes(e: Item): (r: Bytes)
    requires e.shared <= |e.key|
    ensures |r| >= 3 + |e.key| - e.shared + |e.value|
  {
    Varint(e.shared) + Varint(|e.key| - e.shared) + Varint(|e.value|) + e.key[e.shared..] + e.value
  }

  ghost predicate WellShared(items: seq<Item>) {
    && (forall i :: 0 <= i < |items| ==> items[i].shared <= |items[i].key| && Sized(items[i]))
    && (items != [] ==> items[0].shared == 0)
    && forall i :: 0 < i < |items| ==> SharesWith(items[i], items[i - 1].key)
  }

  predicate Sized(e: Item) {
    |e.key| + |e.value| < TWO_TO_32
  }

  predicate SharesWith(e: Item, before: Bytes) {
    e.shared <= |before| && e.shared <= |e.key| && e.key[..e.shared] == before[..e.shared]
  }

  /** The entries' bytes one after another. */
  ghost function Buffer(items: seq<Item>): (r: Bytes)
    requires WellShared(items)
    ensures |r| >= 3 * |items|
  {
    if items == [] then [] else
      var n := |items| - 1;
      FrontIsWellShared(items, n);
      Buffer(items[..n]) + ItemBytes(items[n])
  }

  lemma FrontIsWellShared(items: seq<Item>, n: nat)
    requires WellShared(items) && n <= |items|
    ensures WellShared(items[..n])
  {
  }

  /** Where entry i starts. */
  ghost function Offset(items: seq<Item>, i: nat): (r: nat)
    requires WellShared(items) && i <= |items|
  {
    FrontIsWellShared(items, i);
    |Buffer(items[..i])|
  }

  /** Restart points, by entry: the first entry, and later ones that share nothing. */
  ghost predicate GoodStarts(items: seq<Item>, starts: seq<nat>) {
    && starts != [] && starts[0] == 0
    && (forall j, k :: 0 <= j < k < |starts| ==> starts[j] < starts[k])
    && (forall j :: 0 < j < |starts| ==> starts[j] < |items|)
    && (forall j :: 0 <= j < |starts| && starts[j] < |items| ==> items[starts[j]].shared == 0)
  }

  function FixedAll(numbers: seq<nat>): (r: Bytes)
    ensures |r| == 4 * |numbers|
  {
    if numbers == [] then [] else FixedAll(numbers[..|numbers| - 1]) + Fixed(numbers[|numbers| - 1], 4)
  }

  ghost function Offsets(items: seq<Item>, starts: seq<nat>): (r: seq<nat>)
    requires WellShared(items) && forall j :: 0 <= j < |starts| ==> starts[j] <= |items|
    ensures |r| == |starts| && forall j :: 0 <= j < |r| ==> r[j] == Offset(items, starts[j])
  {
    if starts == [] then [] else
      var n := |starts| - 1;
      Offsets(items, starts[..n]) + [Offset(items, starts[n])]
  }

  ghost function BlockBytes(items: seq<Item>, starts: seq<nat>): Bytes
    requires WellShared(items) && GoodStarts(items, starts)
  {
    Buffer(items) + FixedAll(Offsets(items, starts)) + Fixed(|starts|, 4)
  }

  /** A finished block whose offsets fit in 32 bits. */
  ghost predicate IsBlock(data: Bytes, items: seq<Item>, starts: seq<nat>) {
    WellShared(items) && GoodStarts(items, starts) && data == BlockBytes(items, starts) && |data| < TWO_TO_32
  }

  // ---------------------------------------------------------------------------- the layout

  lemma {:induction false} BufferPrefix(items: seq<Item>, i: nat)
    requires WellShared(items) && i <= |items|
    ensures Offset(items, i) <= |Buffer(items)| && Buffer(items)[..Offset(items, i)] == Buffer(items[..i])
  {
    hide ItemBytes, WellShared;
    if i == |items| {
      assert items[..i] == items;
    } else {
      var n := |items| - 1;
      FrontIsWellShared(items, n);
      FrontIsWellShared(items, i);
      BufferPrefix(items[..n], i);
      assert items[..n][..i] == items[..i];
    }
  }

  /** Entry i lies between its offset and the next. */
  lemma ItemLies(items: seq<Item>, i: nat)
    requires WellShared(items) && i < |items|
    ensures Offset(items, i) + |ItemBytes(items[i])| == Offset(items, i + 1) <= |Buffer(items)|
    ensures Buffer(items)[Offset(items, i)..Offset(items, i + 1)] == ItemBytes(items[i])
  {
    hide ItemBytes;
    FrontIsWellShared(items, i + 1);
    BufferPrefix(items, i + 1);
    assert items[..i + 1][..i] == items[..i];
    FrontIsWellShared(items, i);
    var front := Buffer(items)[..Offset(items, i + 1)];
    assert front[Offset(items, i)..] == ItemBytes(items[i]);
  }

  lemma {:induction false} OffsetsGrow(items: seq<Item>, i: nat, j: nat)
    requires WellShared(items) && i <= j <= |items|
    ensures Offset(items, i) + 3 * (j - i) <= Offset(items, j) <= |Buffer(items)|
  {
    hide ItemBytes;
    if i < j {
      OffsetsGrow(items, i, j - 1);
      ItemLies(items, j - 1);
    } else {
      BufferPrefix(items, i);
    }
  }

  lemma OffsetEnds(items: seq<Item>)
    requires WellShared(items)
    ensures Offset(items, 0) == 0 && Offset(items, |items|) == |Buffer(items)|
  {
    assert items[..|items|] == items;
  }

  lemma {:induction false} FixedAllAt(numbers: seq<nat>, j: nat)
    requires j < |numbers|
    ensures FixedAll(numbers)[4 * j..4 * j + 4] == Fixed(numbers[j], 4)
  {
    hide Fixed;
    var n := |numbers| - 1;
    if j < n {
      FixedAllAt(numbers[..n], j);
      assert FixedAll(numbers)[4 * j..4 * j + 4] == FixedAll(numbers[..n])[4 * j..4 * j + 4];
    }
  }

  /** Where the parts of a block lie. */
  lemma BlockParts(data: Bytes, items: seq<Item>, starts: seq<nat>)
    requires IsBlock(data, items, starts)
    ensures |data| == |Buffer(items)| + 4 * |starts| + 4 && data[..|Buffer(items)|] == Buffer(items)
    ensures FixedValue(data[|data| - 4..]) == |starts|
  {
    hide Buffer, Fixed, FixedValue, FixedAll, WellShared, GoodStarts;
    assert data[|data| - 4..] == Fixed(|starts|, 4);
    Fixed32RoundTrip(|starts|);
  }

  lemma RestartStored(data: Bytes, items: seq<Item>, starts: seq<nat>, j: nat)
    requires IsBlock(data, items, starts) && j < |starts|
    ensures starts[j] <= |items|
    ensures var at := |Buffer(items)| + 4 * j;
      at + 4 <= |data| && FixedValue(data[at..at + 4]) == Offset(items, starts[j])
  {
    hide Buffer, Fixed, FixedValue, FixedAll, WellShared;
    var at, offsets := |Buffer(items)| + 4 * j, Offsets(items, starts);
    assert data[at..at + 4] == FixedAll(offsets)[4 * j..4 * j + 4];
    FixedAllAt(offsets, j);
    assert offsets[j] == Offset(items, starts[j]);
    OffsetsGrow(items, starts[j], |items|);
    Fixed32RoundTrip(offsets[j]);
  }

  // -------------------------------------------------------------------------- one entry

  /** A number as 32 bits hold it. */
  function Word(v: nat): (r: nat)
    ensures v < TWO_TO_32 ==> r == v
  {
    v % TWO_TO_32
  }

  function TwoLengths(s: Bytes): (r: Option<(nat, nat, nat)>)
    ensures r.Some? ==> r.value.2 <= |s|
  {
    match ReadVarint(s, 5)
    case None => None
    case Some((a, i)) =>
      match ReadVarint(s[i..], 5)
      case None => None
      case Some((b, j)) => Some((a, b, i + j))
  }

  /** The three lengths in front of an entry, and the bytes they take. */
  function Header(s: Bytes): Option<(nat, nat, nat, nat)> {
    if |s| < 3 then None else
      match TwoLengths(s)
      case None => None
      case Some((a, b, i)) =>
        match ReadVarint(s[i..], 5)
        case None => None
        case Some((c, k)) =>
          if |s| - (i + k) < Word(Word(b) + Word(c)) then None else Some((Word(a), Word(b), Word(c), i + k))
  }

  lemma OneByte(s: Bytes)
    requires s != [] && s[0] < 128
    ensures ReadVarint(s, 5) == Some((s[0], 1))
  {
  }

  /** Decodes the lengths; three one-byte lengths need no loop. */
  method DecodeEntry(s: Bytes) returns (r: Option<(nat, nat, nat, nat)>)
    ensures r == Header(s)
  {
    hide ReadVarint;
    if |s| < 3 {
      return None;
    }
    var shared, rest, length, after := s[0] as nat, s[1] as nat, s[2] as nat, 3;
    if shared < 128 && rest < 128 && length < 128 {
      OneByte(s);
      OneByte(s[1..]);
      OneByte(s[2..]);
    } else {
      var a, s1 := GetVarint(s, 5, TWO_TO_32);
      if a.None? { return None; }
      var b, s2 := GetVarint(s1, 5, TWO_TO_32);
      if b.None? { return None; }
      var c, s3 := GetVarint(s2, 5, TWO_TO_32);
      if c.None? { return None; }
      shared, rest, length, after := a.value, b.value, c.value, |s| - |s3|;
    }
    if |s| - after < Word(rest + length) {
      return None;
    }
    return Some((shared, rest, length, after));
  }

  lemma TwoVarints(x: nat, y: nat, last: Bytes)
    requires x < TWO_TO_32 && y < TWO_TO_32
    ensures TwoLengths(Varint(x) + (Varint(y) + last)) == Some((x, y, |Varint(x)| + |Varint(y)|))
  {
    hide Varint, ReadVarint, Power128;
    Power128Values();
    var a := Varint(x);
    assert (a + (Varint(y) + last))[|a|..] == Varint(y) + last;
    VarintRoundTrip(x, Varint(y) + last, 5);
    VarintRoundTrip(y, last, 5);
  }

  lemma ThreeVarints(x: nat, y: nat, z: nat, last: Bytes)
    requires x < TWO_TO_32 && y + z < TWO_TO_32 && y + z <= |last|
    ensures Header(Varint(x) + (Varint(y) + (Varint(z) + last)))
         == Some((x, y, z, |Varint(x)| + |Varint(y)| + |Varint(z)|))
  {
    hide Varint, ReadVarint, Power128, TwoLengths, Word;
    Power128Values();
    var a, b, c := Varint(x), Varint(y), Varint(z);
    var s := a + (b + (c + last));
    assert s[|a| + |b|..] == c + last;
    TwoVarints(x, y, c + last);
    VarintRoundTrip(z, last, 5);
  }

  /** Where the key's rest starts within an entry. */
  function KeyStart(e: Item): (r: nat)
    requires e.shared <= |e.key|
    ensures r + |e.key| - e.shared + |e.value| == |ItemBytes(e)|
  {
    |Varint(e.shared)| + |Varint(|e.key| - e.shared)| + |Varint(|e.value|)|
  }

  lemma ItemParts(e: Item)
    requires e.shared <= |e.key|
    ensures ItemBytes(e)[KeyStart(e)..|ItemBytes(e)| - |e.value|] == e.key[e.shared..]
    ensures ItemBytes(e)[|ItemBytes(e)| - |e.value|..] == e.value
  {
    hide Varint;
    MiddleSlice(Varint(e.shared) + Varint(|e.key| - e.shared) + Varint(|e.value|), e.key[e.shared..], e.value, 0,
                |e.key| - e.shared);
  }

  lemma HeaderRoundTrip(e: Item, rest: Bytes)
    requires e.shared <= |e.key| && Sized(e)
    ensures Header(ItemBytes(e) + rest) == Some((e.shared, |e.key| - e.shared, |e.value|, KeyStart(e)))
  {
    hide Varint, Header;
    var a, b, c := Varint(e.shared), Varint(|e.key| - e.shared), Varint(|e.value|);
    var last := e.key[e.shared..] + e.value + rest;
    assert ItemBytes(e) + rest == a + (b + (c + last));
    ThreeVarints(e.shared, |e.key| - e.shared, |e.value|, last);
  }

  // ------------------------------------------------------------------------- the builder

  lemma BufferGrows(items: seq<Item>, e: Item)
    requires e.shared <= |e.key| && WellShared(items) && WellShared(items + [e])
    ensures Buffer(items + [e]) == Buffer(items) + ItemBytes(e)
    ensures forall i :: 0 <= i <= |items| ==> Offset(items + [e], i) == Offset(items, i)
  {
    hide ItemBytes;
    assert (items + [e])[..|items|] == items;
    forall i | 0 <= i <= |items| ensures Offset(items + [e], i) == Offset(items, i) {
      assert (items + [e])[..i] == items[..i];
    }
  }

  lemma SharedGrows(items: seq<Item>, e: Item)
    requires WellShared(items) && Sized(e)
    requires e.shared <= |e.key| && SharesWith(e, LastKey(items))
    ensures WellShared(items + [e])
  {
  }

  function LastKey(items: seq<Item>): Bytes {
    if items == [] then [] else items[|items| - 1].key
  }

  /** The restart points after an entry is added: it is one if the interval is used up. */
  ghost predicate Spaced(items: seq<Item>, starts: seq<nat>, interval: nat, counter: nat) {
    && GoodStarts(items, starts) && counter <= interval
    && starts[|starts| - 1] + counter == |items|
    && forall j :: 0 < j < |starts| ==> starts[j] == starts[j - 1] + interval
  }

  lemma SpacedGrows(items: seq<Item>, starts: seq<nat>, interval: nat, counter: nat, e: Item)
    requires Spaced(items, starts, interval, counter) && interval > 0
    requires (items == [] || counter == interval) ==> e.shared == 0
    ensures counter < interval ==> Spaced(items + [e], starts, interval, counter + 1)
    ensures counter == interval ==> Spaced(items + [e], starts + [|items|], interval, 1)
  {
  }

  lemma EmptyBuffer()
    ensures WellShared([]) && Buffer([]) == [] && Offset([], 0) == 0
  {
    hide ItemBytes;
  }

  lemma NoItems(interval: nat)
    ensures WellShared([]) && Spaced([], [0], interval, 0) && Offsets([], [0]) == [0] && Buffer([]) == []
  {
    hide Buffer, WellShared, Offset;
    EmptyBuffer();
    var starts: seq<nat> := [0];
    assert Offsets([], starts[..0]) == [];
  }

  class BlockBuilder {
    const interval: nat
    var buffer: Bytes
    var restarts: seq<nat>
    var counter: nat
    var lastKey: Bytes
    var finished: bool
    ghost var items: seq<Item>
    ghost var starts: seq<nat>

    ghost predicate Valid()
      reads this
    {
      && interval > 0 && WellShared(items) && Spaced(items, starts, interval, counter)
      && restarts == Offsets(items, starts) && lastKey == LastKey(items)
      && buffer == if finished then BlockBytes(items, starts) else Buffer(items)
    }

    constructor (interval: nat)
      requires interval >= 1
      ensures Valid() && this.interval == interval && items == [] && !finished
    {
      this.interval := interval;
      hide WellShared, Spaced, Buffer, Offsets;
      buffer, restarts, counter, lastKey, finished := [], [0], 0, [], false;
      items, starts := [], [0];
      NoItems(interval);
    }

    method Reset()
      requires Valid()
      modifies this
      ensures Valid() && items == [] && !finished
    {
      hide WellShared, Spaced, Buffer, Offsets;
      buffer, restarts, counter, lastKey, finished := [], [0], 0, [], false;
      items, starts := [], [0];
      NoItems(interval);
    }

    function CurrentSizeEstimate(): nat
      reads this
    {
      |buffer| + |restarts| * 4 + 4
    }

    /** How much the key shares with the last one, byte by byte. */
    method SharedPrefix(key: Bytes) returns (shared: nat)
      ensures shared <= |lastKey| && shared <= |key| && key[..shared] == lastKey[..shared]
      ensures shared < |lastKey| && shared < |key| ==> key[shared] != lastKey[shared]
    {
      var n := if |lastKey| < |key| then |lastKey| else |key|;
      shared := 0;
      while shared < n && lastKey[shared] == key[shared]
        invariant shared <= n && key[..shared] == lastKey[..shared]
      {
        shared := shared + 1;
      }
    }

    method Append(e: Item)
      requires SharesWith(e, lastKey)
      modifies `buffer, `lastKey, `counter
      ensures buffer == old(buffer) + ItemBytes(e) && lastKey == e.key && counter == old(counter) + 1
    {
      hide Varint;
      buffer := buffer + Varint(e.shared) + Varint(|e.key| - e.shared) + Varint(|e.value|);
      buffer := buffer + e.key[e.shared..] + e.value;
      lastKey := lastKey[..e.shared] + e.key[e.shared..];
      counter := counter + 1;
    }

    /** Adds an entry: compressed against the last key, or whole at every interval-th entry. */
    method Add(key: Bytes, value: Bytes)
      requires Valid() && !finished && |key| + |value| < TWO_TO_32
      modifies this
      ensures Valid() && !finished && |items| == |old(items)| + 1
      ensures var e := items[|old(items)|];
        && items == old(items) + [e] && e.key == key && e.value == value
        && (if old(counter) < interval
            then e.shared < |key| && e.shared < |old(lastKey)| ==> key[e.shared] != old(lastKey)[e.shared]
            else e.shared == 0)
      ensures starts == if old(counter) < interval then old(starts) else old(starts) + [|old(items)|]
    {
      hide WellShared, Spaced, Buffer, ItemBytes, Offset, Offsets, LastKey, BlockBytes;
      ghost var items0, starts0, counter0 := items, starts, counter;
      SpacedFacts();
      var shared := 0;
      if counter < interval {
        shared := SharedPrefix(key);
      } else {
        restarts := restarts + [|buffer|];
        counter := 0;
      }
      var e := Item(shared, key, value);
      Append(e);
      items := items + [e];
      starts := if counter0 < interval then starts else starts + [|items0|];
      SharedGrows(items0, e);
      BufferGrows(items0, e);
      LastKeyIs(items0, e);
      SpacedGrows(items0, starts0, interval, counter0, e);
      if counter0 < interval {
        OffsetsKept(items0, starts0, e);
      } else {
        OneOffsetMore(items0, starts0, e);
      }
    }

    lemma SpacedFacts()
      requires Valid()
      ensures counter <= interval && (items == [] ==> lastKey == [])
      ensures forall j :: 0 <= j < |starts| ==> starts[j] <= |items|
    {
    }

    /** The restart array and its length come last. */
    method Finish() returns (r: Bytes)
      requires Valid() && !finished
      modifies this
      ensures Valid() && finished && items == old(items) && starts == old(starts)
      ensures r == BlockBytes(items, starts) && |r| == old(CurrentSizeEstimate())
      ensures |r| < TWO_TO_32 ==> IsBlock(r, items, starts)
    {
      hide WellShared, GoodStarts, Buffer, Fixed, Offset;
      ghost var data := buffer;
      assert restarts[..0] == [];
      for i := 0 to |restarts|
        invariant restarts == old(restarts) && buffer == data + FixedAll(restarts[..i])
        invariant items == old(items) && starts == old(starts) && !finished
        invariant lastKey == old(lastKey) && counter == old(counter)
      {
        assert restarts[..i + 1][..i] == restarts[..i];
        buffer := buffer + Fixed(restarts[i], 4);
      }
      assert restarts[..|restarts|] == restarts;
      buffer := buffer + Fixed(|restarts|, 4);
      finished := true;
      r := buffer;
    }
  }

  lemma LastKeyIs(items: seq<Item>, e: Item)
    ensures LastKey(items + [e]) == e.key
  {
  }

  lemma {:induction false} OffsetsKept(items: seq<Item>, starts: seq<nat>, e: Item)
    requires e.shared <= |e.key| && WellShared(items) && WellShared(items + [e])
    requires forall j :: 0 <= j < |starts| ==> starts[j] <= |items|
    ensures Offsets(items + [e], starts) == Offsets(items, starts)
  {
    hide WellShared, Buffer, ItemBytes, Offset;
    if starts != [] {
      var n := |starts| - 1;
      OffsetsKept(items, starts[..n], e);
      OffsetKept(items, starts[n], e);
    }
  }

  lemma OffsetKept(items: seq<Item>, i: nat, e: Item)
    requires e.shared <= |e.key| && WellShared(items) && WellShared(items + [e]) && i <= |items|
    ensures Offset(items + [e], i) == Offset(items, i)
  {
    BufferGrows(items, e);
    hide *;
  }

  lemma OneOffsetMore(items: seq<Item>, starts: seq<nat>, e: Item)
    requires e.shared <= |e.key| && WellShared(items) && WellShared(items + [e])
    requires forall j :: 0 <= j < |starts| ==> starts[j] <= |items|
    ensures Offsets(items + [e], starts + [|items|]) == Offsets(items, starts) + [|Buffer(items)|]
  {
    OffsetEnds(items);
    hide WellShared, Buffer, ItemBytes, Offset;
    OffsetsKept(items, starts, e);
    OffsetKept(items, |items|, e);
    assert (starts + [|items|])[..|starts|] == starts;
  }

  // ------------------------------------------------------------------------- the iterator

  lemma BufferIsInBlock(data: Bytes, items: seq<Item>, starts: seq<nat>)
    requires IsBlock(data, items, starts)
    ensures WellShared(items) && GoodStarts(items, starts)
    ensures |Buffer(items)| <= |data| && data[..|Buffer(items)|] == Buffer(items)
  {
    BlockParts(data, items, starts);
    hide *;
  }

  /** Entry p of a block: where it lies, and what its bytes are. */
  lemma EntryLies(data: Bytes, items: seq<Item>, starts: seq<nat>, p: nat)
    requires IsBlock(data, items, starts) && p < |items|
    ensures WellShared(items) && items[p].shared <= |items[p].key| && Sized(items[p])
    ensures var at, next, restarts, b := Offset(items, p), Offset(items, p + 1), |Buffer(items)|, ItemBytes(items[p]);
      && at < at + |b| == next <= restarts <= |data|
      && data[at..restarts] == b + data[next..restarts] && data[at..next] == b
  {
    hide IsBlock;
    BufferIsInBlock(data, items, starts);
    ItemFits(items, p);
    hide *;
    ItemLies(items, p);
    SliceInTwo(data, |Buffer(items)|, Offset(items, p), Offset(items, p + 1), Buffer(items), ItemBytes(items[p]));
  }

  /** Entry p of a block, as the iterator decodes it. */
  lemma EntryHere(data: Bytes, items: seq<Item>, starts: seq<nat>, p: nat)
    requires IsBlock(data, items, starts) && p < |items|
    ensures WellShared(items) && items[p].shared <= |items[p].key|
    ensures var e, at, next, restarts := items[p], Offset(items, p), Offset(items, p + 1), |Buffer(items)|;
      && at < next <= restarts <= |data| && at + KeyStart(e) + |e.key| - e.shared + |e.value| == next
      && Header(data[at..restarts]) == Some((e.shared, |e.key| - e.shared, |e.value|, KeyStart(e)))
      && data[at + KeyStart(e)..next - |e.value|] == e.key[e.shared..]
      && data[next - |e.value|..next] == e.value
  {
    hide *;
    EntryLies(data, items, starts, p);
    var e, at, next := items[p], Offset(items, p), Offset(items, p + 1);
    HeaderRoundTrip(e, data[next..|Buffer(items)|]);
    ItemParts(e);
    var b := ItemBytes(e);
    SliceWithin(data, at, b, KeyStart(e), |b| - |e.value|);
    SliceWithin(data, at, b, |b| - |e.value|, |b|);
  }

  lemma ItemFits(items: seq<Item>, p: nat)
    requires WellShared(items) && p < |items|
    ensures items[p].shared <= |items[p].key| && Sized(items[p]) && |ItemBytes(items[p])| >= 3
  {
  }

  lemma SliceInTwo(data: Bytes, restarts: nat, at: nat, next: nat, buffer: Bytes, b: Bytes)
    requires at <= next <= restarts <= |data| && data[..restarts] == buffer && buffer[at..next] == b
    ensures data[at..restarts] == b + data[next..restarts]
    ensures data[at..next] == b
  {
    assert data[at..next] == data[..restarts][at..next];
  }

  lemma SliceWithin(data: Bytes, at: nat, b: Bytes, i: nat, j: nat)
    requires at + |b| <= |data| && data[at..at + |b|] == b && i <= j <= |b|
    ensures data[at + i..at + j] == b[i..j]
  {
    forall k | 0 <= k < j - i ensures data[at + i..at + j][k] == b[i..j][k] {
      assert data[at..at + |b|][i + k] == b[i + k];
    }
  }

  ghost predicate InRestart(starts: seq<nat>, r: nat, p: nat) {
    r < |starts| && starts[r] <= p && (r + 1 < |starts| ==> p <= starts[r + 1])
  }

  class BlockIter {
    const before: (Bytes, Bytes) -> bool
    const data: Bytes
    const restarts: nat
    const numRestarts: nat
    var current: nat
    var restartIndex: nat
    var key: Bytes
    var valueStart: nat
    var valueLength: nat
    ghost const items: seq<Item>
    ghost const starts: seq<nat>
    ghost var pos: nat

    /** The iterator is over a finished block. */
    ghost predicate Opened() {
      IsBlock(data, items, starts) && restarts == |Buffer(items)| && numRestarts == |starts|
    }

    ghost predicate OnItem(p: nat)
      requires WellShared(items) && p < |items|
      reads this
    {
      && current == Offset(items, p) && key == items[p].key
      && valueStart + valueLength == Offset(items, p + 1) <= |data|
      && data[valueStart..valueStart + valueLength] == items[p].value
      && InRestart(starts, restartIndex, p)
    }

    /** The position is an entry, or the number of entries if there is none. */
    ghost predicate Valid()
      reads this
    {
      && Opened() && pos <= |items|
      && (if pos < |items| then OnItem(pos) else current == restarts)
    }

    /** The next entry to be parsed is p. */
    ghost predicate Ready(p: nat)
      reads this
    {
      && Opened() && p <= |items| && valueStart + valueLength == Offset(items, p)
      && (p < |items| ==> SharesWith(items[p], key))
      && restartIndex < |starts| && starts[restartIndex] <= p
    }

    constructor (before: (Bytes, Bytes) -> bool, data: Bytes, ghost items: seq<Item>, ghost starts: seq<nat>)
      requires IsBlock(data, items, starts)
      ensures Valid() && pos == |items| && this.before == before && this.data == data
      ensures this.items == items && this.starts == starts
    {
      this.before, this.data, this.items, this.starts := before, data, items, starts;
      BlockParts(data, items, starts);
      var n := FixedValue(data[|data| - 4..]);
      numRestarts := n;
      restarts := |data| - (1 + n) * 4;
      current, restartIndex, key, valueStart, valueLength, pos := |data| - (1 + n) * 4, n, [], 0, 0, |items|;
    }

    method GetRestartPoint(index: nat) returns (at: nat)
      requires Opened() && index < numRestarts
      ensures starts[index] <= |items| && at == Offset(items, starts[index])
    {
      hide WellShared, GoodStarts, Buffer, FixedValue;
      RestartStored(data, items, starts, index);
      at := FixedValue(data[restarts + index * 4..restarts + index * 4 + 4]);
    }

    method SeekToRestartPoint(index: nat)
      requires Opened() && index < numRestarts
      modifies this
      ensures starts[index] <= |items| && Ready(starts[index]) && restartIndex == index
    {
      hide Buffer, Offset, IsBlock;
      StartsShareNothing(index);
      key := [];
      restartIndex := index;
      valueStart := GetRestartPoint(index);
      valueLength := 0;
    }

    lemma StartsShareNothing(index: nat)
      requires Opened() && index < numRestarts
      ensures starts[index] <= |items| && (starts[index] < |items| ==> SharesWith(items[starts[index]], []))
    {
    }

    /** Moves restartIndex up to the restart before p. */
    method AdvanceRestartIndex(ghost p: nat)
      requires Opened() && p < |items| && current == Offset(items, p)
      requires restartIndex < |starts| && starts[restartIndex] <= p
      modifies `restartIndex
      ensures InRestart(starts, restartIndex, p)
    {
      hide Buffer, Offset, IsBlock;
      while restartIndex + 1 < numRestarts
        invariant restartIndex < |starts| && starts[restartIndex] <= p
        decreases numRestarts - restartIndex
      {
        var at := GetRestartPoint(restartIndex + 1);
        OffsetsOrdered(starts[restartIndex + 1], p);
        if at >= current {
          break;
        }
        restartIndex := restartIndex + 1;
      }
    }

    lemma OffsetsOrdered(i: nat, j: nat)
      requires Opened() && i <= |items| && j <= |items|
      ensures Offset(items, i) < Offset(items, j) <==> i < j
      ensures Offset(items, i) <= restarts && (Offset(items, i) == restarts <==> i == |items|)
    {
      hide Buffer, GoodStarts;
      if i <= j {
        OffsetsGrow(items, i, j);
      } else {
        OffsetsGrow(items, j, i);
      }
      OffsetsGrow(items, i, |items|);
      OffsetEnds(items);
    }

    /** Parses the entry behind the current value; at the end of the entries there is none. */
    method ParseNextKey(ghost p: nat) returns (ok: bool)
      requires Ready(p)
      modifies this
      ensures Valid() && pos == p && ok == (p < |items|)
    {
      hide Buffer, Offset, IsBlock, Header, InRestart, KeyStart, WellShared;
      BufferIsInBlock(data, items, starts);
      OffsetsOrdered(p, p);
      pos := p;
      current := valueStart + valueLength;
      if current >= restarts {
        current := restarts;
        restartIndex := numRestarts;
        return false;
      }
      EntryHere(data, items, starts, p);
      var r := DecodeEntry(data[current..restarts]);
      var (shared, nonShared, length, after) := r.value;
      assert shared <= |key|;
      ghost var e := items[p];
      assert current + after + nonShared == Offset(items, p + 1) - length;
      key := key[..shared] + data[current + after..current + after + nonShared];
      assert key == e.key[..e.shared] + e.key[e.shared..];
      valueStart, valueLength := current + after + nonShared, length;
      AdvanceRestartIndex(p);
      return true;
    }

    lemma ValidFacts()
      requires Valid() && pos < |items|
      ensures WellShared(items) && OnItem(pos) && Ready(pos + 1)
    {
      hide Buffer, Offset, BlockBytes;
    }

    lemma KeyIsThere()
      requires Valid() && pos < |items|
      ensures key == items[pos].key
    {
      hide Buffer, Offset, BlockBytes;
    }

    method Next()
      requires Valid() && pos < |items|
      modifies this
      ensures Valid() && pos == old(pos) + 1
    {
      hide Valid, Ready;
      ValidFacts();
      var _ := ParseNextKey(pos + 1);
    }

    /** Scans back to a restart point before the entry, then forward to the entry before it. */
    method Prev()
      requires Valid() && pos < |items|
      modifies this
      ensures Valid() && pos == if old(pos) == 0 then |items| else old(pos) - 1
    {
      hide Buffer, Offset, IsBlock, BlockBytes, Ready;
      BufferIsInBlock(data, items, starts);
      ghost var p := pos;
      var original := current;
      var at := GetRestartPoint(restartIndex);
      OffsetsOrdered(starts[restartIndex], p);
      while at >= original
        invariant restartIndex < |starts| && starts[restartIndex] <= |items|
        invariant at == Offset(items, starts[restartIndex])
        invariant at >= original <==> starts[restartIndex] >= p
        decreases restartIndex
      {
        if restartIndex == 0 {
          current := restarts;
          restartIndex := numRestarts;
          pos := |items|;
          return;
        }
        restartIndex := restartIndex - 1;
        at := GetRestartPoint(restartIndex);
        OffsetsOrdered(starts[restartIndex], p);
      }
      SeekToRestartPoint(restartIndex);
      ScanTo(starts[restartIndex], p, original);
    }

    /** Parses entries until one ends where `end` starts, or the entries do. */
    method ScanTo(ghost from: nat, ghost p: nat, end: nat)
      requires Ready(from) && p <= |items| && (from < p || items == []) && WellShared(items) && end == Offset(items, p)
      modifies this
      ensures Valid() && pos == if items == [] then 0 else p - 1
    {
      hide Buffer, Offset, IsBlock, BlockBytes, Ready;
      var more := ParseNextKey(from);
      if more {
        OffsetsOrdered(pos + 1, p);
      }
      while more && valueStart + valueLength < end
        invariant Valid() && more == (items != []) && (items == [] ==> pos == 0)
        invariant more ==> pos < p && valueStart + valueLength == Offset(items, pos + 1)
        invariant more ==> (valueStart + valueLength < end <==> pos + 1 < p)
        decreases p - pos
      {
        ValidFacts();
        more := ParseNextKey(pos + 1);
        OffsetsOrdered(pos + 1, p);
      }
    }

    method SeekToFirst()
      requires Opened()
      modifies this
      ensures Valid() && pos == 0
    {
      hide Buffer, Offset, IsBlock, BlockBytes, Ready;
      BufferIsInBlock(data, items, starts);
      SeekToRestartPoint(0);
      var _ := ParseNextKey(0);
    }

    method SeekToLast()
      requires Opened()
      modifies this
      ensures Valid() && pos == if items == [] then 0 else |items| - 1
    {
      hide Buffer, Offset, IsBlock, BlockBytes, Ready;
      BufferIsInBlock(data, items, starts);
      SeekToRestartPoint(numRestarts - 1);
      OffsetEnds(items);
      ScanTo(starts[numRestarts - 1], |items|, restarts);
    }

    /** The key at a restart point, which shares nothing. */
    method RestartKey(index: nat) returns (k: Bytes)
      requires Opened() && 0 < index < numRestarts
      ensures starts[index] < |items| && k == items[starts[index]].key
    {
      hide Buffer, Offset, BlockBytes, Header, KeyStart;
      BufferIsInBlock(data, items, starts);
      StartsShareNothing(index);
      var at := GetRestartPoint(index);
      EntryHere(data, items, starts, starts[index]);
      var r := DecodeEntry(data[at..restarts]);
      var (shared, nonShared, _, after) := r.value;
      k := data[at + after..at + after + nonShared];
    }

    ghost predicate Ordered() {
      && (forall a, b, c :: before(a, b) && before(b, c) ==> before(a, c))
      && forall i, j :: 0 <= i < j < |items| ==> before(items[i].key, items[j].key)
    }

    /** All entries up to a restart point whose key is before the target are before it. */
    lemma BeforeRestart(index: nat, target: Bytes)
      requires Ordered() && index < |starts| && starts[index] < |items| && before(items[starts[index]].key, target)
      ensures forall i :: 0 <= i < starts[index] ==> before(items[i].key, target)
    {
    }

    /** The last restart point whose key is before the target, or the first one. */
    method FindRestart(target: Bytes) returns (left: nat)
      requires Opened() && Ordered()
      ensures left < |starts| && (left > 0 ==> starts[left] < |items| && before(items[starts[left]].key, target))
      ensures left + 1 < |starts| ==> starts[left + 1] < |items| && !before(items[starts[left + 1]].key, target)
    {
      hide Buffer, BlockBytes, Ordered;
      BufferIsInBlock(data, items, starts);
      var right := numRestarts - 1;
      left := 0;
      while left < right
        invariant left <= right < |starts|
        invariant left > 0 ==> starts[left] < |items| && before(items[starts[left]].key, target)
        invariant right + 1 < |starts| ==> starts[right + 1] < |items| && !before(items[starts[right + 1]].key, target)
      {
        var mid := (left + right + 1) / 2;
        var midKey := RestartKey(mid);
        if before(midKey, target) {
          left := mid;
        } else {
          right := mid - 1;
        }
      }
    }

    /** Binary search over the restart points, then a scan that stays within one restart interval. */
    method Seek(target: Bytes)
      requires Opened() && Ordered()
      modifies this
      ensures Valid()
      ensures forall i :: 0 <= i < pos ==> before(items[i].key, target)
      ensures pos < |items| ==> !before(items[pos].key, target)
    {
      hide Buffer, Offset, BlockBytes, Ready, IsBlock, Valid, OnItem, Ordered;
      BufferIsInBlock(data, items, starts);
      var left := FindRestart(target);
      if left > 0 {
        BeforeRestart(left, target);
      }
      SeekToRestartPoint(left);
      ghost var from := starts[left];
      var more := ParseNextKey(from);
      if more { KeyIsThere(); }
      while more && before(key, target)
        invariant Valid() && more == (pos < |items|) && from <= pos <= |items| && (more ==> key == items[pos].key)
        invariant forall i :: 0 <= i < pos ==> before(items[i].key, target)
        invariant left + 1 < |starts| ==> pos <= starts[left + 1]
        decreases |items| - pos
      {
        assert left + 1 < |starts| ==> pos < starts[left + 1];
        ValidFacts();
        more := ParseNextKey(pos + 1);
        if more { KeyIsThere(); }
      }
    }
  }

  /** What a fresh iterator over a finished block visits, first to last. */
  method ReadBack(before: (Bytes, Bytes) -> bool, data: Bytes, ghost items: seq<Item>, ghost starts: seq<nat>)
    returns (read: seq<(Bytes, Bytes)>)
    requires IsBlock(data, items, starts)
    ensures |read| == |items| && forall i :: 0 <= i < |read| ==> read[i] == (items[i].key, items[i].value)
  {
    hide Buffer, Offset, IsBlock, BlockBytes, WellShared, InRestart;
    var iter := new BlockIter(before, data, items, starts);
    BufferIsInBlock(data, items, starts);
    read := [];
    iter.SeekToFirst();
    while iter.current < iter.restarts
      invariant iter.Valid() && iter.items == items && iter.starts == starts && iter.data == data
      invariant iter.pos == |read| && forall i :: 0 <= i < |read| ==> read[i] == (items[i].key, items[i].value)
      decreases |items| - iter.pos
    {
      iter.OffsetsOrdered(iter.pos, iter.pos);
      read := read + [(iter.key, data[iter.valueStart..iter.valueStart + iter.valueLength])];
      iter.Next();
    }
    iter.OffsetsOrdered(iter.pos, iter.pos);
  }
}
