/** Bloom filters, and the filter block that holds one for every two kilobytes of table. */
module Filters {
  import opened Coding
  import Seqs

  // ----------------------------------------------------------------------------- bits

  function Power2(n: nat): (r: nat)
    ensures r > 0
  {
    if n == 0 then 1 else 2 * Power2(n - 1)
  }

  predicate BitSet(b: nat, i: nat) {
    if i == 0 then b % 2 == 1 else BitSet(b / 2, i - 1)
  }

  /** b | (1 << i) */
  function WithBit(b: nat, i: nat): nat {
    if i == 0 then b / 2 * 2 + 1 else 2 * WithBit(b / 2, i - 1) + b % 2
  }

  lemma {:induction false} WithBitSets(b: nat, i: nat, j: nat)
    ensures BitSet(WithBit(b, i), j) <==> j == i || BitSet(b, j)
  {
    if i > 0 {
      assert WithBit(b, i) / 2 == WithBit(b / 2, i - 1) && WithBit(b, i) % 2 == b % 2;
      if j > 0 {
        WithBitSets(b / 2, i - 1, j - 1);
      }
    } else if j > 0 {
      assert WithBit(b, i) / 2 == b / 2;
    }
  }

  lemma {:induction false} WithBitFits(b: nat, i: nat, n: nat)
    requires b < Power2(n) && i < n
    ensures WithBit(b, i) < Power2(n)
  {
    if i > 0 {
      WithBitFits(b / 2, i - 1, n - 1);
    }
  }

  // ---------------------------------------------------------------------- bloom filters

  /** The filter policy: bits for each key and the hash of a key. */
  datatype Policy = Policy(bitsPerKey: nat, hash: Bytes -> nat) {
    /** Number of probes: about bitsPerKey * 0.69, from 1 to 30. */
    function K(): (k: nat)
      ensures bitsPerKey < 3 ==> k == 1
      ensures 3 <= bitsPerKey < 44 ==> 100 * k <= 69 * bitsPerKey < 100 * (k + 1)
      ensures bitsPerKey >= 44 ==> k == 30
    {
      var k := bitsPerKey * 69 / 100;
      if k < 1 then 1 else if k > 30 then 30 else k
    }

    function Hash(key: Bytes): nat {
      hash(key) % TWO_TO_32
    }
  }

  /** The hash rotated right by 17 bits. */
  function Delta(h: nat): nat {
    (h / 0x2_0000 + h * 0x8000) % TWO_TO_32
  }

  /** Its low 17 bits come to stand in front of the other 15. */
  lemma DeltaRotates(high: nat, low: nat)
    requires high < 0x8000 && low < 0x2_0000
    ensures Delta(high * 0x2_0000 + low) == low * 0x8000 + high
  {
    assert (high * 0x2_0000 + low) * 0x8000 == high * TWO_TO_32 + low * 0x8000;
  }

  /** The j-th of a sequence of hash values. */
  function ProbeHash(h: nat, j: nat): nat {
    if j == 0 then h else (ProbeHash(h, j - 1) + Delta(h)) % TWO_TO_32
  }

  /** Probes lie one delta apart. */
  lemma {:induction false} ProbesAreSpaced(h: nat, j: nat)
    requires h < TWO_TO_32
    ensures ProbeHash(h, j) == SpacedFrom(h, j, Delta(h))
  {
    hide Delta;
    if j > 0 {
      ProbesAreSpaced(h, j - 1);
      OneStepFurther(h, j - 1, Delta(h));
    }
  }

  ghost function SpacedFrom(h: nat, j: nat, d: nat): nat {
    (h + j * d) % TWO_TO_32
  }

  lemma OneStepFurther(h: nat, j: nat, d: nat)
    ensures (SpacedFrom(h, j, d) + d) % TWO_TO_32 == SpacedFrom(h, j + 1, d)
  {
    var product := j * d;
    assert (j + 1) * d == product + d;
    AddAfterRemainder(h + product, d);
  }

  lemma AddAfterRemainder(a: nat, d: nat)
    ensures (a % TWO_TO_32 + d) % TWO_TO_32 == (a + d) % TWO_TO_32
  {
  }

  predicate BitAt(cells: Bytes, bit: nat)
    requires bit < 8 * |cells|
  {
    BitSet(cells[bit / 8], bit % 8)
  }

  /** The first k probes of a hash all find their bit set. */
  ghost predicate Probed(cells: Bytes, h: nat, k: nat)
    requires |cells| > 0
  {
    forall j :: 0 <= j < k ==> BitAt(cells, ProbeHash(h, j) % (8 * |cells|))
  }

  /** What a filter answers for a key. */
  ghost predicate MayMatch(policy: Policy, key: Bytes, filter: Bytes) {
    && |filter| >= 2
    && (filter[|filter| - 1] > 30 || Probed(filter[..|filter| - 1], policy.Hash(key), filter[|filter| - 1]))
  }

  method SetBit(cells: array<Byte>, bit: nat)
    requires bit < 8 * cells.Length
    modifies cells
    ensures forall b :: 0 <= b < 8 * cells.Length ==> (BitAt(cells[..], b) <==> b == bit || old(BitAt(cells[..], b)))
  {
    assert Power2(8) == 256 by { assert Power2(4) == 16; }
    WithBitFits(cells[bit / 8], bit % 8, 8);
    ghost var before := cells[..];
    cells[bit / 8] := WithBit(cells[bit / 8], bit % 8);
    forall b | 0 <= b < 8 * cells.Length ensures BitAt(cells[..], b) <==> b == bit || BitAt(before, b) {
      WithBitSets(before[bit / 8], bit % 8, b % 8);
    }
  }

  /** The j-th of a key's probes in a filter of so many bits. */
  function Probe(policy: Policy, key: Bytes, j: nat, bits: nat): (b: nat)
    requires bits > 0
    ensures b < bits
  {
    ProbeHash(policy.Hash(key), j) % bits
  }

  /** One of the first k probes of a key is at this bit. */
  ghost predicate ProbesBit(policy: Policy, key: Bytes, k: nat, bits: nat, b: nat)
    requires bits > 0
  {
    exists j :: 0 <= j < k && Probe(policy, key, j, bits) == b
  }

  /** Some key probes this bit. */
  ghost predicate ProbedBit(policy: Policy, keys: seq<Bytes>, bits: nat, b: nat)
    requires bits > 0
  {
    exists i :: 0 <= i < |keys| && ProbesBit(policy, keys[i], policy.K(), bits, b)
  }

  /** The filter of these keys: the least number of bytes for the bits that they are due, and
      no fewer than eight, with just the bits set that a key probes; then the number of probes. */
  ghost predicate IsFilter(policy: Policy, keys: seq<Bytes>, filter: Bytes) {
    && |filter| >= 9
    && var bytes := |filter| - 1;
    && |keys| * policy.bitsPerKey <= 8 * bytes && (bytes > 8 ==> 8 * (bytes - 1) < |keys| * policy.bitsPerKey)
    && filter[bytes] == policy.K()
    && forall b :: 0 <= b < 8 * bytes ==> (BitAt(filter[..bytes], b) <==> ProbedBit(policy, keys, 8 * bytes, b))
  }

  /** Every bit that a key probes is probed by one of the given keys. */
  ghost predicate AllProbed(policy: Policy, keys: seq<Bytes>, bits: nat, key: Bytes)
    requires bits > 0
  {
    forall j :: 0 <= j < policy.K() ==> ProbedBit(policy, keys, bits, Probe(policy, key, j, bits))
  }

  /** A filter matches just the keys that probe no other bits than its own keys do. */
  lemma MatchesExactly(policy: Policy, keys: seq<Bytes>, filter: Bytes, key: Bytes)
    requires IsFilter(policy, keys, filter)
    ensures MayMatch(policy, key, filter) <==> AllProbed(policy, keys, 8 * (|filter| - 1), key)
  {
    var bytes := |filter| - 1;
    var cells, h := filter[..bytes], policy.Hash(key);
    hide ProbedBit, BitAt, ProbeHash;
    forall j | 0 <= j < policy.K()
      ensures BitAt(cells, ProbeHash(h, j) % (8 * |cells|)) <==>
        ProbedBit(policy, keys, 8 * bytes, Probe(policy, key, j, 8 * bytes))
    {
      assert Probe(policy, key, j, 8 * bytes) == ProbeHash(h, j) % (8 * |cells|);
    }
  }

  /** In particular it matches those. */
  lemma OwnKeysProbed(policy: Policy, keys: seq<Bytes>, bits: nat, key: Bytes)
    requires bits > 0 && key in keys
    ensures AllProbed(policy, keys, bits, key)
  {
    var i :| 0 <= i < |keys| && keys[i] == key;
    forall j | 0 <= j < policy.K() ensures ProbedBit(policy, keys, bits, Probe(policy, key, j, bits)) {
      assert ProbesBit(policy, keys[i], policy.K(), bits, Probe(policy, key, j, bits));
    }
  }

  /** The size of the filter of these keys. */
  ghost function FilterBits(policy: Policy, keys: seq<Bytes>): (bits: nat)
    ensures bits > 0
  {
    var due := |keys| * policy.bitsPerKey;
    8 * (if due <= 64 then 8 else (due + 7) / 8)
  }

  lemma LeastBits(policy: Policy, keys: seq<Bytes>, filter: Bytes)
    requires IsFilter(policy, keys, filter)
    ensures FilterBits(policy, keys) == 8 * (|filter| - 1)
  {
    LeastMultiple(|keys| * policy.bitsPerKey, |filter| - 1);
  }

  lemma LeastMultiple(due: nat, bytes: nat)
    requires bytes >= 8 && due <= 8 * bytes && (bytes > 8 ==> 8 * (bytes - 1) < due)
    ensures bytes == if due <= 64 then 8 else (due + 7) / 8
  {
  }

  /** Sets the bits of one key; other bits stay. */
  method AddKeyBits(policy: Policy, key: Bytes, cells: array<Byte>)
    requires cells.Length > 0
    modifies cells
    ensures forall b :: 0 <= b < 8 * cells.Length ==>
      (BitAt(cells[..], b) <==> old(BitAt(cells[..], b)) || ProbesBit(policy, key, policy.K(), 8 * cells.Length, b))
  {
    var h0 := policy.Hash(key);
    var h := h0;
    ghost var before := cells[..];
    for j := 0 to policy.K()
      invariant h == ProbeHash(h0, j)
      invariant forall b :: 0 <= b < 8 * cells.Length ==>
        (BitAt(cells[..], b) <==> BitAt(before, b) || ProbesBit(policy, key, j, 8 * cells.Length, b))
    {
      ghost var now := cells[..];
      SetBit(cells, h % (8 * cells.Length));
      forall b | 0 <= b < 8 * cells.Length
        ensures BitAt(cells[..], b) <==> BitAt(before, b) || ProbesBit(policy, key, j + 1, 8 * cells.Length, b)
      {
        OneProbeMore(policy, key, j, 8 * cells.Length, b);
        assert BitAt(now, b) <==> BitAt(before, b) || ProbesBit(policy, key, j, 8 * cells.Length, b);
      }
      h := (h + Delta(h0)) % TWO_TO_32;
    }
  }

  lemma OneProbeMore(policy: Policy, key: Bytes, k: nat, bits: nat, b: nat)
    requires bits > 0
    ensures ProbesBit(policy, key, k + 1, bits, b) <==>
      ProbesBit(policy, key, k, bits, b) || Probe(policy, key, k, bits) == b
  {
    hide Probe;
  }

  lemma OneKeyMore(policy: Policy, keys: seq<Bytes>, i: nat, bits: nat, b: nat)
    requires i < |keys| && bits > 0
    ensures ProbedBit(policy, keys[..i + 1], bits, b) <==>
      ProbedBit(policy, keys[..i], bits, b) || ProbesBit(policy, keys[i], policy.K(), bits, b)
  {
    hide ProbesBit;
    var more := keys[..i + 1];
    assert more == keys[..i] + [keys[i]];
    if ProbesBit(policy, keys[i], policy.K(), bits, b) {
      assert more[i] == keys[i];
    }
    if ProbedBit(policy, keys[..i], bits, b) {
      var k :| 0 <= k < i && ProbesBit(policy, keys[..i][k], policy.K(), bits, b);
      assert more[k] == keys[..i][k];
    }
  }

  lemma NoBits(bytes: nat, b: nat)
    requires b < 8 * bytes
    ensures !BitAt(seq(bytes, _ => 0), b)
  {
    NoBitInZero(b % 8);
  }

  lemma {:induction false} NoBitInZero(i: nat)
    ensures !BitSet(0, i)
  {
    if i > 0 {
      NoBitInZero(i - 1);
    }
  }

  /** Appends the filter of the keys. */
  method CreateFilter(policy: Policy, keys: seq<Bytes>, dst: Bytes) returns (r: Bytes)
    ensures |dst| <= |r| && r[..|dst|] == dst && IsFilter(policy, keys, r[|dst|..])
  {
    hide BitAt, ProbedBit, ProbesBit;
    var bits := |keys| * policy.bitsPerKey;
    if bits < 64 {
      bits := 64;
    }
    var bytes := (bits + 7) / 8;
    var cells := new Byte[bytes](_ => 0);
    assert cells[..] == seq(bytes, _ => 0);
    forall b | 0 <= b < 8 * bytes ensures !BitAt(cells[..], b) && !ProbedBit(policy, keys[..0], 8 * bytes, b) {
      NoBits(bytes, b);
      NoKeys(policy, keys, 8 * bytes, b);
    }
    for i := 0 to |keys|
      invariant forall b :: 0 <= b < 8 * bytes ==> (BitAt(cells[..], b) <==> ProbedBit(policy, keys[..i], 8 * bytes, b))
    {
      ghost var before := cells[..];
      AddKeyBits(policy, keys[i], cells);
      forall b | 0 <= b < 8 * bytes ensures BitAt(cells[..], b) <==> ProbedBit(policy, keys[..i + 1], 8 * bytes, b) {
        OneKeyMore(policy, keys, i, 8 * bytes, b);
        assert BitAt(before, b) <==> ProbedBit(policy, keys[..i], 8 * bytes, b);
      }
    }
    assert keys[..|keys|] == keys;
    r := dst + cells[..] + [policy.K()];
    assert r[|dst|..] == cells[..] + [policy.K()];
    assert (cells[..] + [policy.K()])[..bytes] == cells[..];
  }

  lemma NoKeys(policy: Policy, keys: seq<Bytes>, bits: nat, b: nat)
    requires bits > 0
    ensures !ProbedBit(policy, keys[..0], bits, b)
  {
  }

  method KeyMayMatch(policy: Policy, key: Bytes, filter: Bytes) returns (r: bool)
    ensures r <==> MayMatch(policy, key, filter)
  {
    var len := |filter|;
    if len < 2 {
      return false;
    }
    var cells, bits, k := filter[..len - 1], (len - 1) * 8, filter[len - 1];
    if k > 30 {
      return true;
    }
    var h := policy.Hash(key);
    var delta := Delta(h);
    ghost var h0 := h;
    for j := 0 to k
      invariant h == ProbeHash(h0, j) && Probed(cells, h0, j)
    {
      if !BitAt(cells, h % bits) {
        return false;
      }
      h := (h + delta) % TWO_TO_32;
    }
    return true;
  }

  // ------------------------------------------------------------------- the filter block

  const FILTER_BASE_LG: Byte := 11
  const FILTER_BASE: nat := 2048

  ghost function Limit(offsets: seq<nat>, result: Bytes, i: nat): nat {
    if i + 1 < |offsets| then offsets[i + 1] else |result|
  }

  class FilterBlockBuilder {
    const policy: Policy
    var keys: seq<Bytes>
    var result: Bytes
    var filterOffsets: seq<nat>
    ghost var groups: seq<seq<Bytes>>  // the keys behind each finished filter

    ghost predicate Valid()
      reads this
    {
      Finished(policy, groups, filterOffsets, result)
    }

    constructor (policy: Policy)
      ensures Valid() && this.policy == policy && keys == [] && groups == []
    {
      this.policy := policy;
      keys, result, filterOffsets, groups := [], [], [], [];
    }

    method AddKey(key: Bytes)
      requires Valid()
      modifies this
      ensures Valid() && keys == old(keys) + [key] && groups == old(groups)
    {
      keys := keys + [key];
    }

    method GenerateFilter()
      requires Valid()
      modifies this
      ensures Valid() && groups == old(groups) + [old(keys)] && keys == []
    {
      hide IsFilter;
      ghost var more := groups + [keys];
      if |keys| == 0 {
        FilterAdded(policy, groups, filterOffsets, result, [], result);
        filterOffsets := filterOffsets + [|result|];
      } else {
        var start := |result|;
        var longer := CreateFilter(policy, keys, result);
        FilterAdded(policy, groups, filterOffsets, result, keys, longer);
        filterOffsets, result := filterOffsets + [start], longer;
      }
      groups, keys := more, [];
    }

    /** Finishes the filters of all the two-kilobyte ranges before this block's. */
    method StartBlock(blockOffset: nat)
      requires Valid() && blockOffset / FILTER_BASE >= |groups|
      modifies this
      ensures Valid() && |groups| == blockOffset / FILTER_BASE
      ensures if blockOffset / FILTER_BASE == |old(groups)| then groups == old(groups) && keys == old(keys)
              else old(groups) + [old(keys)] <= groups && keys == []
      // Ranges in which no block starts have no keys.
      ensures forall g :: |old(groups)| < g < |groups| ==> groups[g] == []
    {
      var filterIndex := blockOffset / FILTER_BASE;
      while filterIndex > |filterOffsets|
        invariant Valid() && |groups| <= filterIndex
        invariant groups == old(groups) ==> keys == old(keys)
        invariant groups != old(groups) ==> old(groups) + [old(keys)] <= groups && keys == []
        invariant forall g :: |old(groups)| < g < |groups| ==> groups[g] == []
        decreases filterIndex - |filterOffsets|
      {
        GenerateFilter();
      }
    }

    method Finish() returns (contents: Bytes)
      requires Valid()
      modifies this
      ensures groups == (if old(keys) == [] then old(groups) else old(groups) + [old(keys)])
      ensures |contents| < TWO_TO_32 ==> Matches(policy, groups, contents)
    {
      hide Finished, Words, Fixed;
      if keys != [] {
        GenerateFilter();
      }
      assert Words([]) == [] by { NoWords(); }
      var arrayOffset := |result|;
      contents := result;
      for i := 0 to |filterOffsets|
        modifies {}
        invariant contents == result + Words(filterOffsets[..i])
      {
        WordsGrow(filterOffsets[..i], filterOffsets[i]);
        assert filterOffsets[..i + 1] == filterOffsets[..i] + [filterOffsets[i]];
        contents := contents + Fixed(filterOffsets[i], 4);
      }
      assert filterOffsets[..|filterOffsets|] == filterOffsets;
      WordsGrow(filterOffsets, arrayOffset);
      contents := contents + Fixed(arrayOffset, 4) + [FILTER_BASE_LG];
      assert contents == result + Words(filterOffsets + [arrayOffset]) + [FILTER_BASE_LG];
      if |contents| < TWO_TO_32 {
        FinishedMatches(policy, groups, filterOffsets, result, contents);
      }
    }
  }

  /** Filter i is the bytes of `result` from its offset to the next: the filter of its keys, or
      nothing if it has none. */
  ghost predicate Finished(policy: Policy, groups: seq<seq<Bytes>>, offsets: seq<nat>, result: Bytes) {
    && |groups| == |offsets|
    && (forall i :: 0 <= i < |offsets| ==> offsets[i] <= Limit(offsets, result, i) <= |result|)
    && forall i :: 0 <= i < |groups| ==> FilterOf(policy, groups[i], Slice(offsets, result, i))
  }

  ghost predicate FilterOf(policy: Policy, keys: seq<Bytes>, filter: Bytes) {
    if keys == [] then filter == [] else IsFilter(policy, keys, filter)
  }

  ghost function Slice(offsets: seq<nat>, result: Bytes, i: nat): Bytes
    requires i < |offsets|
  {
    if offsets[i] <= Limit(offsets, result, i) <= |result| then result[offsets[i]..Limit(offsets, result, i)] else []
  }

  lemma SliceOfBlock(offsets: seq<nat>, result: Bytes, contents: Bytes, i: nat)
    requires i < |offsets| && offsets[i] <= Limit(offsets, result, i) <= |result|
    requires |result| <= |contents| && contents[..|result|] == result
    ensures contents[offsets[i]..Limit(offsets, result, i)] == Slice(offsets, result, i)
  {
    Seqs.TakeSlice(contents, |result|, offsets[i], Limit(offsets, result, i));
  }

  lemma FilterAdded(policy: Policy, groups: seq<seq<Bytes>>, offsets: seq<nat>, result: Bytes, keys: seq<Bytes>,
                    longer: Bytes)
    requires Finished(policy, groups, offsets, result)
    requires |result| <= |longer| && longer[..|result|] == result
    requires FilterOf(policy, keys, longer[|result|..])
    ensures Finished(policy, groups + [keys], offsets + [|result|], longer)
  {
    hide FilterOf;
    var groups', offsets' := groups + [keys], offsets + [|result|];
    forall i | 0 <= i < |offsets| ensures Limit(offsets', longer, i) == Limit(offsets, result, i) {
    }
    forall i | 0 <= i < |groups'|
      ensures offsets'[i] <= Limit(offsets', longer, i) <= |longer|
      ensures FilterOf(policy, groups'[i], Slice(offsets', longer, i))
    {
      if i < |groups| {
        Seqs.TakeSlice(longer, |result|, offsets[i], Limit(offsets, result, i));
        assert Slice(offsets', longer, i) == Slice(offsets, result, i);
      } else {
        assert longer[|result|..|longer|] == longer[|result|..];
      }
    }
  }

  ghost function Words(ns: seq<nat>): Bytes {
    if ns == [] then [] else Words(ns[..|ns| - 1]) + Fixed(ns[|ns| - 1], 4)
  }

  lemma NoWords()
    ensures Words([]) == []
  {
  }

  lemma WordsGrow(ns: seq<nat>, n: nat)
    ensures Words(ns + [n]) == Words(ns) + Fixed(n, 4)
  {
    assert (ns + [n])[..|ns|] == ns;
  }

  lemma {:induction false} WordAt(ns: seq<nat>, i: nat)
    requires i < |ns|
    ensures |Words(ns)| == 4 * |ns| && Words(ns)[4 * i..4 * i + 4] == Fixed(ns[i], 4)
  {
    var front := ns[..|ns| - 1];
    if |ns| > 1 {
      WordAt(front, if i < |front| then i else 0);
    }
    if i < |front| {
      assert Words(ns)[4 * i..4 * i + 4] == Words(front)[4 * i..4 * i + 4];
    }
  }

  /** n >> lg */
  function ShiftRight(n: nat, lg: nat): nat {
    if lg == 0 then n else ShiftRight(n / 2, lg - 1)
  }

  lemma ShiftFour(n: nat, lg: nat)
    ensures ShiftRight(n, lg + 4) == ShiftRight(n / 16, lg)
  {
    assert ShiftRight(n, lg + 4) == ShiftRight(n / 2, lg + 3);
    assert ShiftRight(n / 2, lg + 3) == ShiftRight(n / 4, lg + 2);
    assert ShiftRight(n / 4, lg + 2) == ShiftRight(n / 8, lg + 1);
    assert ShiftRight(n / 8, lg + 1) == ShiftRight(n / 16, lg);
  }

  lemma ShiftByBase(n: nat)
    ensures ShiftRight(n, 11) == n / FILTER_BASE
  {
    ShiftFour(n, 7);
    ShiftFour(n / 16, 3);
    assert ShiftRight(n / 256, 3) == ShiftRight(n / 512, 2) == ShiftRight(n / 1024, 1) == n / 2048;
  }

  /** What a reader answers whose offsets are at `offset`, for filter number `index`. */
  ghost predicate FilterMayMatch(policy: Policy, contents: Bytes, offset: nat, index: nat, key: Bytes)
    requires offset + 4 * index + 8 < |contents|
  {
    var start := FixedValue(contents[offset + 4 * index..offset + 4 * index + 4]);
    var limit := FixedValue(contents[offset + 4 * index + 4..offset + 4 * index + 8]);
    if start <= limit <= offset then MayMatch(policy, key, contents[start..limit]) else start != limit
  }

  /** What a reader of a filter block answers for a key of the block at an offset. */
  ghost predicate BlockMayMatch(policy: Policy, contents: Bytes, blockOffset: nat, key: Bytes) {
    var n := |contents|;
    n < 5 || (
      var offset, index := FixedValue(contents[n - 5..n - 1]), ShiftRight(blockOffset, contents[n - 1]);
      offset > n - 5 || index >= (n - 5 - offset) / 4 || FilterMayMatch(policy, contents, offset, index, key))
  }

  /** The answer a filter of these keys gives. */
  ghost predicate KeysMayMatch(policy: Policy, keys: seq<Bytes>, key: Bytes) {
    keys != [] && AllProbed(policy, keys, FilterBits(policy, keys), key)
  }

  /** Each block is answered by the filter of exactly the keys of its range. */
  ghost predicate Matches(policy: Policy, groups: seq<seq<Bytes>>, contents: Bytes) {
    forall blockOffset: nat, key :: blockOffset / FILTER_BASE < |groups| ==>
      (BlockMayMatch(policy, contents, blockOffset, key) <==>
       KeysMayMatch(policy, groups[blockOffset / FILTER_BASE], key))
  }

  lemma AnswersForKeys(policy: Policy, keys: seq<Bytes>, filter: Bytes, key: Bytes)
    requires FilterOf(policy, keys, filter)
    ensures MayMatch(policy, key, filter) <==> KeysMayMatch(policy, keys, key)
  {
    if keys != [] {
      MatchesExactly(policy, keys, filter, key);
      hide *;
      LeastBits(policy, keys, filter);
    }
  }

  lemma FinishedMatches(policy: Policy, groups: seq<seq<Bytes>>, offsets: seq<nat>, result: Bytes, contents: Bytes)
    requires Finished(policy, groups, offsets, result) && |contents| < TWO_TO_32
    requires contents == result + Words(offsets + [|result|]) + [FILTER_BASE_LG]
    ensures Matches(policy, groups, contents)
  {
    hide Finished, KeysMayMatch, BlockMayMatch;
    forall blockOffset: nat, key | blockOffset / FILTER_BASE < |groups|
      ensures BlockMayMatch(policy, contents, blockOffset, key) <==>
        KeysMayMatch(policy, groups[blockOffset / FILTER_BASE], key)
    {
      GroupIsFound(policy, groups, offsets, result, contents, blockOffset, key);
    }
  }

  lemma WordSlice(front: Bytes, ns: seq<nat>, back: Bytes, i: nat)
    requires i < |ns|
    ensures |front + Words(ns) + back| == |front| + 4 * |ns| + |back|
    ensures (front + Words(ns) + back)[|front| + 4 * i..|front| + 4 * i + 4] == Fixed(ns[i], 4)
  {
    WordAt(ns, i);
    hide Words, Fixed;
    Seqs.MiddleSlice(front, Words(ns), back, 4 * i, 4 * i + 4);
  }

  /** The words after the filters: every offset, then the end of the filters. */
  lemma OffsetWord(offsets: seq<nat>, result: Bytes, contents: Bytes, i: nat, at: nat)
    requires contents == result + Words(offsets + [|result|]) + [FILTER_BASE_LG] && i <= |offsets|
    requires at == |result| + 4 * i
    ensures |contents| == |result| + 4 * |offsets| + 5 && at + 5 <= |contents|
    ensures contents[at..at + 4] == Fixed(if i < |offsets| then offsets[i] else |result|, 4)
  {
    hide Words, Fixed;
    var all := offsets + [|result|];
    assert all[i] == if i < |offsets| then offsets[i] else |result|;
    WordSlice(result, all, [FILTER_BASE_LG], i);
  }

  /** A reader takes each of those words for what was written. */
  lemma WordRead(offsets: seq<nat>, result: Bytes, contents: Bytes, i: nat, at: nat)
    requires |contents| < TWO_TO_32 && i <= |offsets| && at == |result| + 4 * i
    requires i < |offsets| ==> offsets[i] <= |result|
    requires contents == result + Words(offsets + [|result|]) + [FILTER_BASE_LG]
    ensures |contents| == |result| + 4 * |offsets| + 5 && at + 5 <= |contents|
    ensures FixedValue(contents[at..at + 4]) == if i < |offsets| then offsets[i] else |result|
  {
    hide Words, Fixed, FixedValue;
    OffsetWord(offsets, result, contents, i, at);
    Fixed32RoundTrip(if i < |offsets| then offsets[i] else |result|);
  }

  /** What those words come to. */
  lemma AnswerRead(policy: Policy, contents: Bytes, blockOffset: nat, key: Bytes, offset: nat, start: nat, limit: nat)
    requires |contents| >= offset + 4 * ShiftRight(blockOffset, FILTER_BASE_LG) + 9 && start <= limit <= offset
    requires contents[|contents| - 1] == FILTER_BASE_LG
    requires FixedValue(contents[|contents| - 5..|contents| - 1]) == offset
    requires var at := offset + 4 * ShiftRight(blockOffset, FILTER_BASE_LG);
      FixedValue(contents[at..at + 4]) == start && FixedValue(contents[at + 4..at + 8]) == limit
    ensures BlockMayMatch(policy, contents, blockOffset, key) <==> MayMatch(policy, key, contents[start..limit])
  {
    hide MayMatch, FixedValue, ShiftRight;
  }

  /** A lookup for a block is answered by the filter of its range. */
  lemma GroupIsFound(policy: Policy, groups: seq<seq<Bytes>>, offsets: seq<nat>, result: Bytes, contents: Bytes,
                     blockOffset: nat, key: Bytes)
    requires Finished(policy, groups, offsets, result) && |contents| < TWO_TO_32
    requires contents == result + Words(offsets + [|result|]) + [FILTER_BASE_LG]
    requires blockOffset / FILTER_BASE < |groups|
    ensures BlockMayMatch(policy, contents, blockOffset, key) <==>
      KeysMayMatch(policy, groups[blockOffset / FILTER_BASE], key)
  {
    hide MayMatch, FilterOf, KeysMayMatch, Words, FixedValue, ShiftRight, Slice;
    var i, at := blockOffset / FILTER_BASE, |result| + 4 * (blockOffset / FILTER_BASE);
    WordRead(offsets, result, contents, i, at);
    WordRead(offsets, result, contents, i + 1, at + 4);
    WordRead(offsets, result, contents, |offsets|, |result| + 4 * |offsets|);
    ShiftByBase(blockOffset);
    AnswersForKeys(policy, groups[i], Slice(offsets, result, i), key);
    SliceOfBlock(offsets, result, contents, i);
    AnswerRead(policy, contents, blockOffset, key, |result|, offsets[i], Limit(offsets, result, i));
  }

  class FilterBlockReader {
    const policy: Policy
    const contents: Bytes
    const baseLg: nat
    const offset: nat
    const num: nat

    ghost predicate Opened() {
      var n := |contents|;
      if n < 5 || FixedValue(contents[n - 5..n - 1]) > n - 5 then num == 0
      else baseLg == contents[n - 1] && offset == FixedValue(contents[n - 5..n - 1]) && num == (n - 5 - offset) / 4
    }

    constructor (policy: Policy, contents: Bytes)
      ensures this.policy == policy && this.contents == contents && Opened()
    {
      this.policy, this.contents := policy, contents;
      baseLg, offset, num := 0, 0, 0;
      var n := |contents|;
      if n >= 5 {
        var lastWord := FixedValue(contents[n - 5..n - 1]);
        if lastWord <= n - 5 {
          baseLg, offset, num := contents[n - 1], lastWord, (n - 5 - lastWord) / 4;
        }
      }
    }

    method BlockKeyMayMatch(blockOffset: nat, key: Bytes) returns (r: bool)
      requires Opened()
      ensures r <==> BlockMayMatch(policy, contents, blockOffset, key)
    {
      var index := ShiftRight(blockOffset, baseLg);
      if index < num {
        var start := FixedValue(contents[offset + 4 * index..offset + 4 * index + 4]);
        var limit := FixedValue(contents[offset + 4 * index + 4..offset + 4 * index + 8]);
        if start <= limit && limit <= offset {
          r := KeyMayMatch(policy, key, contents[start..limit]);
          return;
        } else if start == limit {
          return false;
        }
      }
      return true;
    }
  }
}
