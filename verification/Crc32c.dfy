/** CRC32C (section 12.1 of RFC 3720): the four interleaved strides compute what one byte
    at a time does. */
module Crc32c {
  import opened Words

  /** The Castagnoli polynomial, bit-reversed. */
  const POLYNOMIAL: Word := 0x82f63b78

  const ALL_ONES: Word := 0xffffffff

  function Feedback(bit: Word): Word {
    if bit == 1 then POLYNOMIAL else 0
  }

  /** Shifts one bit out. */
  function BitStep(l: Word): Word {
    Xor(Half(l), Feedback(Odd(l)))
  }

  function BitSteps(l: Word, n: nat): Word {
    if n == 0 then l else BitStep(BitSteps(l, n - 1))
  }

  /** What the byte table holds for a byte. */
  function ByteTable(c: Word): Word {
    BitSteps(c, 8)
  }

  /** The step that shifts out one zero byte. */
  function ZeroByte(l: Word): Word {
    Xor(ByteTable(Low(l)), Shift(l))
  }

  function ZeroBytes(l: Word, n: nat): Word {
    if n == 0 then l else ZeroByte(ZeroBytes(l, n - 1))
  }

  /** One byte of data. */
  function Step1(l: Word, b: bv8): Word {
    Xor(ByteTable(Xor(Low(l), Extended(b))), Shift(l))
  }

  function Steps(l: Word, data: seq<bv8>): Word {
    if data == [] then l else Step1(Steps(l, data[..|data| - 1]), data[|data| - 1])
  }

  /** The CRC of A followed by data, given the CRC of A. */
  function Extend(crc: Word, data: seq<bv8>): Word {
    Xor(Steps(Xor(crc, ALL_ONES), data), ALL_ONES)
  }

  // --------------------------------------------------------------------------- linearity

  lemma FeedbackIsLinear(x: Word, y: Word)
    requires (x == 0 || x == 1) && (y == 0 || y == 1)
    ensures Feedback(Xor(x, y)) == Xor(Feedback(x), Feedback(y))
  {
  }

  lemma BitStepIsLinear(a: Word, b: Word)
    ensures BitStep(Xor(a, b)) == Xor(BitStep(a), BitStep(b))
  {
    hide Feedback, Xor, Half, Odd;
    BitPartsAreLinear(a, b);
    OddIsABit(a);
    OddIsABit(b);
    FeedbackIsLinear(Odd(a), Odd(b));
    XorSwap(Half(a), Half(b), Feedback(Odd(a)), Feedback(Odd(b)));
  }

  lemma {:induction false} BitStepsAreLinear(a: Word, b: Word, n: nat)
    ensures BitSteps(Xor(a, b), n) == Xor(BitSteps(a, n), BitSteps(b, n))
  {
    hide BitStep, Xor;
    if n > 0 {
      BitStepsAreLinear(a, b, n - 1);
      BitStepIsLinear(BitSteps(a, n - 1), BitSteps(b, n - 1));
    }
  }

  lemma ZeroByteIsLinear(a: Word, b: Word)
    ensures ZeroByte(Xor(a, b)) == Xor(ZeroByte(a), ZeroByte(b))
  {
    hide BitSteps, Xor, Low, Shift;
    BytePartsAreLinear(a, b);
    BitStepsAreLinear(Low(a), Low(b), 8);
    XorSwap(ByteTable(Low(a)), ByteTable(Low(b)), Shift(a), Shift(b));
  }

  lemma {:induction false} ZeroBytesAreLinear(a: Word, b: Word, n: nat)
    ensures ZeroBytes(Xor(a, b), n) == Xor(ZeroBytes(a, n), ZeroBytes(b, n))
  {
    hide ZeroByte, Xor;
    if n > 0 {
      ZeroBytesAreLinear(a, b, n - 1);
      ZeroByteIsLinear(ZeroBytes(a, n - 1), ZeroBytes(b, n - 1));
    }
  }

  lemma {:induction false} ZeroBytesAdd(l: Word, m: nat, n: nat)
    ensures ZeroBytes(ZeroBytes(l, m), n) == ZeroBytes(l, m + n)
  {
    hide ZeroByte;
    if n > 0 {
      ZeroBytesAdd(l, m, n - 1);
    }
  }

  /** A data byte enters like a change of the state. */
  lemma StepIsZeroByte(l: Word, b: bv8)
    ensures Step1(l, b) == ZeroByte(Xor(l, Extended(b)))
  {
    hide BitSteps, Xor, Low, Shift;
    ByteEnters(l, b);
  }

  // --------------------------------------------------------------------------- the laws

  lemma {:induction false} StepsAppend(l: Word, a: seq<bv8>, b: seq<bv8>)
    ensures Steps(l, a + b) == Steps(Steps(l, a), b)
  {
    hide Step1;
    if b == [] {
      assert a + b == a;
    } else {
      StepsAppend(l, a, b[..|b| - 1]);
      assert (a + b)[..|a + b| - 1] == a + b[..|b| - 1];
    }
  }

  /** The CRC of a concatenation may be computed in parts. */
  lemma ExtendComposes(crc: Word, a: seq<bv8>, b: seq<bv8>)
    ensures Extend(Extend(crc, a), b) == Extend(crc, a + b)
  {
    hide Steps, Xor;
    var s := Steps(Xor(crc, ALL_ONES), a);
    XorAssociates(s, ALL_ONES, ALL_ONES);
    XorCancels(ALL_ONES);
    XorCancels(s);
    StepsAppend(Xor(crc, ALL_ONES), a, b);
  }

  // ------------------------------------------------------------------------ whole words

  /** The little-endian word of four bytes. */
  function ReadWord(data: seq<bv8>, i: nat): Word
    requires i + 4 <= |data|
  {
    Xor(Xor(Xor(Placed(data[i], 0), Placed(data[i + 1], 1)), Placed(data[i + 2], 2)), Placed(data[i + 3], 3))
  }

  lemma TableOfZero()
    ensures ByteTable(0) == 0
  {
    hide Xor, BitSteps;
    XorCancels(0);
    BitStepsAreLinear(0, 0, 8);
    XorCancels(ByteTable(0));
  }

  lemma PlacedByteMoves(b: bv8, place: nat)
    requires 0 < place < 4
    ensures ZeroByte(Placed(b, place)) == Placed(b, place - 1)
  {
    hide ByteTable, Xor, Low, Shift, Placed;
    PlacedShifts(b, place);
    TableOfZero();
    XorCancels(Placed(b, place - 1));
  }

  /** A byte at a place of a word enters after as many zero bytes. */
  lemma {:induction false} PlacedByteEnters(b: bv8, place: nat)
    requires place < 4
    ensures ZeroBytes(Placed(b, place), place) == Extended(b)
  {
    hide ZeroByte, Placed;
    PlacedShifts(b, place);
    if place > 0 {
      PlacedByteMoves(b, place);
      PlacedByteEnters(b, place - 1);
      ZeroBytesAdd(Placed(b, place), 1, place - 1);
      assert ZeroBytes(Placed(b, place), 1) == ZeroByte(Placed(b, place));
    }
  }

  /** One more byte after k bytes of a word. */
  lemma StepWithin(m: Word, b: bv8, k: nat)
    requires k < 4
    ensures Step1(ZeroBytes(m, k), b) == ZeroBytes(Xor(m, Placed(b, k)), k + 1)
  {
    hide Step1, ZeroByte, Xor, Placed;
    StepIsZeroByte(ZeroBytes(m, k), b);
    ZeroBytesAreLinear(m, Placed(b, k), k);
    PlacedByteEnters(b, k);
  }

  lemma StepsSnoc(l: Word, data: seq<bv8>, i: nat, j: nat)
    requires i <= j < |data|
    ensures Steps(l, data[i..j + 1]) == Step1(Steps(l, data[i..j]), data[j])
  {
    hide Step1;
    assert data[i..j + 1][..j - i] == data[i..j];
  }

  /** Four bytes are one word and four zero bytes. */
  lemma FourSteps(l: Word, data: seq<bv8>, i: nat)
    requires i + 4 <= |data|
    ensures Steps(l, data[i..i + 4]) == ZeroBytes(Xor(l, ReadWord(data, i)), 4)
  {
    var p0, p1, p2, p3 := Placed(data[i], 0), Placed(data[i + 1], 1), Placed(data[i + 2], 2), Placed(data[i + 3], 3);
    assert data[i..i] == [] && Steps(l, []) == l && ZeroBytes(l, 0) == l;
    StepsSnoc(l, data, i, i);
    StepsSnoc(l, data, i, i + 1);
    StepsSnoc(l, data, i, i + 2);
    StepsSnoc(l, data, i, i + 3);
    hide Steps, Step1, ZeroByte, ZeroBytes, Xor, Placed;
    StepWithin(l, data[i], 0);
    StepWithin(Xor(l, p0), data[i + 1], 1);
    StepWithin(Xor(Xor(l, p0), p1), data[i + 2], 2);
    StepWithin(Xor(Xor(Xor(l, p0), p1), p2), data[i + 3], 3);
    XorAssociates(l, p0, p1);
    XorAssociates(l, Xor(p0, p1), p2);
    XorAssociates(l, Xor(Xor(p0, p1), p2), p3);
  }

  // ------------------------------------------------------------------------ the strides

  /** What the stride tables hold for a byte at a place: sixteen zero bytes after it. */
  function StrideTable(place: nat, b: bv8): Word
    requires place < 4
  {
    ZeroBytes(Placed(b, place), 16)
  }

  function Stride(c: Word): Word {
    Xor(Xor(Xor(StrideTable(0, ByteAt(c, 0)), StrideTable(1, ByteAt(c, 1))), StrideTable(2, ByteAt(c, 2))),
        StrideTable(3, ByteAt(c, 3)))
  }

  lemma StrideIsSixteen(c: Word)
    ensures Stride(c) == ZeroBytes(c, 16)
  {
    hide ZeroBytes, Xor, Placed, ByteAt;
    var p0, p1 := Placed(ByteAt(c, 0), 0), Placed(ByteAt(c, 1), 1);
    var p2, p3 := Placed(ByteAt(c, 2), 2), Placed(ByteAt(c, 3), 3);
    BytesMakeWord(c);
    ZeroBytesAreLinear(p0, p1, 16);
    ZeroBytesAreLinear(Xor(p0, p1), p2, 16);
    ZeroBytesAreLinear(Xor(Xor(p0, p1), p2), p3, 16);
  }

  /** The four partial results put together. */
  function Combined(c0: Word, c1: Word, c2: Word, c3: Word): Word {
    ZeroBytes(Xor(ZeroBytes(Xor(ZeroBytes(Xor(ZeroBytes(c0, 4), c1), 4), c2), 4), c3), 4)
  }

  lemma CombinedSum(c0: Word, c1: Word, c2: Word, c3: Word)
    ensures Combined(c0, c1, c2, c3)
         == Xor(Xor(Xor(ZeroBytes(c0, 16), ZeroBytes(c1, 12)), ZeroBytes(c2, 8)), ZeroBytes(c3, 4))
  {
    hide ZeroBytes, Xor;
    var a := ZeroBytes(c0, 4);
    ZeroBytesAreLinear(a, c1, 4);
    ZeroBytesAdd(c0, 4, 4);
    var b := Xor(ZeroBytes(c0, 8), ZeroBytes(c1, 4));
    ZeroBytesAreLinear(b, c2, 4);
    ZeroBytesAreLinear(ZeroBytes(c0, 8), ZeroBytes(c1, 4), 4);
    ZeroBytesAdd(c0, 8, 4);
    ZeroBytesAdd(c1, 4, 4);
    var c := Xor(Xor(ZeroBytes(c0, 12), ZeroBytes(c1, 8)), ZeroBytes(c2, 4));
    ZeroBytesAreLinear(c, c3, 4);
    ZeroBytesAreLinear(Xor(ZeroBytes(c0, 12), ZeroBytes(c1, 8)), ZeroBytes(c2, 4), 4);
    ZeroBytesAreLinear(ZeroBytes(c0, 12), ZeroBytes(c1, 8), 4);
    ZeroBytesAdd(c0, 12, 4);
    ZeroBytesAdd(c1, 8, 4);
    ZeroBytesAdd(c2, 4, 4);
  }

  lemma CombinedIsLinear(a0: Word, a1: Word, a2: Word, a3: Word, b0: Word, b1: Word, b2: Word, b3: Word)
    ensures Combined(Xor(a0, b0), Xor(a1, b1), Xor(a2, b2), Xor(a3, b3))
         == Xor(Combined(a0, a1, a2, a3), Combined(b0, b1, b2, b3))
  {
    hide ZeroBytes, Xor, Combined;
    CombinedSum(Xor(a0, b0), Xor(a1, b1), Xor(a2, b2), Xor(a3, b3));
    CombinedSum(a0, a1, a2, a3);
    CombinedSum(b0, b1, b2, b3);
    ZeroBytesAreLinear(a0, b0, 16);
    ZeroBytesAreLinear(a1, b1, 12);
    ZeroBytesAreLinear(a2, b2, 8);
    ZeroBytesAreLinear(a3, b3, 4);
    XorSwap(ZeroBytes(a0, 16), ZeroBytes(b0, 16), ZeroBytes(a1, 12), ZeroBytes(b1, 12));
    var a, b := Xor(ZeroBytes(a0, 16), ZeroBytes(a1, 12)), Xor(ZeroBytes(b0, 16), ZeroBytes(b1, 12));
    XorSwap(a, b, ZeroBytes(a2, 8), ZeroBytes(b2, 8));
    XorSwap(Xor(a, ZeroBytes(a2, 8)), Xor(b, ZeroBytes(b2, 8)), ZeroBytes(a3, 4), ZeroBytes(b3, 4));
  }

  /** Sixteen bytes at once. */
  lemma SixteenSteps(l: Word, data: seq<bv8>, i: nat)
    requires i + 16 <= |data|
    ensures Steps(l, data[i..i + 16])
         == Combined(Xor(l, ReadWord(data, i)), ReadWord(data, i + 4), ReadWord(data, i + 8), ReadWord(data, i + 12))
  {
    hide ZeroBytes, Xor, Steps, ReadWord;
    assert data[i..i + 16] == data[i..i + 4] + data[i + 4..i + 8] + data[i + 8..i + 12] + data[i + 12..i + 16];
    StepsAppend(l, data[i..i + 4] + data[i + 4..i + 8] + data[i + 8..i + 12], data[i + 12..i + 16]);
    StepsAppend(l, data[i..i + 4] + data[i + 4..i + 8], data[i + 8..i + 12]);
    StepsAppend(l, data[i..i + 4], data[i + 4..i + 8]);
    FourSteps(l, data, i);
    FourSteps(Steps(l, data[i..i + 4]), data, i + 4);
    FourSteps(Steps(Steps(l, data[i..i + 4]), data[i + 4..i + 8]), data, i + 8);
    FourSteps(Steps(Steps(Steps(l, data[i..i + 4]), data[i + 4..i + 8]), data[i + 8..i + 12]), data, i + 12);
  }

  lemma {:induction false} ZeroStays(n: nat)
    ensures ZeroBytes(0, n) == 0
  {
    hide ZeroBytes, Xor;
    XorCancels(0);
    ZeroBytesAreLinear(0, 0, n);
    XorCancels(ZeroBytes(0, n));
  }

  /** Sixteen more bytes, one word to each stride. */
  lemma StridesAdvance(c0: Word, c1: Word, c2: Word, c3: Word, data: seq<bv8>, i: nat)
    requires i + 16 <= |data|
    ensures Combined(Xor(ReadWord(data, i), Stride(c0)), Xor(ReadWord(data, i + 4), Stride(c1)),
                     Xor(ReadWord(data, i + 8), Stride(c2)), Xor(ReadWord(data, i + 12), Stride(c3)))
         == Steps(Combined(c0, c1, c2, c3), data[i..i + 16])
  {
    hide ZeroBytes, Xor, Steps, ReadWord, Combined, Stride;
    var w0, w1, w2, w3 := ReadWord(data, i), ReadWord(data, i + 4), ReadWord(data, i + 8), ReadWord(data, i + 12);
    var l := Combined(c0, c1, c2, c3);
    StrideIsSixteen(c0);
    StrideIsSixteen(c1);
    StrideIsSixteen(c2);
    StrideIsSixteen(c3);
    CombinedIsLinear(w0, w1, w2, w3, Stride(c0), Stride(c1), Stride(c2), Stride(c3));
    SixteenSteps(l, data, i);
    XorCommutes(l, w0);
    XorCancels(w1);
    XorCancels(w2);
    XorCancels(w3);
    CombinedIsLinear(w0, w1, w2, w3, l, 0, 0, 0);
    CombinedShifts(c0, c1, c2, c3);
  }

  /** Sixteen zero bytes on each part are sixteen zero bytes on the whole. */
  lemma CombinedShifts(c0: Word, c1: Word, c2: Word, c3: Word)
    ensures Combined(ZeroBytes(c0, 16), ZeroBytes(c1, 16), ZeroBytes(c2, 16), ZeroBytes(c3, 16))
         == Combined(Combined(c0, c1, c2, c3), 0, 0, 0)
  {
    hide ZeroBytes, Xor, Combined;
    var l := Combined(c0, c1, c2, c3);
    CombinedSum(l, 0, 0, 0);
    ZeroStays(12);
    ZeroStays(8);
    ZeroStays(4);
    XorCancels(ZeroBytes(l, 16));
    CombinedSum(c0, c1, c2, c3);
    CombinedSum(ZeroBytes(c0, 16), ZeroBytes(c1, 16), ZeroBytes(c2, 16), ZeroBytes(c3, 16));
    var a, b := Xor(ZeroBytes(c0, 16), ZeroBytes(c1, 12)), Xor(Xor(ZeroBytes(c0, 16), ZeroBytes(c1, 12)),
                                                               ZeroBytes(c2, 8));
    ZeroBytesAreLinear(b, ZeroBytes(c3, 4), 16);
    ZeroBytesAreLinear(a, ZeroBytes(c2, 8), 16);
    ZeroBytesAreLinear(ZeroBytes(c0, 16), ZeroBytes(c1, 12), 16);
    ZeroBytesAdd(c0, 16, 16);
    ZeroBytesAdd(c1, 12, 16);
    ZeroBytesAdd(c1, 16, 12);
    ZeroBytesAdd(c2, 8, 16);
    ZeroBytesAdd(c2, 16, 8);
    ZeroBytesAdd(c3, 4, 16);
    ZeroBytesAdd(c3, 16, 4);
  }

  /** One more word: the strides rotate. */
  lemma StridesRotate(c0: Word, c1: Word, c2: Word, c3: Word, data: seq<bv8>, i: nat)
    requires i + 4 <= |data|
    ensures Combined(c1, c2, c3, Xor(ReadWord(data, i), Stride(c0))) == Steps(Combined(c0, c1, c2, c3), data[i..i + 4])
  {
    hide ZeroBytes, Xor, Steps, ReadWord, Combined, Stride;
    var w, l := ReadWord(data, i), Combined(c0, c1, c2, c3);
    StrideIsSixteen(c0);
    FourSteps(l, data, i);
    CombinedSum(c0, c1, c2, c3);
    CombinedSum(c1, c2, c3, Xor(w, ZeroBytes(c0, 16)));
    ZeroBytesAreLinear(w, ZeroBytes(c0, 16), 4);
    ZeroBytesAreLinear(l, w, 4);
    var a, b := Xor(ZeroBytes(c0, 16), ZeroBytes(c1, 12)), Xor(Xor(ZeroBytes(c0, 16), ZeroBytes(c1, 12)),
                                                               ZeroBytes(c2, 8));
    ZeroBytesAreLinear(b, ZeroBytes(c3, 4), 4);
    ZeroBytesAreLinear(a, ZeroBytes(c2, 8), 4);
    ZeroBytesAreLinear(ZeroBytes(c0, 16), ZeroBytes(c1, 12), 4);
    ZeroBytesAdd(c0, 16, 4);
    ZeroBytesAdd(c1, 12, 4);
    ZeroBytesAdd(c2, 8, 4);
    ZeroBytesAdd(c3, 4, 4);
    XorRotate(ZeroBytes(c0, 20), ZeroBytes(c1, 16), ZeroBytes(c2, 12), ZeroBytes(c3, 8), ZeroBytes(w, 4));
  }

  /** A byte of data shifted into the CRC. */
  method ExtendByte(l: Word, b: bv8) returns (r: Word)
    ensures r == Step1(l, b)
  {
    var c := Xor(Low(l), Extended(b));
    r := Xor(ByteTable(c), Shift(l));
  }

  /** A word, with what the strides before it left, through four steps of the byte table. */
  method ExtendWord(l: Word, word: Word) returns (r: Word)
    ensures r == ZeroBytes(Xor(word, l), 4)
  {
    hide *;
    var w := Xor(word, l);
    r := w;
    NoZeroBytes(w);
    for i := 0 to 4
      invariant r == ZeroBytes(w, i)
    {
      OneMoreZeroByte(w, i);
      r := Xor(Shift(r), ByteTable(Low(r)));
    }
  }

  lemma NoZeroBytes(w: Word)
    ensures ZeroBytes(w, 0) == w
  {
  }

  lemma OneMoreZeroByte(w: Word, i: nat)
    ensures ZeroBytes(w, i + 1) == Xor(Shift(ZeroBytes(w, i)), ByteTable(Low(ZeroBytes(w, i))))
  {
    hide Xor, Low, Shift, ByteTable;
    XorCommutes(Shift(ZeroBytes(w, i)), ByteTable(Low(ZeroBytes(w, i))));
  }

  /** What the last four steps compute, starting from nothing. */
  lemma CombinedFromNothing(c0: Word, c1: Word, c2: Word, c3: Word)
    ensures Combined(c0, c1, c2, c3)
         == ZeroBytes(Xor(c3, ZeroBytes(Xor(c2, ZeroBytes(Xor(c1, ZeroBytes(Xor(c0, 0), 4)), 4)), 4)), 4)
  {
    hide ZeroBytes, Xor;
    XorCancels(c0);
    var z0 := ZeroBytes(c0, 4);
    XorCommutes(z0, c1);
    var z1 := ZeroBytes(Xor(c1, z0), 4);
    XorCommutes(z1, c2);
    var z2 := ZeroBytes(Xor(c2, z1), 4);
    XorCommutes(z2, c3);
  }

  lemma StepsSplit(l: Word, data: seq<bv8>, i: nat, j: nat)
    requires i <= j <= |data|
    ensures Steps(Steps(l, data[..i]), data[i..j]) == Steps(l, data[..j])
  {
    hide Steps;
    assert data[..i] + data[i..j] == data[..j];
    StepsAppend(l, data[..i], data[i..j]);
  }

  lemma OneMoreStep(l: Word, data: seq<bv8>, i: nat)
    requires i < |data|
    ensures Step1(Steps(l, data[..i]), data[i]) == Steps(l, data[..i + 1])
  {
    hide Step1;
    StepsSnoc(l, data, 0, i);
    assert data[0..i] == data[..i] && data[0..i + 1] == data[..i + 1];
  }

  lemma NoSteps(l: Word, data: seq<bv8>)
    ensures Steps(l, data[..0]) == l
  {
    assert data[..0] == [];
  }

  lemma ExtendIs(crc: Word, data: seq<bv8>)
    ensures Extend(crc, data) == Xor(Steps(Xor(crc, ALL_ONES), data[..|data|]), ALL_ONES)
  {
    hide Steps, Xor;
    assert data[..|data|] == data;
  }

  /** The sixteen bytes at a position loaded into the four strides. */
  lemma StridesLoad(start: Word, l: Word, data: seq<bv8>, i: nat)
    requires i + 16 <= |data|
    requires l == Steps(start, data[..i])
    ensures Combined(Xor(ReadWord(data, i), l), ReadWord(data, i + 4), ReadWord(data, i + 8), ReadWord(data, i + 12))
         == Steps(start, data[..i + 16])
  {
    hide Steps, Xor, ReadWord, Combined;
    SixteenSteps(l, data, i);
    XorCommutes(ReadWord(data, i), l);
    StepsSplit(start, data, i, i + 16);
  }

  /** Four interleaved strides from the first aligned byte on; address is where the data starts. */
  method ExtendStrided(crc: Word, data: seq<bv8>, address: nat) returns (r: Word)
    ensures r == Extend(crc, data)
  {
    hide *;
    var p, e := 0, |data|;
    ghost var start := Xor(crc, ALL_ONES);
    var l := Xor(crc, ALL_ONES);
    NoSteps(start, data);
    var x := (4 - address % 4) % 4;
    if x <= e {
      while p != x
        invariant p <= x && l == Steps(start, data[..p])
        decreases x - p
      {
        OneMoreStep(start, data, p);
        l := ExtendByte(l, data[p]);
        p := p + 1;
      }
    }
    if e - p >= 16 {
      var c0, c1 := Xor(ReadWord(data, p), l), ReadWord(data, p + 4);
      var c2, c3 := ReadWord(data, p + 8), ReadWord(data, p + 12);
      StridesLoad(start, l, data, p);
      p := p + 16;
      while e - p >= 16
        invariant 16 <= p <= e && Combined(c0, c1, c2, c3) == Steps(start, data[..p])
      {
        StridesAdvance(c0, c1, c2, c3, data, p);
        StepsSplit(start, data, p, p + 16);
        c0 := Xor(ReadWord(data, p), Stride(c0));
        c1 := Xor(ReadWord(data, p + 4), Stride(c1));
        c2 := Xor(ReadWord(data, p + 8), Stride(c2));
        c3 := Xor(ReadWord(data, p + 12), Stride(c3));
        p := p + 16;
      }
      while e - p >= 4
        invariant 16 <= p <= e && Combined(c0, c1, c2, c3) == Steps(start, data[..p])
      {
        StridesRotate(c0, c1, c2, c3, data, p);
        StepsSplit(start, data, p, p + 4);
        c0 := Xor(ReadWord(data, p), Stride(c0));
        c0, c1, c2, c3 := c1, c2, c3, c0;
        p := p + 4;
      }
      CombinedFromNothing(c0, c1, c2, c3);
      l := 0;
      l := ExtendWord(l, c0);
      l := ExtendWord(l, c1);
      l := ExtendWord(l, c2);
      l := ExtendWord(l, c3);
    }
    while p != e
      invariant p <= e && l == Steps(start, data[..p])
      decreases e - p
    {
      OneMoreStep(start, data, p);
      l := ExtendByte(l, data[p]);
      p := p + 1;
    }
    r := Xor(l, ALL_ONES);
    ExtendIs(crc, data);
  }

  // ---------------------------------------------------------------------- the tables' values

  lemma EvenStep(l: Word)
    requires Odd(l) == 0
    ensures BitStep(l) == Half(l)
  {
    hide Xor;
    XorCancels(Half(l));
  }

  lemma NoBits(l: Word)
    ensures BitSteps(l, 0) == l
  {
  }

  lemma OneBit(l: Word, n: nat, now: Word)
    requires BitSteps(l, n) == now && Odd(now) == 0
    ensures BitSteps(l, n + 1) == Half(now)
  {
    hide BitStep, Half, Odd;
    EvenStep(now);
  }

  lemma HighSteps(l: Word)
    ensures BitSteps(High(l), 8) == Shift(l)
  {
    hide *;
    HighIsEven(l);
    var h := High(l);
    NoBits(h);
    OneBit(h, 0, h);
    OneBit(h, 1, Half(h));
    OneBit(h, 2, Half(Half(h)));
    OneBit(h, 3, Half(Half(Half(h))));
    OneBit(h, 4, Half(Half(Half(Half(h)))));
    OneBit(h, 5, Half(Half(Half(Half(Half(h))))));
    OneBit(h, 6, Half(Half(Half(Half(Half(Half(h)))))));
    OneBit(h, 7, Half(Half(Half(Half(Half(Half(Half(h))))))));
  }

  /** The byte table shifts out eight bits at once. */
  lemma ZeroByteIsEightBits(l: Word)
    ensures ZeroByte(l) == BitSteps(l, 8)
  {
    hide BitSteps, Xor, Low, High, Shift;
    LowAndHigh(l);
    BitStepsAreLinear(Low(l), High(l), 8);
    HighSteps(l);
  }

  lemma {:induction false} BitStepsAdd(l: Word, m: nat, n: nat)
    ensures BitSteps(BitSteps(l, m), n) == BitSteps(l, m + n)
  {
    hide BitStep;
    if n > 0 {
      BitStepsAdd(l, m, n - 1);
    }
  }

  lemma {:induction false} ZeroBytesAreBits(l: Word, n: nat)
    ensures ZeroBytes(l, n) == BitSteps(l, 8 * n)
  {
    hide ZeroByte, BitStep;
    if n > 0 {
      ZeroBytesAreBits(l, n - 1);
      ZeroByteIsEightBits(ZeroBytes(l, n - 1));
      BitStepsAdd(l, 8 * (n - 1), 8);
    }
  }

  lemma EightSteps(a: Word, b: Word, c: Word, d: Word, e: Word, f: Word, g: Word, h: Word, i: Word)
    requires BitStep(a) == b && BitStep(b) == c && BitStep(c) == d && BitStep(d) == e
    requires BitStep(e) == f && BitStep(f) == g && BitStep(g) == h && BitStep(h) == i
    ensures BitSteps(a, 8) == i
  {
    hide BitStep;
    NoBits(a);
    assert BitSteps(a, 1) == b;
    assert BitSteps(a, 2) == c;
    assert BitSteps(a, 3) == d;
    assert BitSteps(a, 4) == e;
    assert BitSteps(a, 5) == f;
    assert BitSteps(a, 6) == g;
    assert BitSteps(a, 7) == h;
  }

  /** The bit below another goes one step further. */
  lemma NextBitDown(n: nat, bit: Word, lower: Word, after: Word)
    requires BitStep(bit) == lower && BitSteps(bit, n) == after
    ensures BitSteps(lower, n) == BitStep(after)
  {
    hide BitStep;
    NoBits(bit);
    assert BitSteps(bit, 1) == lower;
    BitStepsAdd(bit, 1, n);
  }

  /** The byte table holds these for the single-bit bytes; the others are sums of them. */
  lemma ByteTableBasis()
    ensures ByteTable(1) == 0xf26b8303 && ByteTable(2) == 0xe13b70f7 && ByteTable(4) == 0xc79a971f
    ensures ByteTable(8) == 0x8ad958cf && ByteTable(16) == 0x105ec76f && ByteTable(32) == 0x20bd8ede
    ensures ByteTable(64) == 0x417b1dbc && ByteTable(128) == 0x82f63b78
  {
    hide BitSteps;
    EightSteps(128, 64, 32, 16, 8, 4, 2, 1, POLYNOMIAL);
    NextBitDown(8, 128, 64, 0x82f63b78);
    NextBitDown(8, 64, 32, 0x417b1dbc);
    NextBitDown(8, 32, 16, 0x20bd8ede);
    NextBitDown(8, 16, 8, 0x105ec76f);
    NextBitDown(8, 8, 4, 0x8ad958cf);
    NextBitDown(8, 4, 2, 0xc79a971f);
    NextBitDown(8, 2, 1, 0xe13b70f7);
  }

  lemma Bits0To32()
    ensures BitSteps(0x80000000, 32) == 0x82f63b78
  {
    hide BitSteps;
    EightSteps(0x80000000, 0x40000000, 0x20000000, 0x10000000, 0x08000000, 0x04000000, 0x02000000, 0x01000000,
               0x00800000);
    EightSteps(0x00800000, 0x00400000, 0x00200000, 0x00100000, 0x00080000, 0x00040000, 0x00020000, 0x00010000,
               0x00008000);
    EightSteps(0x00008000, 0x00004000, 0x00002000, 0x00001000, 0x00000800, 0x00000400, 0x00000200, 0x00000100,
               0x00000080);
    EightSteps(0x00000080, 0x00000040, 0x00000020, 0x00000010, 0x00000008, 0x00000004, 0x00000002, 0x00000001,
               0x82f63b78);
    BitStepsAdd(0x80000000, 8, 8);
    BitStepsAdd(0x80000000, 16, 8);
    BitStepsAdd(0x80000000, 24, 8);
  }

  lemma Bits32To64()
    ensures BitSteps(0x82f63b78, 32) == 0x6ea2d55c
  {
    hide BitSteps;
    EightSteps(0x82f63b78, 0x417b1dbc, 0x20bd8ede, 0x105ec76f, 0x8ad958cf, 0xc79a971f, 0xe13b70f7, 0xf26b8303,
               0xfbc3faf9);
    EightSteps(0xfbc3faf9, 0xff17c604, 0x7f8be302, 0x3fc5f181, 0x9d14c3b8, 0x4e8a61dc, 0x274530ee, 0x13a29877,
               0x8b277743);
    EightSteps(0x8b277743, 0xc76580d9, 0xe144fb14, 0x70a27d8a, 0x38513ec5, 0x9edea41a, 0x4f6f520d, 0xa541927e,
               0x52a0c93f);
    EightSteps(0x52a0c93f, 0xaba65fe7, 0xd725148b, 0xe964b13d, 0xf64463e6, 0x7b2231f3, 0xbf672381, 0xdd45aab8,
               0x6ea2d55c);
    BitStepsAdd(0x82f63b78, 8, 8);
    BitStepsAdd(0x82f63b78, 16, 8);
    BitStepsAdd(0x82f63b78, 24, 8);
  }

  lemma Bits64To96()
    ensures BitSteps(0x6ea2d55c, 32) == 0xa66805eb
  {
    hide BitSteps;
    EightSteps(0x6ea2d55c, 0x37516aae, 0x1ba8b557, 0x8f2261d3, 0xc5670b91, 0xe045beb0, 0x7022df58, 0x38116fac,
               0x1c08b7d6);
    EightSteps(0x1c08b7d6, 0x0e045beb, 0x85f4168d, 0xc00c303e, 0x6006181f, 0xb2f53777, 0xdb8ca0c3, 0xef306b19,
               0xf56e0ef4);
    EightSteps(0xf56e0ef4, 0x7ab7077a, 0x3d5b83bd, 0x9c5bfaa6, 0x4e2dfd53, 0xa5e0c5d1, 0xd0065990, 0x68032cc8,
               0x34019664);
    EightSteps(0x34019664, 0x1a00cb32, 0x0d006599, 0x847609b4, 0x423b04da, 0x211d826d, 0x9278fa4e, 0x493c7d27,
               0xa66805eb);
    BitStepsAdd(0x6ea2d55c, 8, 8);
    BitStepsAdd(0x6ea2d55c, 16, 8);
    BitStepsAdd(0x6ea2d55c, 24, 8);
  }

  lemma Bits96To128()
    ensures BitSteps(0xa66805eb, 32) == 0x18b8ea18
  {
    hide BitSteps;
    EightSteps(0xa66805eb, 0xd1c2398d, 0xea1727be, 0x750b93df, 0xb873f297, 0xdecfc233, 0xed91da61, 0xf43ed648,
               0x7a1f6b24);
    EightSteps(0x7a1f6b24, 0x3d0fb592, 0x1e87dac9, 0x8db5d61c, 0x46daeb0e, 0x236d7587, 0x934081bb, 0xcb567ba5,
               0xe75d06aa);
    EightSteps(0xe75d06aa, 0x73ae8355, 0xbb217ad2, 0x5d90bd69, 0xac3e65cc, 0x561f32e6, 0x2b0f9973, 0x9771f7c1,
               0xc94ec098);
    EightSteps(0xc94ec098, 0x64a7604c, 0x3253b026, 0x1929d813, 0x8e62d771, 0xc5c750c0, 0x62e3a860, 0x3171d430,
               0x18b8ea18);
    BitStepsAdd(0xa66805eb, 8, 8);
    BitStepsAdd(0xa66805eb, 16, 8);
    BitStepsAdd(0xa66805eb, 24, 8);
  }

  /** The top bit of a word through sixteen zero bytes. */
  lemma TopBit()
    ensures BitSteps(0x80000000, 128) == 0x18b8ea18
  {
    hide BitSteps;
    Bits0To32();
    Bits32To64();
    Bits64To96();
    Bits96To128();
    BitStepsAdd(0x80000000, 32, 32);
    BitStepsAdd(0x80000000, 64, 32);
    BitStepsAdd(0x80000000, 96, 32);
  }

  lemma StrideEntry(place: nat, b: bv8)
    requires place < 4
    ensures StrideTable(place, b) == BitSteps(Placed(b, place), 128)
  {
    ZeroBytesAreBits(Placed(b, place), 16);
    hide *;
  }

  /** What sixteen zero bytes make of the bits of the byte at place 3. */
  lemma Bits3()
    ensures BitSteps(0x01000000, 128) == 0x30d23865
    ensures BitSteps(0x02000000, 128) == 0x61a470ca
    ensures BitSteps(0x04000000, 128) == 0xc348e194
    ensures BitSteps(0x08000000, 128) == 0x837db5d9
    ensures BitSteps(0x10000000, 128) == 0x03171d43
    ensures BitSteps(0x20000000, 128) == 0x062e3a86
    ensures BitSteps(0x40000000, 128) == 0x0c5c750c
    ensures BitSteps(0x80000000, 128) == 0x18b8ea18
  {
    hide BitSteps;
    TopBit();
    NextBitDown(128, 0x80000000, 0x40000000, 0x18b8ea18);
    NextBitDown(128, 0x40000000, 0x20000000, 0x0c5c750c);
    NextBitDown(128, 0x20000000, 0x10000000, 0x062e3a86);
    NextBitDown(128, 0x10000000, 0x08000000, 0x03171d43);
    NextBitDown(128, 0x08000000, 0x04000000, 0x837db5d9);
    NextBitDown(128, 0x04000000, 0x02000000, 0xc348e194);
    NextBitDown(128, 0x02000000, 0x01000000, 0x61a470ca);
  }

  /** What the stride table for place 3 holds for the single-bit bytes. */
  lemma StrideBasis3()
    ensures StrideTable(3, 1) == 0x30d23865 && StrideTable(3, 2) == 0x61a470ca
    ensures StrideTable(3, 4) == 0xc348e194 && StrideTable(3, 8) == 0x837db5d9
    ensures StrideTable(3, 16) == 0x03171d43 && StrideTable(3, 32) == 0x062e3a86
    ensures StrideTable(3, 64) == 0x0c5c750c && StrideTable(3, 128) == 0x18b8ea18
  {
    hide BitSteps, StrideTable;
    Bits3();
    StrideEntry(3, 1);
    StrideEntry(3, 2);
    StrideEntry(3, 4);
    StrideEntry(3, 8);
    StrideEntry(3, 16);
    StrideEntry(3, 32);
    StrideEntry(3, 64);
    StrideEntry(3, 128);
  }

  /** What sixteen zero bytes make of the bits of the byte at place 2. */
  lemma Bits2()
    ensures BitSteps(0x00010000, 128) == 0x54075546
    ensures BitSteps(0x00020000, 128) == 0xa80eaa8c
    ensures BitSteps(0x00040000, 128) == 0x55f123e9
    ensures BitSteps(0x00080000, 128) == 0xabe247d2
    ensures BitSteps(0x00100000, 128) == 0x5228f955
    ensures BitSteps(0x00200000, 128) == 0xa451f2aa
    ensures BitSteps(0x00400000, 128) == 0x4d4f93a5
    ensures BitSteps(0x00800000, 128) == 0x9a9f274a
  {
    hide BitSteps;
    Bits3();
    NextBitDown(128, 0x01000000, 0x00800000, 0x30d23865);
    NextBitDown(128, 0x00800000, 0x00400000, 0x9a9f274a);
    NextBitDown(128, 0x00400000, 0x00200000, 0x4d4f93a5);
    NextBitDown(128, 0x00200000, 0x00100000, 0xa451f2aa);
    NextBitDown(128, 0x00100000, 0x00080000, 0x5228f955);
    NextBitDown(128, 0x00080000, 0x00040000, 0xabe247d2);
    NextBitDown(128, 0x00040000, 0x00020000, 0x55f123e9);
    NextBitDown(128, 0x00020000, 0x00010000, 0xa80eaa8c);
  }

  /** What the stride table for place 2 holds for the single-bit bytes. */
  lemma StrideBasis2()
    ensures StrideTable(2, 1) == 0x54075546 && StrideTable(2, 2) == 0xa80eaa8c
    ensures StrideTable(2, 4) == 0x55f123e9 && StrideTable(2, 8) == 0xabe247d2
    ensures StrideTable(2, 16) == 0x5228f955 && StrideTable(2, 32) == 0xa451f2aa
    ensures StrideTable(2, 64) == 0x4d4f93a5 && StrideTable(2, 128) == 0x9a9f274a
  {
    hide BitSteps, StrideTable;
    Bits2();
    StrideEntry(2, 1);
    StrideEntry(2, 2);
    StrideEntry(2, 4);
    StrideEntry(2, 8);
    StrideEntry(2, 16);
    StrideEntry(2, 32);
    StrideEntry(2, 64);
    StrideEntry(2, 128);
  }

  /** What sixteen zero bytes make of the bits of the byte at place 1. */
  lemma Bits1()
    ensures BitSteps(0x00000100, 128) == 0x678efd01
    ensures BitSteps(0x00000200, 128) == 0xcf1dfa02
    ensures BitSteps(0x00000400, 128) == 0x9bd782f5
    ensures BitSteps(0x00000800, 128) == 0x3243731b
    ensures BitSteps(0x00001000, 128) == 0x6486e636
    ensures BitSteps(0x00002000, 128) == 0xc90dcc6c
    ensures BitSteps(0x00004000, 128) == 0x97f7ee29
    ensures BitSteps(0x00008000, 128) == 0x2a03aaa3
  {
    hide BitSteps;
    Bits2();
    NextBitDown(128, 0x00010000, 0x00008000, 0x54075546);
    NextBitDown(128, 0x00008000, 0x00004000, 0x2a03aaa3);
    NextBitDown(128, 0x00004000, 0x00002000, 0x97f7ee29);
    NextBitDown(128, 0x00002000, 0x00001000, 0xc90dcc6c);
    NextBitDown(128, 0x00001000, 0x00000800, 0x6486e636);
    NextBitDown(128, 0x00000800, 0x00000400, 0x3243731b);
    NextBitDown(128, 0x00000400, 0x00000200, 0x9bd782f5);
    NextBitDown(128, 0x00000200, 0x00000100, 0xcf1dfa02);
  }

  /** What the stride table for place 1 holds for the single-bit bytes. */
  lemma StrideBasis1()
    ensures StrideTable(1, 1) == 0x678efd01 && StrideTable(1, 2) == 0xcf1dfa02
    ensures StrideTable(1, 4) == 0x9bd782f5 && StrideTable(1, 8) == 0x3243731b
    ensures StrideTable(1, 16) == 0x6486e636 && StrideTable(1, 32) == 0xc90dcc6c
    ensures StrideTable(1, 64) == 0x97f7ee29 && StrideTable(1, 128) == 0x2a03aaa3
  {
    hide BitSteps, StrideTable;
    Bits1();
    StrideEntry(1, 1);
    StrideEntry(1, 2);
    StrideEntry(1, 4);
    StrideEntry(1, 8);
    StrideEntry(1, 16);
    StrideEntry(1, 32);
    StrideEntry(1, 64);
    StrideEntry(1, 128);
  }

  /** What sixteen zero bytes make of the bits of the byte at place 0. */
  lemma Bits0()
    ensures BitSteps(0x00000001, 128) == 0xf20c0dfe
    ensures BitSteps(0x00000002, 128) == 0xe1f46d0d
    ensures BitSteps(0x00000004, 128) == 0xc604aceb
    ensures BitSteps(0x00000008, 128) == 0x89e52f27
    ensures BitSteps(0x00000010, 128) == 0x162628bf
    ensures BitSteps(0x00000020, 128) == 0x2c4c517e
    ensures BitSteps(0x00000040, 128) == 0x5898a2fc
    ensures BitSteps(0x00000080, 128) == 0xb13145f8
  {
    hide BitSteps;
    Bits1();
    NextBitDown(128, 0x00000100, 0x00000080, 0x678efd01);
    NextBitDown(128, 0x00000080, 0x00000040, 0xb13145f8);
    NextBitDown(128, 0x00000040, 0x00000020, 0x5898a2fc);
    NextBitDown(128, 0x00000020, 0x00000010, 0x2c4c517e);
    NextBitDown(128, 0x00000010, 0x00000008, 0x162628bf);
    NextBitDown(128, 0x00000008, 0x00000004, 0x89e52f27);
    NextBitDown(128, 0x00000004, 0x00000002, 0xc604aceb);
    NextBitDown(128, 0x00000002, 0x00000001, 0xe1f46d0d);
  }

  /** What the stride table for place 0 holds for the single-bit bytes. */
  lemma StrideBasis0()
    ensures StrideTable(0, 1) == 0xf20c0dfe && StrideTable(0, 2) == 0xe1f46d0d
    ensures StrideTable(0, 4) == 0xc604aceb && StrideTable(0, 8) == 0x89e52f27
    ensures StrideTable(0, 16) == 0x162628bf && StrideTable(0, 32) == 0x2c4c517e
    ensures StrideTable(0, 64) == 0x5898a2fc && StrideTable(0, 128) == 0xb13145f8
  {
    hide BitSteps, StrideTable;
    Bits0();
    StrideEntry(0, 1);
    StrideEntry(0, 2);
    StrideEntry(0, 4);
    StrideEntry(0, 8);
    StrideEntry(0, 16);
    StrideEntry(0, 32);
    StrideEntry(0, 64);
    StrideEntry(0, 128);
  }
}
