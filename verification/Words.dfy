/** 32-bit words: the few operations on them that a CRC needs, and their laws. */
module Words {
  type Word = bv32

  function Xor(a: Word, b: Word): Word { a ^ b }

  function Low(l: Word): Word { l & 0xff }

  function Shift(l: Word): Word { l >> 8 }

  function Half(l: Word): Word { l >> 1 }

  function Odd(l: Word): Word { l & 1 }

  function Extended(b: bv8): Word { b as bv32 }

  /** A byte at a place of a little-endian word. */
  function Placed(b: bv8, place: nat): Word
    requires place < 4
  {
    match place
    case 0 => b as bv32
    case 1 => (b as bv32) << 8
    case 2 => (b as bv32) << 16
    case 3 => (b as bv32) << 24
  }

  lemma XorAssociates(a: Word, b: Word, c: Word)
    ensures Xor(Xor(a, b), c) == Xor(a, Xor(b, c))
  {
  }

  lemma XorCommutes(a: Word, b: Word)
    ensures Xor(a, b) == Xor(b, a)
  {
  }

  lemma XorCancels(a: Word)
    ensures Xor(a, a) == 0 && Xor(a, 0) == a && Xor(0, a) == a
  {
  }

  lemma BitPartsAreLinear(a: Word, b: Word)
    ensures Half(Xor(a, b)) == Xor(Half(a), Half(b)) && Odd(Xor(a, b)) == Xor(Odd(a), Odd(b))
  {
  }

  lemma OddIsABit(a: Word)
    ensures Odd(a) == 0 || Odd(a) == 1
  {
  }

  lemma BytePartsAreLinear(a: Word, b: Word)
    ensures Low(Xor(a, b)) == Xor(Low(a), Low(b)) && Shift(Xor(a, b)) == Xor(Shift(a), Shift(b))
  {
  }

  lemma ByteEnters(l: Word, b: bv8)
    ensures Low(Xor(l, Extended(b))) == Xor(Low(l), Extended(b)) && Shift(Xor(l, Extended(b))) == Shift(l)
  {
  }

  /** Shifting a byte out of the low places brings it down. */
  lemma PlacedShifts(b: bv8, place: nat)
    requires place < 4
    ensures place == 0 ==> Placed(b, place) == Extended(b)
    ensures place > 0 ==> Low(Placed(b, place)) == 0 && Shift(Placed(b, place)) == Placed(b, place - 1)
  {
  }

  lemma XorSwap(a: Word, b: Word, c: Word, d: Word)
    ensures Xor(Xor(a, b), Xor(c, d)) == Xor(Xor(a, c), Xor(b, d))
  {
    XorAssociates(a, b, Xor(c, d));
    XorAssociates(b, c, d);
    XorCommutes(b, c);
    XorAssociates(c, b, d);
    XorAssociates(a, c, Xor(b, d));
    hide Xor;
  }

  lemma XorRotate(a: Word, b: Word, c: Word, d: Word, e: Word)
    ensures Xor(Xor(Xor(Xor(a, b), c), d), e) == Xor(Xor(Xor(b, c), d), Xor(e, a))
  {
    XorAssociates(a, b, c);
    XorAssociates(a, Xor(b, c), d);
    XorAssociates(a, Xor(Xor(b, c), d), e);
    XorCommutes(a, Xor(Xor(Xor(b, c), d), e));
    XorAssociates(Xor(Xor(b, c), d), e, a);
    hide Xor;
  }

  function ByteAt(l: Word, place: nat): bv8
    requires place < 4
  {
    match place
    case 0 => (l & 0xff) as bv8
    case 1 => ((l >> 8) & 0xff) as bv8
    case 2 => ((l >> 16) & 0xff) as bv8
    case 3 => (l >> 24) as bv8
  }

  /** A word is made of its bytes. */
  lemma BytesMakeWord(l: Word)
    ensures Xor(Xor(Xor(Placed(ByteAt(l, 0), 0), Placed(ByteAt(l, 1), 1)), Placed(ByteAt(l, 2), 2)),
                Placed(ByteAt(l, 3), 3)) == l
  {
  }

  /** All but the last byte. */
  function High(l: Word): Word { l & 0xffffff00 }

  lemma LowAndHigh(l: Word)
    ensures Xor(Low(l), High(l)) == l
  {
  }

  /** The low bits a mask covers are zero: one of them may be shifted out. */
  lemma ZeroBitOut(x: Word, mask: Word)
    requires x & mask == 0 && mask & 1 == 1
    ensures Odd(x) == 0 && Half(x) & Half(mask) == 0
  {
  }

  lemma FourHalves(l: Word)
    ensures Half(Half(Half(Half(l)))) == l >> 4
  {
  }

  lemma EightHalves(l: Word)
    ensures Half(Half(Half(Half(Half(Half(Half(Half(l)))))))) == Shift(l)
  {
    FourHalves(l);
    FourHalves(l >> 4);
    hide Half;
  }

  lemma HighShifts(l: Word)
    ensures High(l) & 0xff == 0 && Shift(High(l)) == Shift(l)
  {
  }

  lemma MaskHalves()
    ensures Half(0xff) == 0x7f && Half(0x7f) == 0x3f && Half(0x3f) == 0x1f && Half(0x1f) == 0xf
    ensures Half(0xf) == 7 && Half(7) == 3 && Half(3) == 1
  {
  }

  /** Nothing but zeros is shifted out of the last byte. */
  lemma HighIsEven(l: Word)
    ensures Odd(High(l)) == 0
    ensures Odd(Half(High(l))) == 0
    ensures Odd(Half(Half(High(l)))) == 0
    ensures Odd(Half(Half(Half(High(l))))) == 0
    ensures Odd(Half(Half(Half(Half(High(l)))))) == 0
    ensures Odd(Half(Half(Half(Half(Half(High(l))))))) == 0
    ensures Odd(Half(Half(Half(Half(Half(Half(High(l)))))))) == 0
    ensures Odd(Half(Half(Half(Half(Half(Half(Half(High(l))))))))) == 0
    ensures Half(Half(Half(Half(Half(Half(Half(Half(High(l))))))))) == Shift(l)
  {
    HighShifts(l);
    MaskHalves();
    EightHalves(High(l));
    hide *;
    var h := High(l);
    ZeroBitOut(h, 0xff);
    ZeroBitOut(Half(h), 0x7f);
    ZeroBitOut(Half(Half(h)), 0x3f);
    ZeroBitOut(Half(Half(Half(h))), 0x1f);
    ZeroBitOut(Half(Half(Half(Half(h)))), 0xf);
    ZeroBitOut(Half(Half(Half(Half(Half(h))))), 7);
    ZeroBitOut(Half(Half(Half(Half(Half(Half(h)))))), 3);
    ZeroBitOut(Half(Half(Half(Half(Half(Half(Half(h))))))), 1);
  }
}
