/** The complements of the CRC: laws and values that hold of CRC32C and of no other choice. */
module Crc32cValues {
  import opened Words
  import opened Crc32c

  /** The bytes of a word, least significant first. */
  function BytesOf(w: Word): seq<bv8> {
    [ByteAt(w, 0), ByteAt(w, 1), ByteAt(w, 2), ByteAt(w, 3)]
  }

  lemma WordOfBytes(w: Word)
    ensures ReadWord(BytesOf(w), 0) == w
  {
    BytesMakeWord(w);
  }

  /** A word added to the state by its four bytes. */
  lemma WordSteps(l: Word, w: Word)
    ensures Steps(l, BytesOf(w)) == ZeroBytes(Xor(l, w), 4)
  {
    WordOfBytes(w);
    FourSteps(l, BytesOf(w), 0);
    assert BytesOf(w)[0..4] == BytesOf(w);
  }

  lemma FourZeroBytes(l: Word)
    ensures ZeroBytes(l, 4) == BitSteps(l, 32)
  {
    ZeroBytesAreBits(l, 4);
  }

  lemma Zeros0To4()
    ensures BitSteps(0xffffffff, 32) == 0xb798b438
  {
    hide BitSteps;
    EightSteps(0xffffffff, 0xfd09c487, 0xfc72d93b, 0xfccf57e5, 0xfc91908a, 0x7e48c845, 0xbdd25f5a, 0x5ee92fad,
               0xad82acae);
    EightSteps(0xad82acae, 0x56c15657, 0xa9969053, 0xd63d7351, 0xe9e882d0, 0x74f44168, 0x3a7a20b4, 0x1d3d105a,
               0x0e9e882d);
    EightSteps(0x0e9e882d, 0x85b97f6e, 0x42dcbfb7, 0xa39864a3, 0xd33a0929, 0xeb6b3fec, 0x75b59ff6, 0x3adacffb,
               0x9f9b5c85);
    EightSteps(0x9f9b5c85, 0xcd3b953a, 0x669dca9d, 0xb1b8de36, 0x58dc6f1b, 0xae980cf5, 0xd5ba3d02, 0x6add1e81,
               0xb798b438);
    BitStepsAdd(0xffffffff, 8, 8);
    BitStepsAdd(0xffffffff, 16, 8);
    BitStepsAdd(0xffffffff, 24, 8);
  }

  lemma Zeros4To8()
    ensures BitSteps(0xb798b438, 32) == 0x73d74d75
  {
    hide BitSteps;
    EightSteps(0xb798b438, 0x5bcc5a1c, 0x2de62d0e, 0x16f31687, 0x898fb03b, 0xc631e365, 0xe1eecaca, 0x70f76565,
               0xba8d89ca);
    EightSteps(0xba8d89ca, 0x5d46c4e5, 0xac55590a, 0x562aac85, 0xa9e36d3a, 0x54f1b69d, 0xa88ee036, 0x5447701b,
               0xa8d58375);
    EightSteps(0xa8d58375, 0xd69cfac2, 0x6b4e7d61, 0xb75105c8, 0x5ba882e4, 0x2dd44172, 0x16ea20b9, 0x89832b24,
               0x44c19592);
    EightSteps(0x44c19592, 0x2260cac9, 0x93c65e1c, 0x49e32f0e, 0x24f19787, 0x908ef0bb, 0xcab14325, 0xe7ae9aea,
               0x73d74d75);
    BitStepsAdd(0xb798b438, 8, 8);
    BitStepsAdd(0xb798b438, 16, 8);
    BitStepsAdd(0xb798b438, 24, 8);
  }

  lemma Zeros8To12()
    ensures BitSteps(0x73d74d75, 32) == 0xd49f4aa2
  {
    hide BitSteps;
    EightSteps(0x73d74d75, 0xbb1d9dc2, 0x5d8ecee1, 0xac315c08, 0x5618ae04, 0x2b0c5702, 0x15862b81, 0x88352eb8,
               0x441a975c);
    EightSteps(0x441a975c, 0x220d4bae, 0x1106a5d7, 0x8a756993, 0xc7cc8fb1, 0xe1107ca0, 0x70883e50, 0x38441f28,
               0x1c220f94);
    EightSteps(0x1c220f94, 0x0e1107ca, 0x070883e5, 0x81727a8a, 0x40b93d45, 0xa2aaa5da, 0x515552ed, 0xaa5c920e,
               0x552e4907);
    EightSteps(0x552e4907, 0xa8611ffb, 0xd6c6b485, 0xe995613a, 0x74cab09d, 0xb8936336, 0x5c49b19b, 0xacd2e3b5,
               0xd49f4aa2);
    BitStepsAdd(0x73d74d75, 8, 8);
    BitStepsAdd(0x73d74d75, 16, 8);
    BitStepsAdd(0x73d74d75, 24, 8);
  }

  lemma Zeros12To16()
    ensures BitSteps(0xd49f4aa2, 32) == 0xbd8f6515
  {
    hide BitSteps;
    EightSteps(0xd49f4aa2, 0x6a4fa551, 0xb7d1e9d0, 0x5be8f4e8, 0x2df47a74, 0x16fa3d3a, 0x0b7d1e9d, 0x8748b436,
               0x43a45a1b);
    EightSteps(0x43a45a1b, 0xa3241675, 0xd3643042, 0x69b21821, 0xb62f3768, 0x5b179bb4, 0x2d8bcdda, 0x16c5e6ed,
               0x8994c80e);
    EightSteps(0x8994c80e, 0x44ca6407, 0xa093097b, 0xd2bfbfc5, 0xeba9e49a, 0x75d4f24d, 0xb81c425e, 0x5c0e212f,
               0xacf12bef);
    EightSteps(0xacf12bef, 0xd48eae8f, 0xe8b16c3f, 0xf6ae8d67, 0xf9a17dcb, 0xfe26859d, 0xfde579b6, 0x7ef2bcdb,
               0xbd8f6515);
    BitStepsAdd(0xd49f4aa2, 8, 8);
    BitStepsAdd(0xd49f4aa2, 16, 8);
    BitStepsAdd(0xd49f4aa2, 24, 8);
  }

  lemma Zeros16To20()
    ensures BitSteps(0xbd8f6515, 32) == 0x433aa9c1
  {
    hide BitSteps;
    EightSteps(0xbd8f6515, 0xdc3189f2, 0x6e18c4f9, 0xb5fa5904, 0x5afd2c82, 0x2d7e9641, 0x94497058, 0x4a24b82c,
               0x25125c16);
    EightSteps(0x25125c16, 0x12892e0b, 0x8bb2ac7d, 0xc72f6d46, 0x6397b6a3, 0xb33de029, 0xdb68cb6c, 0x6db465b6,
               0x36da32db);
    EightSteps(0x36da32db, 0x999b2215, 0xce3baa72, 0x671dd539, 0xb178d1e4, 0x58bc68f2, 0x2c5e3479, 0x94d92144,
               0x4a6c90a2);
    EightSteps(0x4a6c90a2, 0x25364851, 0x906d1f50, 0x48368fa8, 0x241b47d4, 0x120da3ea, 0x0906d1f5, 0x86755382,
               0x433aa9c1);
    BitStepsAdd(0xbd8f6515, 8, 8);
    BitStepsAdd(0xbd8f6515, 16, 8);
    BitStepsAdd(0xbd8f6515, 24, 8);
  }

  lemma Zeros20To24()
    ensures BitSteps(0x433aa9c1, 32) == 0x7b041311
  {
    hide BitSteps;
    EightSteps(0x433aa9c1, 0xa36b6f98, 0x51b5b7cc, 0x28dadbe6, 0x146d6df3, 0x88c08d81, 0xc6967db8, 0x634b3edc,
               0x31a59f6e);
    EightSteps(0x31a59f6e, 0x18d2cfb7, 0x8e9f5ca3, 0xc5b99529, 0xe02af1ec, 0x701578f6, 0x380abc7b, 0x9ef36545,
               0xcd8f89da);
    EightSteps(0xcd8f89da, 0x66c7c4ed, 0xb195d90e, 0x58caec87, 0xae934d3b, 0xd5bf9de5, 0xe829f58a, 0x7414fac5,
               0xb8fc461a);
    EightSteps(0xb8fc461a, 0x5c7e230d, 0xacc92afe, 0x5664957f, 0xa9c471c7, 0xd614039b, 0xe9fc3ab5, 0xf6082622,
               0x7b041311);
    BitStepsAdd(0x433aa9c1, 8, 8);
    BitStepsAdd(0x433aa9c1, 16, 8);
    BitStepsAdd(0x433aa9c1, 24, 8);
  }

  lemma Zeros24To28()
    ensures BitSteps(0x7b041311, 32) == 0x08363896
  {
    hide BitSteps;
    EightSteps(0x7b041311, 0xbf7432f0, 0x5fba1978, 0x2fdd0cbc, 0x17ee865e, 0x0bf7432f, 0x870d9aef, 0xc170f60f,
               0xe24e407f);
    EightSteps(0xe24e407f, 0xf3d11b47, 0xfb1eb6db, 0xff796015, 0xfd4a8b72, 0x7ea545b9, 0xbda499a4, 0x5ed24cd2,
               0x2f692669);
    EightSteps(0x2f692669, 0x9542a84c, 0x4aa15426, 0x2550aa13, 0x905e6e71, 0xcad90c40, 0x656c8620, 0x32b64310,
               0x195b2188);
    EightSteps(0x195b2188, 0x0cad90c4, 0x0656c862, 0x032b6431, 0x83638960, 0x41b1c4b0, 0x20d8e258, 0x106c712c,
               0x08363896);
    BitStepsAdd(0x7b041311, 8, 8);
    BitStepsAdd(0x7b041311, 16, 8);
    BitStepsAdd(0x7b041311, 24, 8);
  }

  lemma Zeros28To32()
    ensures BitSteps(0x08363896, 32) == 0x756ec955
  {
    hide BitSteps;
    EightSteps(0x08363896, 0x041b1c4b, 0x80fbb55d, 0xc28be1d6, 0x6145f0eb, 0xb254c30d, 0xdbdc5afe, 0x6dee2d7f,
               0xb4012dc7);
    EightSteps(0xb4012dc7, 0xd8f6ad9b, 0xee8d6db5, 0xf5b08da2, 0x7ad846d1, 0xbf9a1810, 0x5fcd0c08, 0x2fe68604,
               0x17f34302);
    EightSteps(0x17f34302, 0x0bf9a181, 0x870aebb8, 0x438575dc, 0x21c2baee, 0x10e15d77, 0x8a8695c3, 0xc7b57199,
               0xe12c83b4);
    EightSteps(0xe12c83b4, 0x709641da, 0x384b20ed, 0x9ed3ab0e, 0x4f69d587, 0xa542d1bb, 0xd05753a5, 0xeadd92aa,
               0x756ec955);
    BitStepsAdd(0x08363896, 8, 8);
    BitStepsAdd(0x08363896, 16, 8);
    BitStepsAdd(0x08363896, 24, 8);
  }

  /** However a checksum was begun, data followed by their own checksum have the residue of CRC32C. */
  lemma Residue(crc: Word, data: seq<bv8>)
    ensures Extend(crc, data + BytesOf(Extend(crc, data))) == 0x48674bc7
  {
    var s := Steps(Xor(crc, ALL_ONES), data);
    StepsAppend(Xor(crc, ALL_ONES), data, BytesOf(Extend(crc, data)));
    WordSteps(s, Xor(s, ALL_ONES));
    XorAssociates(s, s, ALL_ONES);
    XorCancels(s);
    XorCancels(ALL_ONES);
    FourZeroBytes(0xffffffff);
    Zeros0To4();
    hide Steps, BitSteps, ZeroBytes, BytesOf;
  }

  /** Four bytes of ones in front take back the first complement; the last one stays. */
  lemma OnesInFront(data: seq<bv8>)
    ensures Extend(0, [0xff, 0xff, 0xff, 0xff] + data) == Xor(Steps(0, data), 0xffffffff)
  {
    var ones: seq<bv8> := [0xff, 0xff, 0xff, 0xff];
    assert BytesOf(0xffffffff) == ones;
    StepsAppend(0xffffffff, ones, data);
    WordSteps(0xffffffff, 0xffffffff);
    XorCancels(0xffffffff);
    ZeroStays(4);
    hide Steps, ZeroBytes, BytesOf;
  }

  lemma {:induction false} StepsOfZeros(l: Word, n: nat)
    ensures Steps(l, seq(n, _ => 0)) == ZeroBytes(l, n)
  {
    var zeros := seq(n, _ => 0 as bv8);
    if n > 0 {
      StepsOfZeros(l, n - 1);
      assert zeros[..n - 1] == seq(n - 1, _ => 0 as bv8);
      StepIsZeroByte(ZeroBytes(l, n - 1), 0);
      NothingEnters(ZeroBytes(l, n - 1));
      hide Step1, ZeroByte, Xor;
    }
  }

  lemma NothingEnters(l: Word)
    ensures Xor(l, Extended(0)) == l
  {
  }

  lemma Zeros0To16()
    ensures BitSteps(0xffffffff, 128) == 0xbd8f6515
  {
    hide BitSteps;
    Zeros0To4();
    Zeros4To8();
    Zeros8To12();
    Zeros12To16();
    BitStepsAdd(0xffffffff, 32, 32);
    BitStepsAdd(0xffffffff, 64, 32);
    BitStepsAdd(0xffffffff, 96, 32);
  }

  lemma Zeros16To32()
    ensures BitSteps(0xbd8f6515, 128) == 0x756ec955
  {
    hide BitSteps;
    Zeros16To20();
    Zeros20To24();
    Zeros24To28();
    Zeros28To32();
    BitStepsAdd(0xbd8f6515, 32, 32);
    BitStepsAdd(0xbd8f6515, 64, 32);
    BitStepsAdd(0xbd8f6515, 96, 32);
  }

  lemma OnesThroughZeros()
    ensures ZeroBytes(0xffffffff, 32) == 0x756ec955
  {
    hide BitSteps, ZeroBytes;
    Zeros0To16();
    Zeros16To32();
    BitStepsAdd(0xffffffff, 128, 128);
    ZeroBytesAreBits(0xffffffff, 32);
  }

  lemma Complemented(data: seq<bv8>)
    ensures Extend(0, data) == Xor(Steps(0xffffffff, data), 0xffffffff)
  {
    XorCancels(0xffffffff);
    hide Steps;
  }

  /** The value for 32 bytes of zeros, as in appendix B.4 of RFC 3720. */
  lemma ThirtyTwoZeros()
    ensures Extend(0, seq(32, _ => 0)) == 0x8a9136aa
  {
    assert Xor(0x756ec955, 0xffffffff) == 0x8a9136aa;
    hide *;
    Complemented(seq(32, _ => 0));
    StepsOfZeros(0xffffffff, 32);
    OnesThroughZeros();
  }
}
