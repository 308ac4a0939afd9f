/** CRC32C over bytes as numbers. */
module Crc32cOfBytes {
  import opened Coding
  import opened Checksums
  import opened Words
  import Crc32c
  import Crc32cValues

  function AsByte(b: Byte): bv8 { b as bv8 }

  /** A byte of the machine is that of its number. */
  lemma ByteRoundTrip(b: bv8)
    ensures AsByte(b as nat) == b
  {
  }

  /** Bytes as the machine has them. */
  function Raw(s: Bytes): (r: seq<bv8>)
    ensures |r| == |s|
  {
    seq(|s|, i requires 0 <= i < |s| => AsByte(s[i]))
  }

  lemma RawJoin(a: Bytes, b: Bytes)
    ensures Raw(a + b) == Raw(a) + Raw(b)
  {
    hide AsByte;
  }

  function AsWord(crc: Crc32): Word { crc as bv32 }

  function AsNumber(crc: Word): Crc32 { crc as nat }

  lemma WordRoundTrip(crc: Word)
    ensures AsWord(AsNumber(crc)) == crc
  {
  }

  function Extend(crc: Crc32, s: Bytes): Crc32 {
    AsNumber(Crc32c.Extend(AsWord(crc), Raw(s)))
  }

  /** CRC32C is a checksum of the kind the log needs. */
  lemma ExtendComposes()
    ensures Composes(Extend)
  {
    hide Raw, AsWord, AsNumber, Crc32c.Extend;
    forall crc, a, b ensures Extend(Extend(crc, a), b) == Extend(crc, a + b) {
      WordRoundTrip(Crc32c.Extend(AsWord(crc), Raw(a)));
      Crc32c.ExtendComposes(AsWord(crc), Raw(a), Raw(b));
      RawJoin(a, b);
    }
  }

  /** A known value: the checksum of 32 zero bytes. */
  lemma ThirtyTwoZeros()
    ensures Extend(0, seq(32, _ => 0)) == 0x8a91_36aa
  {
    assert AsByte(0) == 0;
    hide AsByte, Crc32c.Extend;
    assert Raw(seq(32, _ => 0)) == seq(32, _ => 0 as bv8);
    Crc32cValues.ThirtyTwoZeros();
  }

  /** What the machine computes, over bytes that lie at any address. */
  method ExtendBytes(crc: Crc32, s: Bytes, address: nat) returns (r: Crc32)
    ensures r == Extend(crc, s)
  {
    hide Raw, AsWord, AsNumber, Crc32c.Extend;
    var word := Crc32c.ExtendStrided(AsWord(crc), Raw(s), address);
    r := AsNumber(word);
  }
}
