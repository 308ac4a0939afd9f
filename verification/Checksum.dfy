/** Checksums as the log uses them: computed in parts, and masked where they are stored. */
module Checksums {
  import opened Coding

  // ------------------------------------------------------------------- stored checksums

  const MASK_DELTA: nat := 0xa282ead8

  /** Rotated right by 15 bits, plus a constant. */
  function Mask(crc: nat): (r: nat)
    requires crc < TWO_TO_32
    ensures r < TWO_TO_32
  {
    (crc / 0x8000 + crc % 0x8000 * 0x2_0000 + MASK_DELTA) % TWO_TO_32
  }

  function Unmask(masked: nat): (r: nat)
    requires masked < TWO_TO_32
    ensures r < TWO_TO_32
  {
    var rot := (masked + TWO_TO_32 - MASK_DELTA) % TWO_TO_32;
    rot / 0x2_0000 + rot % 0x2_0000 * 0x8000
  }

  lemma UnmaskMask(crc: nat)
    requires crc < TWO_TO_32
    ensures Unmask(Mask(crc)) == crc
  {
    var rot := crc / 0x8000 + crc % 0x8000 * 0x2_0000;
    assert rot < TWO_TO_32;
    assert (Mask(crc) + TWO_TO_32 - MASK_DELTA) % TWO_TO_32 == rot;
    assert rot / 0x2_0000 == crc % 0x8000 && rot % 0x2_0000 == crc / 0x8000;
  }

  // ------------------------------------------------------------------- computing in parts

  type Crc32 = n: nat | n < TWO_TO_32

  /** The checksum of A followed by some bytes, given the checksum of A; that of nothing is 0. */
  type Extend = (Crc32, Bytes) -> Crc32

  ghost predicate Composes(extend: Extend) {
    forall crc, a, b :: extend(extend(crc, a), b) == extend(crc, a + b)
  }

  lemma ComposesAt(extend: Extend, crc: Crc32, a: Bytes, b: Bytes)
    requires Composes(extend)
    ensures extend(extend(crc, a), b) == extend(crc, a + b)
  {
  }
}
