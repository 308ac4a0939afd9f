/** Byte encodings of numbers and slices that every file format is built from. */
module Coding {
  import opened Keys

  type Byte = b: nat | b < 256
  type Bytes = seq<Byte>

  const TWO_TO_32: nat := 0x1_0000_0000
  const TWO_TO_64: nat := 0x1_0000_0000_0000_0000

  // ----------------------------------------------------------------- fixed-width numbers

  /** The n low bytes of v, least significant first. */
  function Fixed(v: nat, n: nat): (r: Bytes)
    ensures |r| == n
  {
    if n == 0 then [] else [v % 256] + Fixed(v / 256, n - 1)
  }

  function FixedValue(s: Bytes): nat {
    if s == [] then 0 else s[0] + 256 * FixedValue(s[1..])
  }

  function Power256(n: nat): (r: nat)
    ensures r > 0
  {
    if n == 0 then 1 else 256 * Power256(n - 1)
  }

  lemma {:induction false} FixedRoundTrip(v: nat, n: nat)
    requires v < Power256(n)
    ensures FixedValue(Fixed(v, n)) == v
  {
    if n > 0 {
      FixedRoundTrip(v / 256, n - 1);
      assert Fixed(v, n)[1..] == Fixed(v / 256, n - 1);
    }
  }

  lemma {:induction false} FixedValueBelow(s: Bytes)
    ensures FixedValue(s) < Power256(|s|)
  {
    if s != [] {
      FixedValueBelow(s[1..]);
    }
  }

  lemma PowersOf256()
    ensures Power256(4) == TWO_TO_32 && Power256(8) == TWO_TO_64
  {
    assert Power256(2) == 65536 && Power256(4) == TWO_TO_32 && Power256(6) == TWO_TO_32 * 65536;
  }

  function Zeros(n: nat): (r: Bytes)
    ensures |r| == n
  {
    if n == 0 then [] else [0] + Zeros(n - 1)
  }

  lemma Fixed32RoundTrip(v: nat)
    requires v < TWO_TO_32
    ensures FixedValue(Fixed(v, 4)) == v
  {
    assert Power256(4) == TWO_TO_32 by {
      assert Power256(1) == 256 && Power256(2) == 65536;
    }
    FixedRoundTrip(v, 4);
  }

  lemma Fixed64RoundTrip(v: nat)
    requires v < TWO_TO_64
    ensures FixedValue(Fixed(v, 8)) == v
  {
    assert Power256(8) == TWO_TO_64 by {
      assert Power256(2) == 65536 && Power256(4) == TWO_TO_32 && Power256(6) == TWO_TO_32 * 65536;
    }
    FixedRoundTrip(v, 8);
  }

  // ------------------------------------------------------------------------------ varints

  /** Seven bits a byte, least significant first, the high bit set on all but the last. */
  function Varint(v: nat): (r: Bytes)
    ensures |r| > 0
  {
    if v < 128 then [v] else [v % 128 + 128] + Varint(v / 128)
  }

  /** A varint of at most n bytes at the front of s: its value and its length. */
  function ReadVarint(s: Bytes, n: nat): (r: Option<(nat, nat)>)
    ensures r.Some? ==> 0 < r.value.1 <= |s| && r.value.1 <= n
  {
    if s == [] || n == 0 then None
    else if s[0] < 128 then Some((s[0], 1))
    else match ReadVarint(s[1..], n - 1)
      case None => None
      case Some((v, k)) => Some((s[0] - 128 + 128 * v, k + 1))
  }

  function Power128(n: nat): (r: nat)
    ensures r > 0
  {
    if n == 0 then 1 else 128 * Power128(n - 1)
  }

  lemma LessThanPower(v: nat, n: nat)
    requires v < Power128(n) && v >= 128
    ensures n > 1 && v / 128 < Power128(n - 1)
  {
  }

  lemma {:induction false} VarintRoundTrip(v: nat, rest: Bytes, n: nat)
    requires v < Power128(n) && n > 0
    ensures ReadVarint(Varint(v) + rest, n) == Some((v, |Varint(v)|))
    ensures |Varint(v)| <= n
  {
    if v < 128 {
      assert Varint(v) + rest == [v] + rest;
    } else {
      LessThanPower(v, n);
      hide Power128;
      VarintRoundTrip(v / 128, rest, n - 1);
      assert (Varint(v) + rest)[1..] == Varint(v / 128) + rest;
    }
  }

  lemma Power128Values()
    ensures Power128(5) == 8 * TWO_TO_32 && Power128(10) == 64 * TWO_TO_64
    ensures Power128(4) * 16 == TWO_TO_32 && Power128(9) * 2 == TWO_TO_64
  {
    assert Power128(1) == 128 && Power128(2) == 16384 && Power128(3) == 2097152 && Power128(4) == 0x1000_0000;
    assert Power128(5) == 8 * TWO_TO_32 && Power128(6) == 1024 * TWO_TO_32 && Power128(7) == 0x2_0000 * TWO_TO_32;
    assert Power128(8) == 0x100_0000 * TWO_TO_32 && Power128(9) == 0x8000_0000 * TWO_TO_32;
  }

  method EncodeVarint64(v: nat) returns (r: Bytes)
    requires v < TWO_TO_64
    ensures r == Varint(v) && |r| <= 10
  {
    r := [];
    var left := v;
    while left >= 128
      invariant r + Varint(left) == Varint(v)
    {
      r := r + [left % 128 + 128];
      assert r + Varint(left / 128) == r[..|r| - 1] + Varint(left);
      left := left / 128;
    }
    r := r + [left];
    Power128Values();
    VarintRoundTrip(v, [], 10);
  }

  /** The five cases of the 32-bit encoder. */
  function EncodeVarint32(v: nat): Bytes
    requires v < TWO_TO_32
  {
    if v < 0x80 then [v]
    else if v < 0x4000 then [v % 128 + 128, v / 0x80]
    else if v < 0x20_0000 then [v % 128 + 128, v / 0x80 % 128 + 128, v / 0x4000]
    else if v < 0x1000_0000 then [v % 128 + 128, v / 0x80 % 128 + 128, v / 0x4000 % 128 + 128, v / 0x20_0000]
    else [v % 128 + 128, v / 0x80 % 128 + 128, v / 0x4000 % 128 + 128, v / 0x20_0000 % 128 + 128, v / 0x1000_0000]
  }

  lemma ShiftTwice(v: nat)
    ensures v / 0x80 / 128 == v / 0x4000 && v / 0x4000 / 128 == v / 0x20_0000 && v / 0x20_0000 / 128 == v / 0x1000_0000
  {
  }

  lemma VarintStep(v: nat)
    ensures Varint(v) == if v < 128 then [v] else [v % 128 + 128] + Varint(v / 128)
  {
  }

  lemma EncodeVarint32IsVarint(v: nat)
    requires v < TWO_TO_32
    ensures EncodeVarint32(v) == Varint(v)
  {
    VarintStep(v);
    VarintStep(v / 0x80);
    VarintStep(v / 0x4000);
    VarintStep(v / 0x20_0000);
    VarintStep(v / 0x1000_0000);
    ShiftTwice(v);
    hide Varint;
  }

  lemma ShiftedSum(low: nat, byte: nat, power: nat, v: nat)
    ensures low + power * (byte + 128 * v) == (low + byte * power) + (128 * power) * v
  {
  }

  /** The value read so far: `low` from the first bytes, the rest still ahead. */
  ghost function Continued(low: nat, power: nat, i: nat, rest: Option<(nat, nat)>): Option<(nat, nat)> {
    match rest
    case None => None
    case Some((v, k)) => Some((low + power * v, i + k))
  }

  lemma ReadsOn(s: Bytes, n: nat, low: nat, power: nat, i: nat)
    requires s != [] && n > 0
    ensures s[0] >= 128 ==>
      Continued(low, power, i, ReadVarint(s, n))
      == Continued(low + (s[0] - 128) * power, 128 * power, i + 1, ReadVarint(s[1..], n - 1))
    ensures s[0] < 128 ==> Continued(low, power, i, ReadVarint(s, n)) == Some((low + s[0] * power, i + 1))
  {
    if s[0] >= 128 && ReadVarint(s[1..], n - 1).Some? {
      ShiftedSum(low, s[0] - 128, power, ReadVarint(s[1..], n - 1).value.0);
    }
  }

  /** Reads a varint of at most n bytes into a number of the given size; bits that do not
      fit are lost, as in a shift. */
  method GetVarint(input: Bytes, n: nat, size: nat) returns (r: Option<nat>, rest: Bytes)
    requires (n == 5 && size == TWO_TO_32) || (n == 10 && size == TWO_TO_64)
    ensures match ReadVarint(input, n)
      case None => r == None && rest == input
      case Some((v, k)) => r == Some(v % size) && rest == input[k..]
  {
    hide ReadVarint, Power128;
    var result: nat, power: nat, i: nat := 0, 1, 0;
    ghost var whole: nat := 0;  // what the result would be without truncation
    assert input[0..] == input;
    NothingRead(ReadVarint(input, n));
    while i < n && i < |input|
      invariant i <= n && i <= |input| && result == whole % size
      invariant ReadVarint(input, n) == Continued(whole, power, i, ReadVarint(input[i..], n - i))
    {
      var byte := input[i];
      assert input[i..][1..] == input[i + 1..];
      ReadsOn(input[i..], n - i, whole, power, i);
      var added := if byte >= 128 then (byte - 128) * power else byte * power;
      Truncation(whole, added, size);
      result := (result + added % size) % size;
      whole := whole + added;
      if byte < 128 {
        return Some(result), input[i + 1..];
      }
      power, i := 128 * power, i + 1;
    }
    NothingLeft(input[i..], n - i);
    return None, input;
  }

  lemma NothingRead(r: Option<(nat, nat)>)
    ensures Continued(0, 1, 0, r) == r
  {
  }

  lemma NothingLeft(s: Bytes, n: nat)
    requires s == [] || n == 0
    ensures ReadVarint(s, n) == None
  {
  }

  lemma Truncation(a: nat, b: nat, size: nat)
    requires size == TWO_TO_32 || size == TWO_TO_64
    ensures (a % size + b % size) % size == (a + b) % size
  {
    if size == TWO_TO_32 {
      Truncation32(a, b);
    } else {
      Truncation64(a, b);
    }
  }

  lemma Truncation32(a: nat, b: nat)
    ensures (a % 0x1_0000_0000 + b % 0x1_0000_0000) % 0x1_0000_0000 == (a + b) % 0x1_0000_0000
  {
  }

  lemma Truncation64(a: nat, b: nat)
    ensures (a % 0x1_0000_0000_0000_0000 + b % 0x1_0000_0000_0000_0000) % 0x1_0000_0000_0000_0000
         == (a + b) % 0x1_0000_0000_0000_0000
  {
  }

  /** A varint in a 64-bit number, and what follows it. */
  function ReadNumber(s: Bytes): (r: Option<(nat, Bytes)>)
    ensures r.Some? ==> |r.value.1| < |s|
  {
    match ReadVarint(s, 10)
    case None => None
    case Some((v, k)) => Some((v % TWO_TO_64, s[k..]))
  }

  lemma NumberRoundTrip(n: nat, rest: Bytes)
    requires n < TWO_TO_64
    ensures ReadNumber(Varint(n) + rest) == Some((n, rest))
  {
    hide Varint, ReadVarint, Power128;
    Power128Values();
    VarintRoundTrip(n, rest, 10);
    assert (Varint(n) + rest)[|Varint(n)|..] == rest;
  }

  // ----------------------------------------------------------- length-prefixed slices

  function Prefixed(v: Bytes): Bytes {
    Varint(|v|) + v
  }

  /** A length-prefixed slice at the front of s, and what follows it. */
  function ReadPrefixed(s: Bytes): (r: Option<(Bytes, Bytes)>)
    ensures r.Some? ==> |r.value.1| < |s|
  {
    match ReadVarint(s, 5)
    case None => None
    case Some((v, k)) =>
      var n := v % TWO_TO_32;
      if n <= |s| - k then Some((s[k..k + n], s[k + n..])) else None
  }

  lemma PrefixedRoundTrip(v: Bytes, rest: Bytes)
    requires |v| < TWO_TO_32
    ensures ReadPrefixed(Prefixed(v) + rest) == Some((v, rest))
  {
    Power128Values();
    hide Varint, ReadVarint, Power128;
    VarintRoundTrip(|v|, v + rest, 5);
    assert Prefixed(v) + rest == Varint(|v|) + (v + rest);
  }

  method GetLengthPrefixedSlice(input: Bytes) returns (r: Option<Bytes>, rest: Bytes)
    ensures match ReadPrefixed(input)
      case None => r == None
      case Some((v, after)) => r == Some(v) && rest == after
  {
    hide ReadVarint;
    var n;
    n, rest := GetVarint(input, 5, TWO_TO_32);
    if n.Some? && |rest| >= n.value {
      ghost var k := |input| - |rest|;
      assert rest[..n.value] == input[k..k + n.value] && rest[n.value..] == input[k + n.value..];
      return Some(rest[..n.value]), rest[n.value..];
    }
    return None, rest;
  }
}
