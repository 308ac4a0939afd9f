/** Decoding what was encoded gives back the message, and exactly when it does not. */
module PbRoundTrip {
  import opened Keys
  import opened Coding
  import opened PbCommon
  import opened PbEncode
  import opened PbDecode

  // -------------------------------------------------------------------------- descriptors

  const MAX_TAG: nat := 0x2000_0000

  /** What generated descriptors guarantee: field numbers of the encoding, defaults that the
      struct can hold and send, and no default but zero for a singular field. */
  ghost predicate GoodField(f: Field)
    decreases f, 0
  {
    && 0 < f.tag < MAX_TAG && f.dataSize < TWO_TO_32
    && (if f.kind.Submessage? then GoodFields(f.kind.fields)
        else FitsValue(f, f.initial) && EncodedValue(f, f.initial).Some? && EndsValue(f, f.initial)
             && (f.rule.Singular? && !f.kind.FixedArray? ==> IsZero(f, f.initial)))
  }

  ghost predicate GoodFields(fields: seq<Field>)
    decreases fields, 0
  {
    && (forall i :: 0 <= i < |fields| ==> GoodField(fields[i]))
    && forall i, j :: 0 <= i < j < |fields| ==> fields[i].tag != fields[j].tag
  }

  // ------------------------------------------------------------------------ the same message

  /** Two structs hold the same message: what an absent field or an unused union holds does not matter. */
  ghost predicate SameValue(f: Field, a: Value, b: Value)
    decreases f, 0
  {
    match f.kind
    case Submessage(fields) => a.Msg? && b.Msg? && SameSlots(fields, a.slots, b.slots)
    case _ => a == b
  }

  ghost predicate SameSlot(f: Field, a: Slot, b: Slot)
    decreases f, 2
  {
    match f.rule
    case Required => a.Single? && b.Single? && SameValue(f, a.v, b.v)
    case Singular => a.Single? && b.Single? && SameValue(f, a.v, b.v)
    case Optional => a.Flagged? && b.Flagged? && a.has == b.has && (a.has ==> SameValue(f, a.v, b.v))
    case Repeated(_) => a.Many? && b.Many? && SameItems(f, a.items, b.items)
    case OneOf =>
      && a.Choice? && b.Choice? && (a.tag == f.tag) == (b.tag == f.tag)
      && (a.tag == f.tag ==> SameValue(f, a.v, b.v))
  }

  ghost predicate SameItems(f: Field, a: seq<Value>, b: seq<Value>)
    decreases f, 1
  {
    |a| == |b| && forall i :: 0 <= i < |a| ==> SameValue(f, a[i], b[i])
  }

  ghost predicate SameSlots(fields: seq<Field>, a: seq<Slot>, b: seq<Slot>)
    decreases fields, 0
  {
    && |a| == |b| == SlotCount(fields)
    && forall i :: 0 <= i < |fields| ==>
         SlotOf(fields, i) < |a| && SameSlot(fields[i], a[SlotOf(fields, i)], b[SlotOf(fields, i)])
  }

  // ------------------------------------------------------------------------------- numbers

  lemma LastByte(s: Bytes, n: nat, r: nat, low: nat)
    requires s != [] && s[0] < 128 && n < 5 && low == s[0] * Power128(n) < TWO_TO_32 && (n == 4 ==> s[0] < 16)
    ensures Continue32(s, n, r) == Some((r + low, s[1..]))
  {
    hide Power128;
    assert s[0] % 128 * Power128(n) % TWO_TO_32 == low;
  }

  lemma InnerByte(s: Bytes, n: nat, r: nat, low: nat)
    requires s != [] && s[0] >= 128 && n < 5 && low == (s[0] - 128) * Power128(n) < TWO_TO_32
    ensures Continue32(s, n, r) == Continue32(s[1..], n + 1, r + low)
  {
    hide Power128;
    assert s[0] % 128 == s[0] - 128;
    assert s[0] % 128 * Power128(n) % TWO_TO_32 == low;
  }

  lemma Product(v: nat, n: nat, r: nat) returns (all: nat, low: nat, high: nat)
    requires n < 5 && v * Power128(n) + r < TWO_TO_32
    ensures all == v * Power128(n) && low == v % 128 * Power128(n) && high == v / 128 * Power128(n + 1)
    ensures low <= all < TWO_TO_32 && high + low == all
    ensures n == 4 ==> v < 16
  {
    Power128Values();
    assert Power128(0) == 1 && Power128(1) == 128 && Power128(2) == 16384 && Power128(3) == 2097152;
    assert Power128(4) == 0x1000_0000;
    all, low, high := v * Power128(n), v % 128 * Power128(n), v / 128 * Power128(n + 1);
  }

  lemma {:induction false} VarintFits32(v: nat, rest: Bytes, n: nat, r: nat)
    requires n < 5 && v * Power128(n) + r < TWO_TO_32
    ensures Continue32(Varint(v) + rest, n, r) == Some((v * Power128(n) + r, rest))
    decreases v
  {
    var s := Varint(v) + rest;
    assert v < 128 ==> s[0] == v && s[1..] == rest;
    assert v >= 128 ==> s[0] == v % 128 + 128 && s[1..] == Varint(v / 128) + rest;
    hide *;
    var all, low, high := Product(v, n, r);
    if v < 128 {
      LastByte(s, n, r, low);
    } else {
      InnerByte(s, n, r, low);
      VarintFits32(v / 128, rest, n + 1, r + low);
    }
  }

  lemma Read32Varint(v: nat, rest: Bytes)
    requires v < TWO_TO_32
    ensures Read32(Varint(v) + rest) == Some((v, rest))
  {
    hide Varint, Continue32;
    assert Power128(0) == 1;
    VarintFits32(v, rest, 0, 0);
  }

  lemma LastByteFits(s: Bytes, n: nat, r: nat)
    requires s != [] && s[0] < 128 && n < 5 && r < Power128(n)
    ensures var sum := s[0] * Power128(n) + r;
      Continue32(s, n, r) == if sum < TWO_TO_32 then Some((sum, s[1..])) else None
  {
    Power128Values();
    assert Power128(0) == 1 && Power128(1) == 128 && Power128(2) == 16384 && Power128(3) == 2097152;
    assert Power128(4) == 0x1000_0000;
    var low := s[0] * Power128(n);
    if n < 4 || s[0] < 16 {
      LastByte(s, n, r, low);
    } else {
      assert s[0] / 16 % 8 != 0;
    }
  }

  lemma InnerSum(b: nat, v: nat, n: nat, r: nat) returns (low: nat)
    requires n < 4 && b < 128 && r < Power128(n)
    ensures low == b * Power128(n) < TWO_TO_32 && r + low < Power128(n + 1)
    ensures v * Power128(n + 1) + (r + low) == (b + 128 * v) * Power128(n) + r
  {
    Power128Values();
    assert Power128(0) == 1 && Power128(1) == 128 && Power128(2) == 16384 && Power128(3) == 2097152;
    low := b * Power128(n);
  }

  lemma {:induction false} ShortVarint(s: Bytes, n: nat, r: nat)
    requires n < 5 && r < Power128(n) && ReadVarint(s, 5 - n).Some?
    ensures var (v, k) := ReadVarint(s, 5 - n).value;
      Continue32(s, n, r) == if v * Power128(n) + r < TWO_TO_32 then Some((v * Power128(n) + r, s[k..])) else None
    decreases |s|
  {
    hide Power128, Continue32;
    if s[0] < 128 {
      LastByteFits(s, n, r);
    } else {
      var (v, k) := ReadVarint(s[1..], 4 - n).value;
      var low := InnerSum(s[0] - 128, v, n, r);
      InnerByte(s, n, r, low);
      ShortVarint(s[1..], n + 1, r + low);
      assert s[1..][k..] == s[k + 1..];
    }
  }

  /** A varint of up to five bytes is read as a 32-bit number just if it is one. */
  lemma ShortVarintsAreRead(s: Bytes)
    requires ReadVarint(s, 5).Some?
    ensures var (v, k) := ReadVarint(s, 5).value; Read32(s) == if v < TWO_TO_32 then Some((v, s[k..])) else None
  {
    hide Continue32, ReadVarint;
    assert Power128(0) == 1;
    ShortVarint(s, 0, 0);
  }

  lemma ReadPrefixedString(b: Bytes, rest: Bytes)
    requires |b| < TWO_TO_32
    ensures ReadString(Prefixed(b) + rest) == Some((b, rest))
  {
    hide Varint, Read32;
    assert Prefixed(b) + rest == Varint(|b|) + (b + rest);
    Read32Varint(|b|, b + rest);
    assert (b + rest)[..|b|] == b && (b + rest)[|b|..] == rest;
  }

  lemma TagRoundTrip(wire: nat, tag: nat, rest: Bytes)
    requires wire < 8 && 0 < tag < MAX_TAG
    ensures ReadTag(TagBytes(wire, tag) + rest) == Tag(wire, tag, rest)
    ensures |TagBytes(wire, tag)| > 0
  {
    hide Varint, Read32;
    Read32Varint(8 * tag + wire, rest);
  }

  lemma SignExtensionIsUndone(n: int, size: nat)
    requires ValidSize(size) && -Half(size) <= n < Half(size)
    ensures (if size == 8 then Signed64(SignExtended(n)) else Signed32(SignExtended(n))) == n
  {
  }

  lemma ZigZagIsUndone(n: int)
    requires -0x8000_0000_0000_0000 <= n < 0x8000_0000_0000_0000
    ensures UnZigZag(ZigZagOf(n)) == n
  {
  }

  lemma SignedRoundTrip(f: Field, v: Value, rest: Bytes)
    requires f.kind.Signed? && FitsValue(f, v) && EncodedValue(f, v).Some?
    ensures DecodedNumber(f, EncodedValue(f, v).value + rest) == Some((v, rest))
  {
    hide Varint, ReadNumber, SignExtended, Signed64, Signed32, Half;
    SignExtensionIsUndone(v.n, f.dataSize);
    Coding.NumberRoundTrip(SignExtended(v.n), rest);
  }

  lemma ZigZagRoundTrip(f: Field, v: Value, rest: Bytes)
    requires f.kind.ZigZag? && FitsValue(f, v) && EncodedValue(f, v).Some?
    ensures DecodedNumber(f, EncodedValue(f, v).value + rest) == Some((v, rest))
  {
    hide Varint, ReadNumber, ZigZagOf, UnZigZag, Half;
    ZigZagIsUndone(v.n);
    Coding.NumberRoundTrip(ZigZagOf(v.n), rest);
  }

  lemma FixedRoundTrips(f: Field, v: Value, rest: Bytes)
    requires (f.kind.Fixed32? || f.kind.Fixed64?) && FitsValue(f, v) && EncodedValue(f, v).Some?
    ensures DecodedNumber(f, EncodedValue(f, v).value + rest) == Some((v, rest))
  {
    hide Fixed, FixedValue;
    var s := EncodedValue(f, v).value + rest;
    if f.kind.Fixed32? {
      Fixed32RoundTrip(v.n);
      assert s[..4] == Fixed(v.n, 4) && s[4..] == rest;
    } else {
      Fixed64RoundTrip(v.n);
      assert s[..8] == Fixed(v.n, 8) && s[8..] == rest;
    }
  }

  /** Sign extension, zigzag and fixed width: every number comes back. */
  lemma NumberRoundTrip(f: Field, v: Value, rest: Bytes)
    requires Packable(f.kind) && FitsValue(f, v) && EncodedValue(f, v).Some?
    ensures DecodedNumber(f, EncodedValue(f, v).value + rest) == Some((v, rest))
  {
    if f.kind.Signed? {
      SignedRoundTrip(f, v, rest);
    } else if f.kind.ZigZag? {
      ZigZagRoundTrip(f, v, rest);
    } else if f.kind.Fixed32? || f.kind.Fixed64? {
      FixedRoundTrips(f, v, rest);
    } else if f.kind.Boolean? {
      hide Varint, Read32;
      Read32Varint(if v.n != 0 then 1 else 0, rest);
    } else {
      hide Varint, ReadNumber, Half;
      Coding.NumberRoundTrip(v.n, rest);
    }
  }

  /** A string that fills its storage has no room for its end. */
  predicate Ends(f: Field, v: Value)
    requires v.Blob?
  {
    f.kind.Text? ==> |v.bytes| < f.dataSize
  }

  lemma BlobRoundTrip(f: Field, v: Value, rest: Bytes)
    requires f.kind.ByteArray? || f.kind.Text? || f.kind.FixedArray?
    requires f.dataSize < TWO_TO_32 && FitsValue(f, v) && EncodedValue(f, v).Some?
    ensures DecodedBlob(f, EncodedValue(f, v).value + rest) == if Ends(f, v) then Some((v, rest)) else None
  {
    hide Varint, Read32, UntilZero, Zeros;
    var b := v.bytes;
    assert Prefixed(b) + rest == Varint(|b|) + (b + rest);
    Read32Varint(|b|, b + rest);
    assert (b + rest)[..|b|] == b && (b + rest)[|b|..] == rest;
    assert |b| == 0 ==> b == Zeros(0);
  }

  // ------------------------------------------------------------------------------ defaults

  lemma {:induction false} DefaultsAt(fields: seq<Field>, n: nat, i: nat)
    requires i < n <= |fields|
    ensures |Defaults(fields, n)| == SlotOf(fields, n - 1) + 1
    ensures SlotOf(fields, i) < |Defaults(fields, n)|
    ensures Defaults(fields, n)[SlotOf(fields, i)] == DefaultSlot(fields[i])
    decreases n
  {
    hide Default;
    SlotsGrow(fields, i, n - 1);
    if n > 1 {
      DefaultsAt(fields, n - 1, if i == n - 1 then n - 2 else i);
    } else {
      assert Defaults(fields, 0) == [];
    }
  }

  lemma DefaultsShape(fields: seq<Field>)
    ensures |Defaults(fields, |fields|)| == SlotCount(fields)
    ensures forall i :: 0 <= i < |fields| ==>
              SlotOf(fields, i) < SlotCount(fields)
              && Defaults(fields, |fields|)[SlotOf(fields, i)] == DefaultSlot(fields[i])
  {
    hide DefaultSlot, Defaults, SlotOf;
    if fields == [] {
      NoDefaults();
    }
    forall i | 0 <= i < |fields|
      ensures SlotOf(fields, i) < SlotCount(fields)
      ensures |Defaults(fields, |fields|)| == SlotCount(fields)
      ensures Defaults(fields, |fields|)[SlotOf(fields, i)] == DefaultSlot(fields[i])
    {
      DefaultsAt(fields, |fields|, i);
    }
    if fields != [] {
      DefaultsAt(fields, |fields|, 0);
    }
  }

  lemma NoDefaults()
    ensures Defaults([], 0) == []
  {
  }

  lemma FitsAt(fields: seq<Field>, slots: seq<Slot>, k: nat)
    requires FitsSlots(fields, slots) && k < |fields|
    ensures |slots| == SlotCount(fields) && SlotOf(fields, k) < |slots| && FitsSlot(fields[k], slots[SlotOf(fields, k)])
  {
    hide FitsSlot, SlotOf;
  }

  lemma GoodAt(fields: seq<Field>, k: nat)
    requires GoodFields(fields) && k < |fields|
    ensures GoodField(fields[k])
  {
    hide GoodField;
  }

  lemma {:induction false} AllDefaultAt(fields: seq<Field>, slots: seq<Slot>, k: nat, i: nat)
    requires FitsSlots(fields, slots) && k <= i < |fields| && AllDefault(fields, slots, k)
    ensures SlotOf(fields, i) < |slots| && FitsSlot(fields[i], slots[SlotOf(fields, i)])
    ensures IsDefault(fields[i], slots[SlotOf(fields, i)])
    decreases i - k
  {
    hide IsDefault, FitsSlot, SlotOf;
    if k < i {
      AllDefaultAt(fields, slots, k + 1, i);
    }
  }

  /** What proto3 leaves out is what the decoder starts from. */
  lemma {:induction false} ZeroIsDefault(f: Field, v: Value)
    requires GoodField(f) && FitsValue(f, v) && f.rule.Singular? && IsZero(f, v)
    ensures SameValue(f, v, Default(f))
    decreases v, 0
  {
    hide FitsSlots, GoodFields, SameSlots, Defaults, AllDefault;
    if f.kind.Submessage? {
      ZeroSlotsAreDefaults(f.kind.fields, v.slots);
    }
  }

  lemma {:induction false} ZeroSlotsAreDefaults(fields: seq<Field>, slots: seq<Slot>)
    requires GoodFields(fields) && FitsSlots(fields, slots) && AllDefault(fields, slots, 0)
    ensures SameSlots(fields, slots, Defaults(fields, |fields|))
    decreases slots, 3
  {
    hide SameSlot, FitsSlot, IsDefault, SlotOf, Defaults, GoodField, DefaultSlot;
    DefaultsShape(fields);
    forall i | 0 <= i < |fields|
      ensures SlotOf(fields, i) < |slots|
      ensures SameSlot(fields[i], slots[SlotOf(fields, i)], Defaults(fields, |fields|)[SlotOf(fields, i)])
    {
      FitsAt(fields, slots, i);
      GoodAt(fields, i);
      AllDefaultAt(fields, slots, 0, i);
      DefaultSlotIsSame(fields[i], slots[SlotOf(fields, i)]);
    }
  }

  lemma {:induction false} DefaultSlotIsSame(f: Field, s: Slot)
    requires GoodField(f) && FitsSlot(f, s) && IsDefault(f, s)
    ensures SameSlot(f, s, DefaultSlot(f))
    decreases s, 1
  {
    hide SameValue, GoodFields;
    if f.rule.Singular? {
      ZeroIsDefault(f, s.v);
    }
  }

  // ------------------------------------------------------------------- strings that end

  predicate EndsValue(f: Field, v: Value)
    requires FitsValue(f, v)
    decreases v, 1
  {
    match f.kind
    case Submessage(fields) => EndsFields(fields, v.slots, 0)
    case Text => |v.bytes| < f.dataSize
    case _ => true
  }

  predicate EndsItems(f: Field, items: seq<Value>)
    requires AllFit(f, items)
    decreases items, 2
  {
    items == [] || (EndsValue(f, items[0]) && EndsItems(f, items[1..]))
  }

  /** Every string in the slot that is sent ends within its storage. */
  predicate EndsSlot(f: Field, s: Slot)
    requires FitsSlot(f, s)
    decreases s, 3
  {
    match f.rule
    case Required => EndsValue(f, s.v)
    case Optional => s.has ==> EndsValue(f, s.v)
    case Singular => IsDefault(f, s) || EndsValue(f, s.v)
    case Repeated(_) => EndsItems(f, s.items)
    case OneOf => s.tag == f.tag ==> EndsValue(f, s.v)
  }

  predicate EndsFields(fields: seq<Field>, slots: seq<Slot>, k: nat)
    requires FitsSlots(fields, slots) && k <= |fields|
    decreases slots, |fields| - k
  {
    k == |fields| || (EndsSlot(fields[k], slots[SlotOf(fields, k)]) && EndsFields(fields, slots, k + 1))
  }

  // ------------------------------------------------------------------------ one step of the loop

  lemma {:induction false} FieldWithIs(fields: seq<Field>, i: nat)
    requires i < |fields| && forall j, k :: 0 <= j < k < |fields| ==> fields[j].tag != fields[k].tag
    ensures FieldWith(fields, fields[i].tag) == Some(i)
  {
  }

  function AfterField(fields: seq<Field>, st: seq<Slot>, seen: set<nat>, i: nat,
                      r: Option<(Slot, Bytes)>): Option<seq<Slot>>
    requires i < |fields| && SlotOf(fields, i) < |st|
  {
    match r
    case None => None
    case Some((slot, rest)) => DecodedFields(fields, st[SlotOf(fields, i) := slot], Mark(fields, i, seen), rest)
  }

  /** The decoder reads a tag, finds its field, and reads the field. */
  lemma LoopStep(fields: seq<Field>, st: seq<Slot>, seen: set<nat>, i: nat, wire: nat, payload: Bytes)
    requires GoodFields(fields) && i < |fields| && SlotOf(fields, i) < |st| && wire < 8
    ensures DecodedFields(fields, st, seen, TagBytes(wire, fields[i].tag) + payload)
         == AfterField(fields, st, seen, i, DecodedField(fields[i], st[SlotOf(fields, i)], wire, payload))
  {
    FieldWithIs(fields, i);
    GoodAt(fields, i);
    assert 0 < fields[i].tag < MAX_TAG;
    hide GoodFields, TagBytes, ReadTag, DecodedField, Mark, SlotOf, FieldWith, AllSeen;
    TagRoundTrip(wire, fields[i].tag, payload);
  }

  // ------------------------------------------------------------------------- the induction

  /** Nothing has been read yet for the field. */
  ghost predicate Untouched(f: Field, s: Slot) {
    if f.rule.OneOf? then s.Choice? && s.tag != f.tag else s == DefaultSlot(f)
  }

  ghost predicate GoodEntry(f: Field, v: Value) {
    GoodField(f) && FitsValue(f, v) && EncodedValue(f, v).Some? && |EncodedValue(f, v).value| < TWO_TO_32
  }

  lemma {:induction false} ValueRoundTrip(f: Field, v: Value, held: Value, rest: Bytes)
    requires GoodEntry(f, v)
    requires f.kind.Submessage? && !f.rule.Repeated? ==> held == Default(f)
    ensures var r := DecodedValue(f, held, EncodedValue(f, v).value + rest);
      if EndsValue(f, v) then r.Some? && r.value.1 == rest && SameValue(f, v, r.value.0) else r.None?
    decreases v, 10
  {
    if f.kind.Submessage? {
      SubmessageRoundTrip(f, v, held, rest);
    } else if Packable(f.kind) {
      NumberRoundTrip(f, v, rest);
    } else {
      BlobRoundTrip(f, v, rest);
    }
  }

  lemma {:induction false} SubmessageRoundTrip(f: Field, v: Value, held: Value, rest: Bytes)
    requires GoodEntry(f, v) && f.kind.Submessage? && (!f.rule.Repeated? ==> held == Default(f))
    ensures var r := DecodedValue(f, held, EncodedValue(f, v).value + rest);
      if EndsValue(f, v) then r.Some? && r.value.1 == rest && SameValue(f, v, r.value.0) else r.None?
    decreases v, 9
  {
    hide EncodedFields, DecodedFields, SameSlots, GoodFields, FitsSlots, EndsFields, ReadString, Prefixed, Defaults;
    var fields := f.kind.fields;
    var b := EncodedFields(fields, v.slots, 0).value;
    PrefixedIsLonger(b);
    ReadPrefixedString(b, rest);
    MessageRoundTrip(fields, v.slots);
  }

  lemma PrefixedIsLonger(b: Bytes)
    ensures |Prefixed(b)| > |b|
  {
  }

  /** The struct after the first k fields have been decoded. */
  ghost predicate Partly(fields: seq<Field>, slots: seq<Slot>, k: nat, st: seq<Slot>, seen: set<nat>)
    requires k <= |fields|
  {
    && |slots| == |st| == SlotCount(fields)
    && (forall i :: 0 <= i < |fields| ==> SlotOf(fields, i) < |st|)
    && (forall i :: 0 <= i < k ==> SameSlot(fields[i], slots[SlotOf(fields, i)], st[SlotOf(fields, i)]))
    && (forall i :: k <= i < |fields| ==> Untouched(fields[i], st[SlotOf(fields, i)]))
    && (forall r: nat :: r < RequiredBefore(fields, k) && r < MAX_REQUIRED ==> r in seen)
  }

  lemma {:induction false} MessageRoundTrip(fields: seq<Field>, slots: seq<Slot>)
    requires GoodFields(fields) && FitsSlots(fields, slots)
    requires EncodedFields(fields, slots, 0).Some? && |EncodedFields(fields, slots, 0).value| < TWO_TO_32
    ensures var r := DecodedFields(fields, Defaults(fields, |fields|), {}, EncodedFields(fields, slots, 0).value);
      if EndsFields(fields, slots, 0) then r.Some? && SameSlots(fields, slots, r.value) else r.None?
    decreases slots, |fields| + 8
  {
    hide EncodedFields, DecodedFields, GoodFields, EndsFields, FitsSlots, SameSlots, SameSlot, FitsSlot, SlotOf,
         Defaults, Partly;
    StartsPartly(fields, slots);
    RestRoundTrip(fields, slots, 0, Defaults(fields, |fields|), {});
  }

  lemma DefaultIsUntouched(f: Field)
    requires f.tag > 0
    ensures Untouched(f, DefaultSlot(f))
  {
    hide Default;
  }

  lemma StartsPartly(fields: seq<Field>, slots: seq<Slot>)
    requires GoodFields(fields) && FitsSlots(fields, slots)
    ensures Partly(fields, slots, 0, Defaults(fields, |fields|), {})
  {
    DefaultsShape(fields);
    forall i | 0 <= i < |fields| ensures Untouched(fields[i], DefaultSlot(fields[i])) {
      GoodAt(fields, i);
      DefaultIsUntouched(fields[i]);
    }
    hide GoodFields, FitsSlot, SlotOf, Defaults, SameSlot, Untouched, DefaultSlot;
  }

  /** The slot a single value v' is stored in. */
  function StoredSlot(f: Field, v: Value): Slot
    requires !f.rule.Repeated?
  {
    if f.rule.OneOf? then Choice(f.tag, v) else if f.rule.Optional? then Flagged(true, v) else Single(v)
  }

  lemma FreshFieldStep(f: Field, slot: Slot, wire: nat, s: Bytes)
    requires !f.rule.Repeated? && Untouched(f, slot)
    ensures DecodedField(f, slot, wire, s)
         == match DecodedValue(f, Default(f), s)
            case None => None
            case Some((v, rest)) => Some((StoredSlot(f, v), rest))
  {
    hide DecodedValue, Default;
  }

  lemma EntryIs(f: Field, v: Value, rest: Bytes)
    requires FitsValue(f, v) && EncodedEntry(f, v).Some?
    ensures EncodedValue(f, v).Some? && |EncodedValue(f, v).value| <= |EncodedEntry(f, v).value|
    ensures EncodedEntry(f, v).value + rest
         == TagBytes(WireType(f.kind), f.tag) + (EncodedValue(f, v).value + rest)
  {
    hide FitsValue, EncodedValue, TagBytes;
  }

  lemma {:induction false} EntryRoundTrip(fields: seq<Field>, k: nat, v: Value, st: seq<Slot>, seen: set<nat>,
                                          rest: Bytes)
    returns (v': Value)
    requires GoodFields(fields) && k < |fields| && SlotOf(fields, k) < |st| && !fields[k].rule.Repeated?
    requires Untouched(fields[k], st[SlotOf(fields, k)]) && FitsValue(fields[k], v)
    requires EncodedEntry(fields[k], v).Some? && |EncodedEntry(fields[k], v).value| < TWO_TO_32
    ensures var r := DecodedFields(fields, st, seen, EncodedEntry(fields[k], v).value + rest);
      if EndsValue(fields[k], v) then
        && SameValue(fields[k], v, v')
        && r == DecodedFields(fields, st[SlotOf(fields, k) := StoredSlot(fields[k], v')], Mark(fields, k, seen), rest)
      else r.None?
    decreases v, 11
  {
    hide FitsValue, EncodedValue, EndsValue, SameValue, DecodedFields, DecodedField, GoodFields, GoodField, SlotOf,
         Mark,
         TagBytes, DecodedValue, EncodedEntry, Untouched, StoredSlot, Default;
    var f := fields[k];
    GoodAt(fields, k);
    EntryIs(f, v, rest);
    LoopStep(fields, st, seen, k, WireType(f.kind), EncodedValue(f, v).value + rest);
    FreshFieldStep(f, st[SlotOf(fields, k)], WireType(f.kind), EncodedValue(f, v).value + rest);
    ValueRoundTrip(f, v, Default(f), rest);
    var r := DecodedValue(f, Default(f), EncodedValue(f, v).value + rest);
    v' := if r.Some? then r.value.0 else v;
  }

  /** The items of a packed array, into one that has room for them. */
  lemma {:induction false} PackedRoundTrip(f: Field, max: nat, items: seq<Value>, done: seq<Value>)
    requires Packable(f.kind) && AllFit(f, items) && |done| + |items| <= max
    requires EncodedItems(f, items).Some?
    ensures DecodedItems(f, max, done, EncodedItems(f, items).value) == Some(done + items)
    decreases items
  {
    hide FitsValue, EncodedValue, DecodedNumber;
    if items == [] {
      assert done + [] == done;
    } else {
      var tail := EncodedItems(f, items[1..]).value;
      NumberRoundTrip(f, items[0], tail);
      NumberTakesBytes(f, items[0], tail);
      PackedRoundTrip(f, max, items[1..], done + [items[0]]);
      assert done + [items[0]] + items[1..] == done + items;
    }
  }

  lemma NumberTakesBytes(f: Field, v: Value, rest: Bytes)
    requires Packable(f.kind) && FitsValue(f, v) && EncodedValue(f, v).Some?
    ensures EncodedValue(f, v).value + rest != []
  {
  }

  lemma {:induction false} PackedEnds(f: Field, items: seq<Value>)
    requires Packable(f.kind) && AllFit(f, items)
    ensures EndsItems(f, items)
    decreases items
  {
    hide FitsValue;
    if items != [] {
      PackedEnds(f, items[1..]);
    }
  }

  lemma {:induction false} PackedArrayRoundTrip(fields: seq<Field>, k: nat, items: seq<Value>, st: seq<Slot>,
                                                seen: set<nat>,
                                                rest: Bytes)
    requires GoodFields(fields) && k < |fields| && SlotOf(fields, k) < |st| && st[SlotOf(fields, k)] == Many([])
    requires fields[k].rule.Repeated? && Packable(fields[k].kind) && AllFit(fields[k], items) && items != []
    requires EncodedArray(fields[k], items).Some? && |EncodedArray(fields[k], items).value| < TWO_TO_32
    ensures DecodedFields(fields, st, seen, EncodedArray(fields[k], items).value + rest)
         == DecodedFields(fields, st[SlotOf(fields, k) := Many(items)], seen, rest)
  {
    hide FitsValue, EncodedItems, DecodedItems, DecodedFields, DecodedField, GoodFields, SlotOf, TagBytes, Prefixed,
         ReadString;
    var f := fields[k];
    var data := EncodedItems(f, items).value;
    PrefixedIsLonger(data);
    assert EncodedArray(f, items).value + rest == TagBytes(WIRE_STRING, f.tag) + (Prefixed(data) + rest);
    LoopStep(fields, st, seen, k, WIRE_STRING, Prefixed(data) + rest);
    ReadPrefixedString(data, rest);
    PackedRoundTrip(f, f.rule.arraySize, items, []);
    assert [] + items == items;
    PackedStep(f, Prefixed(data) + rest, data, rest, items);
  }

  lemma PackedStep(f: Field, s: Bytes, data: Bytes, rest: Bytes, items: seq<Value>)
    requires f.rule.Repeated? && Packable(f.kind) && ReadString(s) == Some((data, rest))
    requires DecodedItems(f, f.rule.arraySize, [], data) == Some(items)
    ensures DecodedField(f, Many([]), WIRE_STRING, s) == Some((Many(items), rest))
  {
    hide ReadString, DecodedItems;
  }

  lemma EntriesStep(f: Field, items: seq<Value>, rest: Bytes)
    requires AllFit(f, items) && items != [] && EncodedEntries(f, items).Some?
    ensures EncodedEntry(f, items[0]).Some? && EncodedEntries(f, items[1..]).Some?
    ensures EncodedEntries(f, items).value + rest
         == EncodedEntry(f, items[0]).value + (EncodedEntries(f, items[1..]).value + rest)
    ensures |EncodedEntry(f, items[0]).value| <= |EncodedEntries(f, items).value|
    ensures |EncodedEntries(f, items[1..]).value| <= |EncodedEntries(f, items).value|
  {
    hide FitsValue, EncodedEntry;
  }

  lemma RepeatedStep(f: Field, done: seq<Value>, wire: nat, s: Bytes)
    requires f.rule.Repeated? && !Packable(f.kind) && |done| < f.rule.arraySize
    ensures DecodedField(f, Many(done), wire, s)
         == match DecodedValue(f, Default(f), s)
            case None => None
            case Some((v, rest)) => Some((Many(done + [v]), rest))
  {
    hide DecodedValue, Default;
  }

  /** The tagged entries of an array that cannot be packed, one after another. */
  lemma {:induction false} EntriesRoundTrip(fields: seq<Field>, k: nat, items: seq<Value>, done: seq<Value>,
                                            st: seq<Slot>, seen: set<nat>, rest: Bytes)
    returns (all: seq<Value>)
    requires GoodFields(fields) && k < |fields| && SlotOf(fields, k) < |st| && st[SlotOf(fields, k)] == Many(done)
    requires fields[k].rule.Repeated? && !Packable(fields[k].kind) && AllFit(fields[k], items)
    requires |done| + |items| <= fields[k].rule.arraySize
    requires EncodedEntries(fields[k], items).Some? && |EncodedEntries(fields[k], items).value| < TWO_TO_32
    ensures var r := DecodedFields(fields, st, seen, EncodedEntries(fields[k], items).value + rest);
      if EndsItems(fields[k], items) then
        && SameItems(fields[k], items, all)
        && r == DecodedFields(fields, st[SlotOf(fields, k) := Many(done + all)], seen, rest)
      else r.None?
    decreases items, 12
  {
    hide FitsValue, EncodedValue, EndsValue, SameValue, DecodedFields, DecodedField, GoodFields, GoodField, SlotOf,
         TagBytes, DecodedValue, EncodedEntry, EncodedEntries, Default;
    var f := fields[k];
    if items == [] {
      all := [];
      NoEntries(f);
      assert [] + rest == rest && done + [] == done;
      assert st[SlotOf(fields, k) := Many(done)] == st;
    } else {
      GoodAt(fields, k);
      EntriesStep(f, items, rest);
      var more := EncodedEntries(f, items[1..]).value + rest;
      EntryIs(f, items[0], more);
      LoopStep(fields, st, seen, k, WireType(f.kind), EncodedValue(f, items[0]).value + more);
      RepeatedStep(f, done, WireType(f.kind), EncodedValue(f, items[0]).value + more);
      ValueRoundTrip(f, items[0], Default(f), more);
      if EndsValue(f, items[0]) {
        var v := DecodedValue(f, Default(f), EncodedValue(f, items[0]).value + more).value.0;
        var st' := st[SlotOf(fields, k) := Many(done + [v])];
        var tail := EntriesRoundTrip(fields, k, items[1..], done + [v], st', seen, rest);
        all := [v] + tail;
        assert done + [v] + tail == done + all;
        assert st'[SlotOf(fields, k) := Many(done + all)] == st[SlotOf(fields, k) := Many(done + all)];
        assert Mark(fields, k, seen) == seen;
      } else {
        all := [];
      }
    }
  }

  lemma NoEntries(f: Field)
    ensures EncodedEntries(f, []) == Some([]) && EndsItems(f, [])
  {
  }

  /** A field's slot before and after its bytes were read. */
  ghost predicate FieldRead(f: Field, slot: Slot, before: Slot, after: Slot) {
    && SameSlot(f, slot, after)
    && (f.rule.OneOf? ==>
          if slot.Choice? && slot.tag == f.tag then after.Choice? && after.tag == f.tag else after == before)
  }

  /** A field that was sent, or one that was left out. */
  predicate IsSent(f: Field, s: Slot)
    requires FitsSlot(f, s)
  {
    match f.rule
    case Required => true
    case Optional => s.has
    case Singular => !IsDefault(f, s)
    case Repeated(_) => s.items != []
    case OneOf => s.tag == f.tag
  }

  lemma LeftOutField(f: Field, slot: Slot, before: Slot)
    requires GoodField(f) && FitsSlot(f, slot) && !IsSent(f, slot) && Untouched(f, before)
    ensures EncodedField(f, slot) == Some([]) && EndsSlot(f, slot) && FieldRead(f, slot, before, before)
    ensures !f.rule.Required?
  {
    hide SameValue, FitsValue, GoodField, Default, IsZero, EndsValue, EncodedEntry;
    match f.rule {
      case Singular =>
        assert IsZero(f, slot.v) by { SingularIsZero(f, slot); }
        ZeroIsDefault(f, slot.v);
        assert SameSlot(f, slot, before);
      case Repeated(_) =>
        assert EndsItems(f, slot.items) && SameItems(f, slot.items, []);
        assert SameSlot(f, slot, before);
      case Optional => assert SameSlot(f, slot, before);
      case OneOf => assert SameSlot(f, slot, before);
      case Required =>
    }
  }

  lemma SingularIsZero(f: Field, slot: Slot)
    requires f.rule.Singular? && FitsSlot(f, slot) && IsDefault(f, slot)
    ensures IsZero(f, slot.v)
  {
    hide FitsValue, IsZero;
  }

  lemma SentField(f: Field, slot: Slot)
    requires FitsSlot(f, slot) && IsSent(f, slot) && !f.rule.Repeated?
    ensures !slot.Many? && FitsValue(f, slot.v) && EncodedField(f, slot) == EncodedEntry(f, slot.v)
    ensures EndsSlot(f, slot) <==> EndsValue(f, slot.v)
    ensures forall v :: SameValue(f, slot.v, v) ==> SameSlot(f, slot, StoredSlot(f, v))
    ensures f.rule.OneOf? ==> slot.Choice? && slot.tag == f.tag
  {
    hide SameValue, FitsValue, EncodedEntry, EndsValue, IsDefault;
  }

  lemma {:induction false} FieldRoundTrip(fields: seq<Field>, k: nat, slot: Slot, st: seq<Slot>, seen: set<nat>,
                                          rest: Bytes)
    returns (slot': Slot)
    requires GoodFields(fields) && k < |fields| && SlotOf(fields, k) < |st| && FitsSlot(fields[k], slot)
    requires Untouched(fields[k], st[SlotOf(fields, k)])
    requires EncodedField(fields[k], slot).Some? && |EncodedField(fields[k], slot).value| < TWO_TO_32
    ensures var r := DecodedFields(fields, st, seen, EncodedField(fields[k], slot).value + rest);
      if EndsSlot(fields[k], slot) then
        && FieldRead(fields[k], slot, st[SlotOf(fields, k)], slot')
        && r == DecodedFields(fields, st[SlotOf(fields, k) := slot'], Mark(fields, k, seen), rest)
      else r.None?
    decreases slot, 20
  {
    var f, at := fields[k], SlotOf(fields, k);
    GoodAt(fields, k);
    hide FitsValue, EncodedEntry, EndsValue, SameValue, DecodedFields, GoodFields, GoodField, SlotOf, EncodedArray,
         EndsItems,
         Default, StoredSlot, SameSlot, EndsSlot, EncodedField, IsDefault, Untouched;
    slot' := st[at];
    if !IsSent(f, slot) {
      LeftOutField(f, slot, st[at]);
      assert [] + rest == rest && st[at := st[at]] == st;
    } else if f.rule.Repeated? {
      slot' := ArrayRoundTrip(fields, k, slot, st, seen, rest);
    } else {
      SentField(f, slot);
      var v := EntryRoundTrip(fields, k, slot.v, st, seen, rest);
      slot' := StoredSlot(f, v);
      StoredChoice(f, v);
    }
  }

  lemma StoredChoice(f: Field, v: Value)
    requires !f.rule.Repeated?
    ensures f.rule.OneOf? ==> StoredSlot(f, v) == Choice(f.tag, v)
  {
  }

  lemma ArrayFacts(f: Field, slot: Slot)
    requires f.rule.Repeated? && FitsSlot(f, slot)
    ensures slot.Many? && AllFit(f, slot.items) && EncodedField(f, slot) == EncodedArray(f, slot.items)
    ensures EndsSlot(f, slot) <==> EndsItems(f, slot.items)
    ensures forall items :: SameItems(f, slot.items, items) ==> SameSlot(f, slot, Many(items))
  {
    hide EncodedArray, EndsItems, SameItems, FitsValue;
  }

  lemma PackedIsSame(f: Field, items: seq<Value>)
    requires Packable(f.kind)
    ensures SameItems(f, items, items)
  {
  }

  lemma ArrayParts(f: Field, items: seq<Value>)
    requires f.rule.Repeated? && AllFit(f, items) && items != [] && EncodedArray(f, items).Some?
    ensures |items| <= f.rule.arraySize
    ensures !Packable(f.kind) ==> EncodedArray(f, items) == EncodedEntries(f, items)
  {
    hide EncodedEntries, EncodedItems, FitsValue;
  }

  lemma {:induction false} ArrayRoundTrip(fields: seq<Field>, k: nat, slot: Slot, st: seq<Slot>, seen: set<nat>,
                                          rest: Bytes)
    returns (slot': Slot)
    requires GoodFields(fields) && k < |fields| && SlotOf(fields, k) < |st| && FitsSlot(fields[k], slot)
    requires fields[k].rule.Repeated? && IsSent(fields[k], slot) && Untouched(fields[k], st[SlotOf(fields, k)])
    requires EncodedField(fields[k], slot).Some? && |EncodedField(fields[k], slot).value| < TWO_TO_32
    ensures var r := DecodedFields(fields, st, seen, EncodedField(fields[k], slot).value + rest);
      if EndsSlot(fields[k], slot) then
        && FieldRead(fields[k], slot, st[SlotOf(fields, k)], slot')
        && r == DecodedFields(fields, st[SlotOf(fields, k) := slot'], Mark(fields, k, seen), rest)
      else r.None?
    decreases slot, 19
  {
    var f := fields[k];
    assert st[SlotOf(fields, k)] == Many([]) && Mark(fields, k, seen) == seen && slot.items != [];
    hide FitsValue, EncodedArray, EncodedEntries, EndsItems, SameItems, DecodedFields, GoodFields, SlotOf, EndsSlot,
         SameSlot,
         EncodedField, Default, FitsSlot, Untouched;
    ArrayFacts(f, slot);
    ArrayParts(f, slot.items);
    if Packable(f.kind) {
      PackedArrayRoundTrip(fields, k, slot.items, st, seen, rest);
      PackedEnds(f, slot.items);
      PackedIsSame(f, slot.items);
      slot' := slot;
    } else {
      var all := EntriesRoundTrip(fields, k, slot.items, [], st, seen, rest);
      assert [] + all == all;
      slot' := Many(all);
    }
  }

  // -------------------------------------------------------------------------- all the fields

  lemma PartlyAt(fields: seq<Field>, slots: seq<Slot>, k: nat, st: seq<Slot>, seen: set<nat>)
    requires k < |fields| && Partly(fields, slots, k, st, seen)
    ensures SlotOf(fields, k) < |st| == |slots| && Untouched(fields[k], st[SlotOf(fields, k)])
  {
    hide Untouched, SameSlot, SlotOf;
  }

  /** Reading one field disturbs no other, not even another member of its union. */
  lemma OtherFieldStays(fields: seq<Field>, slots: seq<Slot>, k: nat, st: seq<Slot>, slot': Slot, i: nat)
    requires GoodFields(fields) && i < |fields| && k < |fields| && i != k
    requires |slots| == |st| && SlotOf(fields, k) < |st| && SlotOf(fields, i) < |st|
    requires FieldRead(fields[k], slots[SlotOf(fields, k)], st[SlotOf(fields, k)], slot')
    ensures var st' := st[SlotOf(fields, k) := slot'];
      && (SameSlot(fields[i], slots[SlotOf(fields, i)], st[SlotOf(fields, i)]) ==>
            SameSlot(fields[i], slots[SlotOf(fields, i)], st'[SlotOf(fields, i)]))
      && (Untouched(fields[i], st[SlotOf(fields, i)]) ==> Untouched(fields[i], st'[SlotOf(fields, i)]))
  {
    if SlotOf(fields, i) == SlotOf(fields, k) {
      SameSlotSameUnion(fields, if i < k then i else k, if i < k then k else i);
      assert fields[i].tag != fields[k].tag;
    }
    hide SameValue, SlotOf, GoodFields, DefaultSlot;
  }

  lemma PartlyAdvances(fields: seq<Field>, slots: seq<Slot>, k: nat, st: seq<Slot>, seen: set<nat>, slot': Slot)
    requires GoodFields(fields) && k < |fields| && Partly(fields, slots, k, st, seen) && SlotOf(fields, k) < |st|
    requires FieldRead(fields[k], slots[SlotOf(fields, k)], st[SlotOf(fields, k)], slot')
    ensures Partly(fields, slots, k + 1, st[SlotOf(fields, k) := slot'], Mark(fields, k, seen))
  {
    hide GoodFields, SameSlot, Untouched, SlotOf, RequiredBefore, FieldRead;
    var st' := st[SlotOf(fields, k) := slot'];
    FieldReadIsSame(fields[k], slots[SlotOf(fields, k)], st[SlotOf(fields, k)], slot');
    forall i | 0 <= i < k + 1 ensures SameSlot(fields[i], slots[SlotOf(fields, i)], st'[SlotOf(fields, i)]) {
      if i < k {
        OtherFieldStays(fields, slots, k, st, slot', i);
      }
    }
    forall i | k + 1 <= i < |fields| ensures Untouched(fields[i], st'[SlotOf(fields, i)]) {
      OtherFieldStays(fields, slots, k, st, slot', i);
    }
    MarkCovers(fields, k, seen);
  }

  lemma FieldReadIsSame(f: Field, slot: Slot, before: Slot, after: Slot)
    requires FieldRead(f, slot, before, after)
    ensures SameSlot(f, slot, after)
  {
  }

  lemma MarkCovers(fields: seq<Field>, k: nat, seen: set<nat>)
    requires k < |fields| && forall r: nat :: r < RequiredBefore(fields, k) && r < MAX_REQUIRED ==> r in seen
    ensures forall r: nat :: r < RequiredBefore(fields, k + 1) && r < MAX_REQUIRED ==> r in Mark(fields, k, seen)
  {
  }

  lemma PartlyDone(fields: seq<Field>, slots: seq<Slot>, st: seq<Slot>, seen: set<nat>)
    requires Partly(fields, slots, |fields|, st, seen)
    ensures DecodedFields(fields, st, seen, []) == Some(st) && SameSlots(fields, slots, st)
  {
    hide Untouched, SameSlot, SlotOf, RequiredBefore;
  }

  lemma SplitsFields(fields: seq<Field>, slots: seq<Slot>, k: nat)
    requires FitsSlots(fields, slots) && k < |fields| && EncodedFields(fields, slots, k).Some?
    ensures SlotOf(fields, k) < |slots| && FitsSlot(fields[k], slots[SlotOf(fields, k)])
    ensures EncodedField(fields[k], slots[SlotOf(fields, k)]).Some? && EncodedFields(fields, slots, k + 1).Some?
    ensures EncodedFields(fields, slots, k).value
         == EncodedField(fields[k], slots[SlotOf(fields, k)]).value + EncodedFields(fields, slots, k + 1).value
    ensures EndsFields(fields, slots, k) <==>
              (EndsSlot(fields[k], slots[SlotOf(fields, k)]) && EndsFields(fields, slots, k + 1))
  {
    hide FitsSlot, EncodedField, EndsSlot, SlotOf;
  }

  lemma NoFieldsLeft(fields: seq<Field>, slots: seq<Slot>)
    requires FitsSlots(fields, slots)
    ensures EncodedFields(fields, slots, |fields|) == Some([]) && EndsFields(fields, slots, |fields|)
  {
    hide FitsSlots;
  }

  lemma {:induction false} RestRoundTrip(fields: seq<Field>, slots: seq<Slot>, k: nat, st: seq<Slot>, seen: set<nat>)
    requires GoodFields(fields) && FitsSlots(fields, slots) && k <= |fields| && Partly(fields, slots, k, st, seen)
    requires EncodedFields(fields, slots, k).Some? && |EncodedFields(fields, slots, k).value| < TWO_TO_32
    ensures var r := DecodedFields(fields, st, seen, EncodedFields(fields, slots, k).value);
      if EndsFields(fields, slots, k) then r.Some? && SameSlots(fields, slots, r.value) else r.None?
    decreases slots, |fields| - k + 7
  {
    hide EncodedFields, EncodedField, DecodedFields, GoodFields, EndsFields, EndsSlot, FitsSlots, SameSlots, SameSlot,
         FitsSlot,
         SlotOf, Partly, FieldRead, Untouched, Mark;
    if k == |fields| {
      NoFieldsLeft(fields, slots);
      PartlyDone(fields, slots, st, seen);
    } else {
      SplitsFields(fields, slots, k);
      PartlyAt(fields, slots, k, st, seen);
      var rest := EncodedFields(fields, slots, k + 1).value;
      var slot' := FieldRoundTrip(fields, k, slots[SlotOf(fields, k)], st, seen, rest);
      if EndsSlot(fields[k], slots[SlotOf(fields, k)]) {
        PartlyAdvances(fields, slots, k, st, seen, slot');
        RestRoundTrip(fields, slots, k + 1, st[SlotOf(fields, k) := slot'], Mark(fields, k, seen));
      }
    }
  }

  /** Decoding the encoding of a message gives the same message exactly if every string in it
      ends within its storage; otherwise decoding fails. */
  lemma DecodeInvertsEncode(fields: seq<Field>, slots: seq<Slot>)
    requires GoodFields(fields) && FitsSlots(fields, slots)
    requires EncodedFields(fields, slots, 0).Some? && |EncodedFields(fields, slots, 0).value| < TWO_TO_32
    ensures var r := Decoded(fields, EncodedFields(fields, slots, 0).value);
      if EndsFields(fields, slots, 0) then r.Some? && SameSlots(fields, slots, r.value) else r.None?
  {
    hide EncodedFields, DecodedFields, GoodFields, EndsFields, FitsSlots, SameSlots;
    MessageRoundTrip(fields, slots);
  }

  /** The field of the message below, as it is sent. */
  lemma FullStringField(b: Byte)
    requires b != 0
    ensures var f, slot := Field(1, Required, Text, 1, false, Blob([])), Single(Blob([b]));
      GoodField(f) && FitsSlot(f, slot) && EncodedField(f, slot) == Some([10, 1, b]) && !EndsSlot(f, slot)
  {
    var f, v := Field(1, Required, Text, 1, false, Blob([])), Blob([b]);
    assert EncodedValue(f, f.initial) == Some(Prefixed([])) && EndsValue(f, f.initial);
    assert Varint(1) == [1] && Varint(10) == [10];
    assert Prefixed([b]) == [1] + [b] == [1, b] && [10] + [1, b] == [10, 1, b];
    assert TagBytes(WireType(f.kind), f.tag) == [10] && EncodedValue(f, v) == Some(Prefixed([b]));
    assert FitsValue(f, v) && !EndsValue(f, v);
  }

  /** A string that fills its storage is sent but not taken back, since its terminator has no
      room: here a string of one byte in a field of one byte. */
  lemma FullStringComesToNothing(b: Byte)
    requires b != 0
    ensures var fields, slots := [Field(1, Required, Text, 1, false, Blob([]))], [Single(Blob([b]))];
      && GoodFields(fields) && FitsSlots(fields, slots)
      && EncodedFields(fields, slots, 0) == Some([10, 1, b]) && Decoded(fields, [10, 1, b]) == None
  {
    var fields, slots := [Field(1, Required, Text, 1, false, Blob([]))], [Single(Blob([b]))];
    FullStringField(b);
    hide GoodField, FitsSlot, EncodedField, EndsSlot;
    assert GoodFields(fields) && SlotOf(fields, 0) == 0 && FitsSlots(fields, slots);
    NoFieldsLeft(fields, slots);
    assert EncodedFields(fields, slots, 0) == Join(Some([10, 1, b]), Some([]));
    assert [10, 1, b] + [] == [10, 1, b];
    assert !EndsFields(fields, slots, 0);
    DecodeInvertsEncode(fields, slots);
  }
}
