/** Encoding a protobuf message: what the bytes are, and that the sizing pass and the writing
    pass agree on them. */
module PbEncode {
  import opened Keys
  import opened Coding
  import opened PbCommon

  /** The count in front of a byte array takes four bytes of its storage. */
  const BYTES_HEADER: nat := 4

  const WIRE_VARINT: nat := 0
  const WIRE_64BIT: nat := 1
  const WIRE_STRING: nat := 2
  const WIRE_32BIT: nat := 5

  // ------------------------------------------------------------------ what fits a descriptor

  predicate ValidSize(size: nat) {
    size == 1 || size == 2 || size == 4 || size == 8
  }

  /** Half the range of an integer of so many bytes. */
  function Half(size: nat): (r: int)
    ensures 0 < r <= 0x8000_0000_0000_0000
  {
    if size == 1 then 0x80 else if size == 2 then 0x8000 else if size == 4 then 0x8000_0000 else 0x8000_0000_0000_0000
  }

  /** The struct member can hold the value. */
  ghost predicate FitsValue(f: Field, v: Value)
    decreases v, 0
  {
    match f.kind
    case Boolean => v.Num? && 0 <= v.n <= 1
    case Signed => v.Num? && -Half(f.dataSize) <= v.n < Half(f.dataSize)
    case ZigZag => v.Num? && -Half(f.dataSize) <= v.n < Half(f.dataSize)
    case Unsigned => v.Num? && 0 <= v.n < 2 * Half(f.dataSize)
    case Fixed32 => v.Num? && 0 <= v.n < TWO_TO_32
    case Fixed64 => v.Num? && 0 <= v.n < TWO_TO_64
    case ByteArray => v.Blob? && |v.bytes| < TWO_TO_32
    case Text => v.Blob? && |v.bytes| <= f.dataSize && 0 !in v.bytes
    case FixedArray => v.Blob? && |v.bytes| == f.dataSize
    case Submessage(fields) => v.Msg? && FitsSlots(fields, v.slots)
  }

  ghost predicate FitsSlot(f: Field, s: Slot)
    decreases s, 0
  {
    match f.rule
    case Required => s.Single? && FitsValue(f, s.v)
    case Singular => s.Single? && FitsValue(f, s.v)
    case Optional => s.Flagged? && FitsValue(f, s.v)
    case Repeated(_) => s.Many? && forall i :: 0 <= i < |s.items| ==> FitsValue(f, s.items[i])
    case OneOf => s.Choice? && (s.tag == f.tag ==> FitsValue(f, s.v))
  }

  ghost predicate FitsSlots(fields: seq<Field>, slots: seq<Slot>)
    decreases slots, 0
  {
    && |slots| == SlotCount(fields)
    && forall i :: 0 <= i < |fields| ==> SlotOf(fields, i) < |slots| && FitsSlot(fields[i], slots[SlotOf(fields, i)])
  }

  // ----------------------------------------------------------------------- what the bytes are

  function WireType(k: ValueType): nat {
    match k
    case Fixed32 => WIRE_32BIT
    case Fixed64 => WIRE_64BIT
    case ByteArray => WIRE_STRING
    case Text => WIRE_STRING
    case Submessage(_) => WIRE_STRING
    case FixedArray => WIRE_STRING
    case _ => WIRE_VARINT
  }

  predicate Packable(k: ValueType) {
    k.Boolean? || k.Signed? || k.Unsigned? || k.ZigZag? || k.Fixed32? || k.Fixed64?
  }

  function TagBytes(wire: nat, tag: nat): Bytes {
    Varint(8 * tag + wire)
  }

  /** A signed number as 64 bits. */
  function SignExtended(n: int): (r: nat)
    requires -0x8000_0000_0000_0000 <= n < TWO_TO_64
    ensures r < TWO_TO_64
  {
    if n < 0 then n + TWO_TO_64 else n
  }

  /** Small numbers of either sign become small unsigned ones. */
  function ZigZagOf(n: int): (r: nat)
    requires -0x8000_0000_0000_0000 <= n < 0x8000_0000_0000_0000
    ensures r < TWO_TO_64
  {
    if n < 0 then -2 * n - 1 else 2 * n
  }

  function Join(a: Option<Bytes>, b: Option<Bytes>): Option<Bytes> {
    if a.Some? && b.Some? then Some(a.value + b.value) else None
  }

  lemma JoinNothing(a: Option<Bytes>)
    ensures Join(Some([]), a) == a
  {
    assert a.Some? ==> [] + a.value == a.value;
  }

  lemma JoinIs(a: Bytes)
    ensures Join(Some(a), Some([])) == Some(a)
  {
    assert a + [] == a;
  }

  lemma JoinMore(sent: Bytes, a: Option<Bytes>, rest: Option<Bytes>)
    ensures Join(Some(sent), Join(a, rest)) == if a.Some? then Join(Some(sent + a.value), rest) else None
    ensures var all := Join(Some(sent), Join(a, rest));
      all.Some? ==> a.Some? && |all.value| >= |sent| + |a.value|
  {
    assert a.Some? && rest.Some? ==> sent + (a.value + rest.value) == (sent + a.value) + rest.value;
  }

  function EncodedValue(f: Field, v: Value): Option<Bytes>
    requires FitsValue(f, v)
    decreases v, 1
  {
    match f.kind
    case Boolean => Some(Varint(if v.n != 0 then 1 else 0))
    case Signed => if ValidSize(f.dataSize) then Some(Varint(SignExtended(v.n))) else None
    case Unsigned => if ValidSize(f.dataSize) then Some(Varint(v.n)) else None
    case ZigZag => if ValidSize(f.dataSize) then Some(Varint(ZigZagOf(v.n))) else None
    case Fixed32 => Some(Fixed(v.n, 4))
    case Fixed64 => Some(Fixed(v.n, 8))
    case ByteArray => if |v.bytes| + BYTES_HEADER <= f.dataSize then Some(Prefixed(v.bytes)) else None
    case Text => Some(Prefixed(v.bytes))
    case FixedArray => Some(Prefixed(v.bytes))
    case Submessage(fields) =>
      match EncodedFields(fields, v.slots, 0)
      case None => None
      case Some(b) => Some(Prefixed(b))
  }

  /** The values of a packed array, one after another. */
  function EncodedItems(f: Field, items: seq<Value>): Option<Bytes>
    requires forall i :: 0 <= i < |items| ==> FitsValue(f, items[i])
    decreases items, 2
  {
    if items == [] then Some([]) else Join(EncodedValue(f, items[0]), EncodedItems(f, items[1..]))
  }

  function EncodedEntry(f: Field, v: Value): Option<Bytes>
    requires FitsValue(f, v)
    decreases v, 2
  {
    Join(Some(TagBytes(WireType(f.kind), f.tag)), EncodedValue(f, v))
  }

  /** The values of an array that cannot be packed, each with its tag. */
  function EncodedEntries(f: Field, items: seq<Value>): Option<Bytes>
    requires forall i :: 0 <= i < |items| ==> FitsValue(f, items[i])
    decreases items, 3
  {
    if items == [] then Some([]) else Join(EncodedEntry(f, items[0]), EncodedEntries(f, items[1..]))
  }

  function EncodedArray(f: Field, items: seq<Value>): Option<Bytes>
    requires f.rule.Repeated? && forall i :: 0 <= i < |items| ==> FitsValue(f, items[i])
    decreases items, 4
  {
    if items == [] then Some([])
    else if |items| > f.rule.arraySize then None
    else if Packable(f.kind) then
      match EncodedItems(f, items)
      case None => None
      case Some(data) => Some(TagBytes(WIRE_STRING, f.tag) + Prefixed(data))
    else EncodedEntries(f, items)
  }

  /** Nothing is lost if the value is left out in proto3. */
  predicate IsDefault(f: Field, s: Slot)
    requires FitsSlot(f, s)
    decreases s, 1
  {
    match f.rule
    case Required => false
    case Repeated(_) => s.items == []
    case OneOf => s.tag == 0
    case Optional => !s.has
    case Singular => IsZero(f, s.v)
  }

  predicate IsZero(f: Field, v: Value)
    requires FitsValue(f, v)
    decreases v, 1
  {
    match f.kind
    case ByteArray => v.bytes == []
    case Text => v.bytes == []
    case FixedArray => f.dataSize == 0
    case Submessage(fields) => AllDefault(fields, v.slots, 0)
    case _ => v.n == 0
  }

  predicate AllDefault(fields: seq<Field>, slots: seq<Slot>, k: nat)
    requires FitsSlots(fields, slots) && k <= |fields|
    decreases slots, |fields| - k
  {
    k == |fields| || (IsDefault(fields[k], slots[SlotOf(fields, k)]) && AllDefault(fields, slots, k + 1))
  }

  function EncodedField(f: Field, s: Slot): Option<Bytes>
    requires FitsSlot(f, s)
    decreases s, 5
  {
    match f.rule
    case Required => EncodedEntry(f, s.v)
    case Optional => if s.has then EncodedEntry(f, s.v) else Some([])
    case Singular => if IsDefault(f, s) then Some([]) else EncodedEntry(f, s.v)
    case Repeated(_) => EncodedArray(f, s.items)
    case OneOf => if s.tag == f.tag then EncodedEntry(f, s.v) else Some([])
  }

  /** The fields from the k-th on. */
  function EncodedFields(fields: seq<Field>, slots: seq<Slot>, k: nat): Option<Bytes>
    requires FitsSlots(fields, slots) && k <= |fields|
    decreases slots, |fields| - k
  {
    if k == |fields| then Some([])
    else Join(EncodedField(fields[k], slots[SlotOf(fields, k)]), EncodedFields(fields, slots, k + 1))
  }

  // ------------------------------------------------------------------------- output streams

  /** A stream that writes into a buffer of maxSize bytes, or one that only counts. */
  class OStream {
    const sizing: bool
    const maxSize: nat
    var written: nat
    var output: Bytes

    ghost predicate Valid()
      reads this
    {
      !sizing ==> written <= maxSize
    }

    constructor Sizing()
      ensures Valid() && sizing && written == 0
    {
      sizing, maxSize, written, output := true, 0, 0, [];
    }

    constructor FromBuffer(size: nat)
      ensures Valid() && !sizing && maxSize == size && written == 0 && output == []
    {
      sizing, maxSize, written, output := false, size, 0, [];
    }

    /** A stream into the same buffer, for at most so many bytes. */
    constructor Substream(size: nat, output: Bytes)
      ensures Valid() && !sizing && maxSize == size && written == 0 && this.output == output
    {
      sizing, maxSize, written, this.output := false, size, 0, output;
    }

    method Write(buf: Bytes) returns (ok: bool)
      requires Valid()
      modifies this
      ensures Sent(this, ok, Some(buf))
    {
      if |buf| > 0 && !sizing {
        if written + |buf| > maxSize {
          return false;
        }
        output := output + buf;
      }
      written := written + |buf|;
      assert !sizing && buf == [] ==> output + buf == output;
      return true;
    }

    method Count(n: nat)
      requires Valid() && sizing
      modifies this
      ensures Valid() && written == old(written) + n && output == old(output)
    {
      written := written + n;
    }
  }

  /** A call that was to send these bytes: it succeeds exactly if there are such bytes and they
      fit, and then it has counted or written them. */
  twostate predicate Sent(s: OStream, ok: bool, new bytes: Option<Bytes>)
    reads s
  {
    && s.Valid()
    && ok == (bytes.Some? && (s.sizing || old(s.written) + |bytes.value| <= s.maxSize))
    && (ok ==> s.written == old(s.written) + |bytes.value|)
    && (ok ==> s.output == if s.sizing then old(s.output) else old(s.output) + bytes.value)
  }

  /** Seven bits a byte; the top bit of the last byte is cleared at the end. */
  method SendVarint(s: OStream, value: nat) returns (ok: bool)
    requires s.Valid()
    modifies s
    ensures Sent(s, ok, Some(Varint(value)))
  {
    if value <= 0x7f {
      ok := s.Write([value]);
      return;
    }
    var buffer: Bytes, left: nat := [value % 128 + 128], value / 128;
    while left != 0
      invariant |buffer| > 0 && buffer[|buffer| - 1] >= 128
      invariant left > 0 ==> buffer + Varint(left) == Varint(value)
      invariant left == 0 ==> buffer[..|buffer| - 1] + [buffer[|buffer| - 1] - 128] == Varint(value)
    {
      var byte := left % 128 + 128;
      if left < 128 {
        assert Varint(left) == [byte - 128];
      } else {
        assert buffer + Varint(left) == (buffer + [byte]) + Varint(left / 128);
      }
      buffer, left := buffer + [byte], left / 128;
    }
    buffer := buffer[|buffer| - 1 := buffer[|buffer| - 1] - 128];
    assert buffer == Varint(value);
    ok := s.Write(buffer);
  }

  method SendTag(s: OStream, wire: nat, tag: nat) returns (ok: bool)
    requires s.Valid()
    modifies s
    ensures Sent(s, ok, Some(TagBytes(wire, tag)))
  {
    ok := SendVarint(s, 8 * tag + wire);
  }

  method SendString(s: OStream, b: Bytes) returns (ok: bool)
    requires s.Valid()
    modifies s
    ensures Sent(s, ok, Some(Prefixed(b)))
  {
    hide Varint;
    ok := SendVarint(s, |b|);
    if !ok {
      return false;
    }
    ok := s.Write(b);
    assert s.output == if s.sizing then old(s.output) else if ok then old(s.output) + Prefixed(b) else s.output;
  }

  // ----------------------------------------------------------------------------- one value

  method SendScalar(s: OStream, f: Field, v: Value) returns (ok: bool)
    requires s.Valid() && FitsValue(f, v) && !f.kind.Submessage?
    modifies s
    ensures Sent(s, ok, EncodedValue(f, v))
  {
    hide Varint, Fixed;
    match f.kind {
      case Boolean => ok := SendVarint(s, if v.n != 0 then 1 else 0);
      case Signed =>
        if !ValidSize(f.dataSize) { return false; }
        ok := SendVarint(s, SignExtended(v.n));
      case Unsigned =>
        if !ValidSize(f.dataSize) { return false; }
        ok := SendVarint(s, v.n);
      case ZigZag =>
        if !ValidSize(f.dataSize) { return false; }
        ok := SendVarint(s, ZigZagOf(v.n));
      case Fixed32 => ok := s.Write(Fixed(v.n, 4));
      case Fixed64 => ok := s.Write(Fixed(v.n, 8));
      case ByteArray =>
        if |v.bytes| + BYTES_HEADER > f.dataSize { return false; }
        ok := SendString(s, v.bytes);
      case Text => ok := SendString(s, v.bytes);
      case FixedArray => ok := SendString(s, v.bytes);
    }
  }

  method SendValue(s: OStream, f: Field, v: Value) returns (ok: bool)
    requires s.Valid() && FitsValue(f, v)
    modifies s
    ensures Sent(s, ok, EncodedValue(f, v))
    decreases v, 1
  {
    if f.kind.Submessage? {
      ok := SendSubmessage(s, f.kind.fields, v.slots);
    } else {
      ok := SendScalar(s, f, v);
    }
  }

  function Delimited(b: Option<Bytes>): Option<Bytes> {
    match b
    case None => None
    case Some(b) => Some(Prefixed(b))
  }

  /** First counts the bytes of the submessage, then writes its length and its bytes; the two
      passes cannot disagree. */
  method SendSubmessage(s: OStream, fields: seq<Field>, slots: seq<Slot>) returns (ok: bool)
    requires s.Valid() && FitsSlots(fields, slots)
    modifies s
    ensures Sent(s, ok, Delimited(EncodedFields(fields, slots, 0)))
    decreases slots, |fields| + 2
  {
    hide Varint, FitsSlots, EncodedFields;
    var sub := new OStream.Sizing();
    var counted := Encode(sub, fields, slots);
    if !counted {
      return false;
    }
    var size := sub.written;
    ok := SendVarint(s, size);
    if !ok {
      return false;
    }
    if s.sizing {
      s.Count(size);
      return true;
    }
    if s.written + size > s.maxSize {
      return false;
    }
    sub := new OStream.Substream(size, s.output);
    var status := Encode(sub, fields, slots);
    s.written := s.written + sub.written;
    s.output := sub.output;
    if sub.written != size {
      assert false;
    }
    ok := status;
  }

  lemma FieldsStep(fields: seq<Field>, slots: seq<Slot>, k: nat)
    requires FitsSlots(fields, slots) && k < |fields|
    ensures SlotOf(fields, k) < |slots| && FitsSlot(fields[k], slots[SlotOf(fields, k)])
    ensures EncodedFields(fields, slots, k)
         == Join(EncodedField(fields[k], slots[SlotOf(fields, k)]), EncodedFields(fields, slots, k + 1))
  {
    hide FitsSlot, EncodedField, SlotOf, Join;
  }

  lemma FieldsEnd(fields: seq<Field>, slots: seq<Slot>)
    requires FitsSlots(fields, slots)
    ensures EncodedFields(fields, slots, |fields|) == Some([])
  {
    hide FitsSlots;
  }

  /** Walks over the fields with the iterator. */
  method Encode(s: OStream, fields: seq<Field>, slots: seq<Slot>) returns (ok: bool)
    requires s.Valid() && FitsSlots(fields, slots)
    modifies s
    ensures Sent(s, ok, EncodedFields(fields, slots, 0))
    decreases slots, |fields| + 1
  {
    hide FitsSlots, FitsSlot, EncodedField, EncodedFields, SlotOf, RequiredBefore, Join;
    FieldsEnd(fields, slots);
    var iter := new FieldIter(fields);
    var more := iter.Begin();
    assert s.output + [] == s.output;
    if !more {
      return true;
    }
    ghost var sent: Bytes := [];
    JoinNothing(EncodedFields(fields, slots, 0));
    while more
      invariant iter.Valid() && iter.fields == fields && s.Valid() && fresh(iter)
      invariant more ==> iter.pos < |fields|
      invariant s.written == old(s.written) + |sent|
      invariant s.output == if s.sizing then old(s.output) else old(s.output) + sent
      invariant EncodedFields(fields, slots, 0)
             == Join(Some(sent), EncodedFields(fields, slots, if more then iter.pos else |fields|))
      decreases if more then |fields| - iter.pos else 0
    {
      ghost var k := iter.pos;
      FieldsStep(fields, slots, k);
      JoinMore(sent, EncodedField(fields[k], slots[SlotOf(fields, k)]), EncodedFields(fields, slots, k + 1));
      ok := SendField(s, fields[iter.pos], slots[iter.slot]);
      if !ok {
        return false;
      }
      sent := sent + EncodedField(fields[k], slots[SlotOf(fields, k)]).value;
      more := iter.Next();
    }
    JoinIs(sent);
    return true;
  }

  method SendEntry(s: OStream, f: Field, v: Value) returns (ok: bool)
    requires s.Valid() && FitsValue(f, v)
    modifies s
    ensures Sent(s, ok, EncodedEntry(f, v))
    decreases v, 2
  {
    hide FitsValue, EncodedValue, Varint;
    ok := SendTag(s, WireType(f.kind), f.tag);
    if !ok {
      return false;
    }
    ok := SendValue(s, f, v);
  }

  method SendField(s: OStream, f: Field, slot: Slot) returns (ok: bool)
    requires s.Valid() && FitsSlot(f, slot)
    modifies s
    ensures Sent(s, ok, EncodedField(f, slot))
    decreases slot, 5
  {
    hide FitsValue, EncodedEntry, EncodedArray;
    assert s.output + [] == s.output;
    match f.rule {
      case Required => ok := SendEntry(s, f, slot.v);
      case Optional =>
        if slot.has {
          ok := SendEntry(s, f, slot.v);
        } else {
          return true;
        }
      case Singular =>
        if !IsDefault(f, slot) {
          ok := SendEntry(s, f, slot.v);
        } else {
          return true;
        }
      case Repeated(_) => ok := SendArray(s, f, slot.items);
      case OneOf =>
        if slot.tag == f.tag {
          ok := SendEntry(s, f, slot.v);
        } else {
          return true;
        }
    }
  }

  ghost predicate AllFit(f: Field, items: seq<Value>) {
    forall i :: 0 <= i < |items| ==> FitsValue(f, items[i])
  }

  /** One value after another, all of which were to send the remaining bytes. */
  method SendItems(s: OStream, f: Field, items: seq<Value>) returns (ok: bool)
    requires s.Valid() && AllFit(f, items)
    modifies s
    ensures Sent(s, ok, EncodedItems(f, items))
    decreases items, 1
  {
    hide FitsValue, EncodedValue;
    ghost var sent: Bytes := [];
    assert items[0..] == items && s.output + [] == s.output;
    JoinNothing(EncodedItems(f, items));
    for i := 0 to |items|
      invariant s.Valid()
      invariant s.written == old(s.written) + |sent|
      invariant s.output == if s.sizing then old(s.output) else old(s.output) + sent
      invariant EncodedItems(f, items) == Join(Some(sent), EncodedItems(f, items[i..]))
    {
      assert items[i..][0] == items[i] && items[i..][1..] == items[i + 1..];
      JoinMore(sent, EncodedValue(f, items[i]), EncodedItems(f, items[i + 1..]));
      ok := SendValue(s, f, items[i]);
      if !ok {
        return false;
      }
      sent := sent + EncodedValue(f, items[i]).value;
    }
    return true;
  }

  method SendEntries(s: OStream, f: Field, items: seq<Value>) returns (ok: bool)
    requires s.Valid() && AllFit(f, items)
    modifies s
    ensures Sent(s, ok, EncodedEntries(f, items))
    decreases items, 3
  {
    hide FitsValue, EncodedEntry;
    ghost var sent: Bytes := [];
    assert items[0..] == items && s.output + [] == s.output;
    JoinNothing(EncodedEntries(f, items));
    for i := 0 to |items|
      invariant s.Valid()
      invariant s.written == old(s.written) + |sent|
      invariant s.output == if s.sizing then old(s.output) else old(s.output) + sent
      invariant EncodedEntries(f, items) == Join(Some(sent), EncodedEntries(f, items[i..]))
    {
      assert items[i..][0] == items[i] && items[i..][1..] == items[i + 1..];
      JoinMore(sent, EncodedEntry(f, items[i]), EncodedEntries(f, items[i + 1..]));
      ok := SendEntry(s, f, items[i]);
      if !ok {
        return false;
      }
      sent := sent + EncodedEntry(f, items[i]).value;
    }
    return true;
  }

  /** The items of a packed array of fixed-width numbers need no counting. */
  lemma {:induction false} FixedItemsLength(f: Field, items: seq<Value>)
    requires AllFit(f, items) && (f.kind.Fixed32? || f.kind.Fixed64?)
    ensures EncodedItems(f, items).Some?
    ensures |EncodedItems(f, items).value| == (if f.kind.Fixed32? then 4 else 8) * |items|
    decreases items
  {
    if items != [] {
      FixedItemsLength(f, items[1..]);
    }
  }

  /** The length of packed items: a multiple of their size, or what a sizing stream counts. */
  method PackedSize(f: Field, items: seq<Value>) returns (ok: bool, size: nat)
    requires Packable(f.kind) && AllFit(f, items)
    ensures ok == EncodedItems(f, items).Some? && (ok ==> size == |EncodedItems(f, items).value|)
    decreases items, 3
  {
    hide FitsValue, EncodedItems;
    if f.kind.Fixed32? {
      FixedItemsLength(f, items);
      return true, 4 * |items|;
    }
    if f.kind.Fixed64? {
      FixedItemsLength(f, items);
      return true, 8 * |items|;
    }
    var sizes := new OStream.Sizing();
    ok := SendItems(sizes, f, items);
    size := sizes.written;
  }

  method SendArray(s: OStream, f: Field, items: seq<Value>) returns (ok: bool)
    requires s.Valid() && f.rule.Repeated? && AllFit(f, items)
    modifies s
    ensures Sent(s, ok, EncodedArray(f, items))
    decreases items, 4
  {
    hide FitsValue, EncodedItems, EncodedEntries, Varint;
    assert s.output + [] == s.output;
    if |items| == 0 {
      return true;
    }
    if |items| > f.rule.arraySize {
      return false;
    }
    if !Packable(f.kind) {
      ok := SendEntries(s, f, items);
      return;
    }
    ok := SendTag(s, WIRE_STRING, f.tag);
    if !ok {
      return false;
    }
    var size: nat;
    ok, size := PackedSize(f, items);
    if !ok {
      return false;
    }
    ok := SendVarint(s, size);
    if !ok {
      return false;
    }
    if s.sizing {
      s.Count(size);
      return true;
    }
    ok := SendItems(s, f, items);
  }

  method GetEncodedSize(fields: seq<Field>, slots: seq<Slot>) returns (size: Option<nat>)
    requires FitsSlots(fields, slots)
    ensures size.Some? == EncodedFields(fields, slots, 0).Some?
    ensures size.Some? ==> size.value == |EncodedFields(fields, slots, 0).value|
  {
    hide FitsSlots, EncodedFields;
    var s := new OStream.Sizing();
    var ok := Encode(s, fields, slots);
    return if ok then Some(s.written) else None;
  }
}
