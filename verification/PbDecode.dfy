/** Decoding a protobuf message, for any input: what the result is, and the methods that
    compute it from a stream. */
module PbDecode {
  import opened Keys
  import opened Coding
  import opened PbCommon
  import opened PbEncode

  const MAX_REQUIRED: nat := 64

  // ------------------------------------------------------------------------------- numbers

  /** What one more byte of a varint does. */
  datatype Step32 = TooLong | More(sum: nat) | Complete(sum: nat)

  /** The byte after n others that make up `result`, in 32 bits.  Further bytes may only
      repeat the sign, and bits that do not fit are an error. */
  function Add32(byte: Byte, n: nat, result: nat): Step32 {
    if n >= 5 then
      if byte % 128 != 0 && (result < 0x8000_0000 || byte != if n < 9 then 255 else 1) then TooLong
      else if byte >= 128 then More(result)
      else Complete(result)
    else
      var sum := result + byte % 128 * Power128(n) % TWO_TO_32;
      if byte >= 128 then More(sum)
      else if n == 4 && byte / 16 % 8 != 0 then TooLong
      else Complete(sum)
  }

  /** A varint in 32 bits, n bytes of which have been read: its value and what follows it. */
  function Continue32(s: Bytes, n: nat, result: nat): (r: Option<(nat, Bytes)>)
    ensures r.Some? ==> |r.value.1| < |s|
  {
    if s == [] then None else
      match Add32(s[0], n, result)
      case TooLong => None
      case More(sum) => Continue32(s[1..], n + 1, sum)
      case Complete(sum) => Some((sum, s[1..]))
  }

  function Read32(s: Bytes): (r: Option<(nat, Bytes)>)
    ensures r.Some? ==> |r.value.1| < |s|
  {
    Continue32(s, 0, 0)
  }

  function ReadRaw(s: Bytes, n: nat): (r: Option<(Bytes, Bytes)>)
    ensures r.Some? ==> |r.value.0| == n && |r.value.1| == |s| - n
  {
    if |s| < n then None else Some((s[..n], s[n..]))
  }

  /** A length and as many bytes: a substream. */
  function ReadString(s: Bytes): (r: Option<(Bytes, Bytes)>)
    ensures r.Some? ==> |r.value.0| + |r.value.1| < |s|
  {
    match Read32(s)
    case None => None
    case Some((n, rest)) => ReadRaw(rest, n)
  }

  function Signed64(u: nat): int {
    if u >= 0x8000_0000_0000_0000 then u - TWO_TO_64 else u
  }

  function Signed32(u: nat): int {
    var low := u % TWO_TO_32;
    if low >= 0x8000_0000 then low - TWO_TO_32 else low
  }

  function UnZigZag(u: nat): int {
    if u % 2 == 1 then -(u / 2) - 1 else u / 2
  }

  /** A C string ends at its first zero byte. */
  function UntilZero(s: Bytes): (r: Bytes)
    ensures |r| <= |s| && 0 !in r && (0 !in s ==> r == s)
  {
    if s == [] || s[0] == 0 then [] else [s[0]] + UntilZero(s[1..])
  }

  // ------------------------------------------------------------------------------ defaults

  function Default(f: Field): Value
    decreases f, 0
  {
    match f.kind
    case Submessage(fields) => Msg(Defaults(fields, |fields|))
    case _ => f.initial
  }

  function DefaultSlot(f: Field): Slot
    decreases f, 1
  {
    match f.rule
    case Required => Single(Default(f))
    case Singular => Single(Default(f))
    case Optional => Flagged(false, Default(f))
    case Repeated(_) => Many([])
    case OneOf => Choice(0, Num(0))
  }

  /** The struct as it is before decoding: the slots of the first n fields. */
  function Defaults(fields: seq<Field>, n: nat): seq<Slot>
    requires n <= |fields|
    decreases fields, n
  {
    if n == 0 then []
    else if n > 1 && SharesSlot(fields[n - 2], fields[n - 1]) then Defaults(fields, n - 1)
    else Defaults(fields, n - 1) + [DefaultSlot(fields[n - 1])]
  }

  // ------------------------------------------------------------------------------- one value

  function InRange(f: Field, n: int): Option<Value> {
    if ValidSize(f.dataSize) && -Half(f.dataSize) <= n < Half(f.dataSize) then Some(Num(n)) else None
  }

  function Stored(v: Option<Value>, rest: Bytes): Option<(Value, Bytes)> {
    if v.Some? then Some((v.value, rest)) else None
  }

  function DecodedNumber(f: Field, s: Bytes): (r: Option<(Value, Bytes)>)
    ensures r.Some? ==> |r.value.1| < |s|
  {
    match f.kind
    case Boolean => (
      match Read32(s)
      case None => None
      case Some((n, rest)) => Some((Num(if n != 0 then 1 else 0), rest))
    )
    case Signed => (
      match ReadNumber(s)
      case None => None
      case Some((u, rest)) => Stored(InRange(f, if f.dataSize == 8 then Signed64(u) else Signed32(u)), rest)
    )
    case Unsigned => (
      match ReadNumber(s)
      case None => None
      case Some((u, rest)) =>
        if ValidSize(f.dataSize) && u < 2 * Half(f.dataSize) then Some((Num(u), rest)) else None
    )
    case ZigZag => (
      match ReadNumber(s)
      case None => None
      case Some((u, rest)) => Stored(InRange(f, UnZigZag(u)), rest)
    )
    case Fixed32 => (
      match ReadRaw(s, 4)
      case None => None
      case Some((b, rest)) => Some((Num(FixedValue(b)), rest))
    )
    case Fixed64 => (
      match ReadRaw(s, 8)
      case None => None
      case Some((b, rest)) => Some((Num(FixedValue(b)), rest))
    )
    case _ => None
  }

  function DecodedBlob(f: Field, s: Bytes): (r: Option<(Value, Bytes)>)
    ensures r.Some? ==> |r.value.1| < |s|
  {
    match Read32(s)
    case None => None
    case Some((size, rest)) =>
      if f.kind.FixedArray? && size == 0 then Some((Blob(Zeros(f.dataSize)), rest))
      else if (f.kind.ByteArray? && size + BYTES_HEADER > f.dataSize)
           || (f.kind.Text? && size + 1 > f.dataSize)
           || (f.kind.FixedArray? && size != f.dataSize) then None
      else
        match ReadRaw(rest, size)
        case None => None
        case Some((b, rest)) => Some((Blob(if f.kind.Text? then UntilZero(b) else b), rest))
  }

  /** A value that goes into a place that holds a value: a submessage is merged into it. */
  function DecodedValue(f: Field, held: Value, s: Bytes): (r: Option<(Value, Bytes)>)
    ensures r.Some? ==> |r.value.1| < |s|
    decreases |s|, 0
  {
    match f.kind
    case Submessage(fields) => (
      match ReadString(s)
      case None => None
      case Some((sub, rest)) =>
        var into := if f.rule.Repeated? || !held.Msg? then Defaults(fields, |fields|) else held.slots;
        match DecodedFields(fields, into, {}, sub)
        case None => None
        case Some(slots) => Some((Msg(slots), rest))
    )
    case ByteArray => DecodedBlob(f, s)
    case Text => DecodedBlob(f, s)
    case FixedArray => DecodedBlob(f, s)
    case _ => DecodedNumber(f, s)
  }

  // -------------------------------------------------------------------------------- one field

  function DecodedItems(f: Field, max: nat, items: seq<Value>, s: Bytes): Option<seq<Value>>
    decreases |s|
  {
    if s == [] then Some(items)
    else if |items| >= max then None
    else
      match DecodedNumber(f, s)
      case None => None
      case Some((v, rest)) => DecodedItems(f, max, items + [v], rest)
  }

  function DecodedArray(f: Field, items: seq<Value>, wire: nat, s: Bytes): (r: Option<(Slot, Bytes)>)
    requires f.rule.Repeated?
    ensures r.Some? ==> |r.value.1| < |s|
    decreases |s|, 1
  {
    if wire == WIRE_STRING && Packable(f.kind) then
      match ReadString(s)
      case None => None
      case Some((sub, rest)) => (
        match DecodedItems(f, f.rule.arraySize, items, sub)
        case None => None
        case Some(all) => Some((Many(all), rest))
      )
    else if |items| >= f.rule.arraySize then None
    else
      match DecodedValue(f, Default(f), s)
      case None => None
      case Some((v, rest)) => Some((Many(items + [v]), rest))
  }

  /** What a slot holds after a field for it has been read. */
  function DecodedField(f: Field, slot: Slot, wire: nat, s: Bytes): (r: Option<(Slot, Bytes)>)
    ensures r.Some? ==> |r.value.1| < |s|
    decreases |s|, 2
  {
    if f.rule.Repeated? then
      if slot.Many? then DecodedArray(f, slot.items, wire, s) else None
    else if slot.Many? then None
    else
      var held := if f.rule.OneOf? && !(slot.Choice? && slot.tag == f.tag) then Default(f) else slot.v;
      match DecodedValue(f, held, s)
      case None => None
      case Some((v, rest)) =>
        Some((if f.rule.OneOf? then Choice(f.tag, v) else if f.rule.Optional? then Flagged(true, v) else Single(v),
              rest))
  }

  // --------------------------------------------------------------------------------- messages

  datatype Tag = Tag(wire: nat, tag: nat, rest: Bytes) | EndOfMessage | BadTag

  /** A zero byte where a tag should be ends the message. */
  function ReadTag(s: Bytes): (r: Tag)
    ensures r.Tag? ==> |r.rest| < |s|
  {
    match Read32(s)
    case None => BadTag
    case Some((n, rest)) => if n == 0 then EndOfMessage else Tag(n % 8, n / 8, rest)
  }

  function SkipVarint(s: Bytes): (r: Option<Bytes>)
    ensures r.Some? ==> |r.value| < |s|
  {
    if s == [] then None else if s[0] < 128 then Some(s[1..]) else SkipVarint(s[1..])
  }

  function Rest(r: Option<(Bytes, Bytes)>): Option<Bytes> {
    if r.Some? then Some(r.value.1) else None
  }

  function Skip(wire: nat, s: Bytes): (r: Option<Bytes>)
    ensures r.Some? ==> |r.value| < |s|
  {
    match wire
    case 0 => SkipVarint(s)
    case 1 => Rest(ReadRaw(s, 8))
    case 2 => Rest(ReadString(s))
    case 5 => Rest(ReadRaw(s, 4))
    case _ => None
  }

  function FieldWith(fields: seq<Field>, tag: nat): (r: Option<nat>)
    ensures r.Some? ==> r.value < |fields| && fields[r.value].tag == tag
    ensures r.None? ==> forall i :: 0 <= i < |fields| ==> fields[i].tag != tag
  {
    if fields == [] then None
    else if fields[|fields| - 1].tag == tag then Some(|fields| - 1)
    else FieldWith(fields[..|fields| - 1], tag)
  }

  /** Only so many required fields are kept track of. */
  function Mark(fields: seq<Field>, i: nat, seen: set<nat>): set<nat>
    requires i < |fields|
  {
    if fields[i].rule.Required? && RequiredBefore(fields,
                                                  i) < MAX_REQUIRED then seen + {RequiredBefore(fields, i)} else seen
  }

  predicate AllSeen(fields: seq<Field>, seen: set<nat>) {
    forall r: nat :: r < RequiredBefore(fields, |fields|) && r < MAX_REQUIRED ==> r in seen
  }

  /** The struct after all fields of the input have been read into it. */
  function DecodedFields(fields: seq<Field>, slots: seq<Slot>, seen: set<nat>, s: Bytes): Option<seq<Slot>>
    decreases |s|, 3
  {
    if s == [] || ReadTag(s).EndOfMessage? then (if AllSeen(fields, seen) then Some(slots) else None) else
      match ReadTag(s)
      case BadTag => None
      case Tag(wire, tag, rest) => (
        match FieldWith(fields, tag)
        case None => (
          match Skip(wire, rest)
          case None => None
          case Some(rest) => DecodedFields(fields, slots, seen, rest)
        )
        case Some(i) => (
          if SlotOf(fields, i) >= |slots| then None else
            match DecodedField(fields[i], slots[SlotOf(fields, i)], wire, rest)
            case None => None
            case Some((slot, rest)) => DecodedFields(fields, slots[SlotOf(fields, i) := slot], Mark(fields, i, seen),
                                                     rest)
        )
      )
  }

  function Decoded(fields: seq<Field>, s: Bytes): Option<seq<Slot>> {
    DecodedFields(fields, Defaults(fields, |fields|), {}, s)
  }
}
