/** The decoder: a stream with substreams, and the struct filled field by field. */
module PbDecoder {
  import opened Keys
  import opened Coding
  import opened PbCommon
  import opened PbEncode
  import opened PbDecode
  import opened PbRoundTrip
  import opened PbAnyInput

  class IStream {
    const buffer: Bytes
    var at: nat
    var left: nat

    ghost predicate Valid()
      reads this
    {
      at + left <= |buffer|
    }

    ghost function Left(): (r: Bytes)
      requires Valid()
      reads this
      ensures |r| == left
    {
      buffer[at..at + left]
    }

    constructor (buffer: Bytes)
      ensures Valid() && Left() == buffer && this.buffer == buffer && at == 0
    {
      this.buffer := buffer;
      at, left := 0, |buffer|;
    }

    constructor Copy(buffer: Bytes, at: nat, left: nat)
      requires at + left <= |buffer|
      ensures Valid() && this.buffer == buffer && this.at == at && this.left == left
    {
      this.buffer := buffer;
      this.at, this.left := at, left;
    }

    /** What every read leaves: the rest of what was there. */
    twostate predicate Took(new r: Option<Bytes>)
      reads this
    {
      && Valid() && at + left == old(at + left) && left <= old(left)
      && (r.Some? ==> old(Valid()) && Left() == r.value)
    }

    /** A failed call may have given away a part of the stream. */
    twostate predicate Failed()
      reads this
    {
      Valid() && at + left <= old(at + left)
    }

    method ReadByte() returns (b: Option<Byte>)
      requires Valid()
      modifies this
      ensures Took(if old(left) == 0 then None else Some(old(Left())[1..]))
      ensures b == if old(left) == 0 then None else Some(old(Left())[0])
    {
      if left == 0 {
        return None;
      }
      b := Some(buffer[at]);
      at, left := at + 1, left - 1;
    }

    method Read(n: nat) returns (b: Option<Bytes>)
      requires Valid()
      modifies this
      ensures match ReadRaw(old(Left()), n)
        case None => b == None && Took(None)
        case Some((bytes, rest)) => b == Some(bytes) && Took(Some(rest))
    {
      if left < n {
        return None;
      }
      b := Some(buffer[at..at + n]);
      assert old(Left())[..n] == buffer[at..at + n] && old(Left())[n..] == buffer[at + n..at + left];
      at, left := at + n, left - n;
    }
  }

  // ------------------------------------------------------------------------------- varints

  lemma Continue32Step(s: Bytes, n: nat, result: nat)
    requires s != []
    ensures Continue32(s, n, result) == match Add32(s[0], n, result)
      case TooLong => None
      case More(sum) => Continue32(s[1..], n + 1, sum)
      case Complete(sum) => Some((sum, s[1..]))
  {
    hide Add32;
  }

  lemma Continue32Nothing(n: nat, result: nat)
    ensures Continue32([], n, result) == None
  {
  }

  /** Reads a varint into 32 bits.  Only an empty stream is an end of file. */
  method DecodeVarint32Eof(s: IStream) returns (r: Option<nat>, eof: bool)
    requires s.Valid()
    modifies s
    ensures match Read32(old(s.Left()))
      case None => r == None && s.Took(None)
      case Some((v, rest)) => r == Some(v) && s.Took(Some(rest))
    ensures eof == (old(s.left) == 0)
  {
    hide Continue32, Power128;
    eof := s.left == 0;
    Continue32Nothing(0, 0);
    var byte := s.ReadByte();
    if byte.None? {
      return None, eof;
    }
    Continue32Step(old(s.Left()), 0, 0);
    Powers();
    if byte.value < 128 {
      return Some(byte.value), eof;
    }
    var result: nat, n: nat, more := byte.value % 128, 1, true;
    while more
      invariant byte.Some? && s.Valid() && s.at + s.left == old(s.at + s.left) && n >= 1
      invariant more ==> Read32(old(s.Left())) == Continue32(s.Left(), n, result)
      invariant !more ==> Read32(old(s.Left())) ==
                            (if n == 5 && byte.value / 16 % 8 != 0 then None else Some((result, s.Left())))
      decreases s.left, more
    {
      ghost var before := s.Left();
      byte := s.ReadByte();
      if byte.None? {
        assert before == [];
        Continue32Nothing(n, result);
        return None, eof;
      }
      Continue32Step(before, n, result);
      if n >= 5 {
        var sign := if n < 9 then 255 else 1;
        if byte.value % 128 != 0 && (result < 0x8000_0000 || byte.value != sign) {
          return None, eof;
        }
      } else {
        result := result + byte.value % 128 * Power128(n) % TWO_TO_32;
      }
      n := n + 1;
      more := byte.value >= 128;
    }
    if n == 5 && byte.value / 16 % 8 != 0 {
      return None, eof;
    }
    return Some(result), eof;
  }

  lemma Powers()
    ensures Power128(0) == 1
  {
  }

  method DecodeVarint32(s: IStream) returns (r: Option<nat>)
    requires s.Valid()
    modifies s
    ensures match Read32(old(s.Left()))
      case None => r == None && s.Took(None)
      case Some((v, rest)) => r == Some(v) && s.Took(Some(rest))
  {
    hide Read32;
    var eof;
    r, eof := DecodeVarint32Eof(s);
  }

  /** Seven more bits, in 64 bits. */
  function Add64(result: nat, byte: Byte, power: nat): nat {
    (result + byte % 128 * power % TWO_TO_64) % TWO_TO_64
  }

  /** One more byte of a varint of which n bytes make up `whole`. */
  lemma Add64Step(s: Bytes, n: nat, whole: nat, power: nat)
    requires s != [] && n < 10
    ensures var more := whole + s[0] % 128 * power;
      && Add64(whole % TWO_TO_64, s[0], power) == more % TWO_TO_64
      && Continued(whole, power, n, ReadVarint(s, 10 - n))
         == if s[0] < 128 then Some((more, n + 1)) else Continued(more, 128 * power, n + 1, ReadVarint(s[1..], 9 - n))
  {
    hide ReadVarint;
    ReadsOn(s, 10 - n, whole, power, n);
    Truncation64(whole, s[0] % 128 * power);
  }

  method DecodeVarint(s: IStream) returns (r: Option<nat>)
    requires s.Valid()
    modifies s
    ensures match ReadNumber(old(s.Left()))
      case None => r == None && s.Took(None)
      case Some((v, rest)) => r == Some(v) && s.Took(Some(rest))
  {
    hide ReadVarint, Power128, Add64;
    var result: nat, power: nat, n: nat := 0, 1, 0;
    ghost var whole: nat := 0;
    NothingRead(ReadVarint(s.Left(), 10));
    while true
      invariant s.Valid() && s.at + s.left == old(s.at + s.left) && n <= 10 && result == whole % TWO_TO_64
      invariant n <= old(s.left) && s.Left() == old(s.Left())[n..]
      invariant ReadVarint(old(s.Left()), 10) == Continued(whole, power, n, ReadVarint(s.Left(), 10 - n))
      decreases 10 - n
    {
      if n >= 10 {
        NothingLeft(s.Left(), 0);
        return None;
      }
      ghost var before := s.Left();
      var byte := s.ReadByte();
      if byte.None? {
        NothingLeft(before, 10 - n);
        return None;
      }
      Add64Step(before, n, whole, power);
      result := Add64(result, byte.value, power);
      whole := whole + byte.value % 128 * power;
      power, n := 128 * power, n + 1;
      if byte.value < 128 {
        return Some(result);
      }
    }
  }

  // --------------------------------------------------------------------------- substreams

  /** A substream over a length-prefixed string; the stream itself is behind it afterwards,
      though its position only moves when the substream is closed. */
  method MakeSubstream(s: IStream) returns (sub: IStream?)
    requires s.Valid()
    modifies s
    ensures s.Failed()
    ensures match ReadString(old(s.Left()))
      case None => sub == null
      case Some((b, rest)) =>
        && sub != null && fresh(sub) && sub.Valid() && sub.buffer == s.buffer && sub.Left() == b
        && sub.at + sub.left + s.left == old(s.at + s.left)
        && s.buffer[sub.at + sub.left..sub.at + sub.left + s.left] == rest
  {
    hide Read32;
    var size := DecodeVarint32(s);
    if size.None? {
      return null;
    }
    if s.left < size.value {
      return null;
    }
    ghost var all := s.Left();
    assert all[..size.value] == s.buffer[s.at..s.at + size.value];
    assert all[size.value..] == s.buffer[s.at + size.value..s.at + s.left];
    sub := new IStream.Copy(s.buffer, s.at, size.value);
    s.left := s.left - size.value;
  }

  /** Skips what the substream has left, and moves the stream behind it. */
  method CloseSubstream(s: IStream, sub: IStream)
    requires s != sub && sub.Valid() && s.buffer == sub.buffer && sub.at + sub.left + s.left <= |s.buffer|
    modifies s, sub
    ensures s.Valid() && s.at == old(sub.at + sub.left) && s.left == old(s.left)
  {
    if sub.left > 0 {
      var _ := sub.Read(sub.left);
    }
    s.at := sub.at;
  }

  // ------------------------------------------------------------------------------ one value

  method DecodeNumber(s: IStream, f: Field) returns (v: Option<Value>)
    requires s.Valid() && Packable(f.kind)
    modifies s
    ensures match DecodedNumber(f, old(s.Left()))
      case None => v == None && s.Valid() && s.at + s.left == old(s.at + s.left)
      case Some((value, rest)) => v == Some(value) && s.Took(Some(rest))
  {
    hide Read32, ReadNumber, Half, Signed32, Signed64, UnZigZag, FixedValue;
    match f.kind {
      case Boolean =>
        var n := DecodeVarint32(s);
        return if n.None? then None else Some(Num(if n.value != 0 then 1 else 0));
      case Signed =>
        var u := DecodeVarint(s);
        if u.None? { return None; }
        return InRange(f, if f.dataSize == 8 then Signed64(u.value) else Signed32(u.value));
      case Unsigned =>
        var u := DecodeVarint(s);
        if u.None? { return None; }
        return if ValidSize(f.dataSize) && u.value < 2 * Half(f.dataSize) then Some(Num(u.value)) else None;
      case ZigZag =>
        var u := DecodeVarint(s);
        if u.None? { return None; }
        return InRange(f, UnZigZag(u.value));
      case Fixed32 =>
        var b := s.Read(4);
        return if b.None? then None else Some(Num(FixedValue(b.value)));
      case Fixed64 =>
        var b := s.Read(8);
        return if b.None? then None else Some(Num(FixedValue(b.value)));
    }
  }

  method DecodeBlob(s: IStream, f: Field) returns (v: Option<Value>)
    requires s.Valid()
    modifies s
    ensures match DecodedBlob(f, old(s.Left()))
      case None => v == None && s.Valid() && s.at + s.left == old(s.at + s.left)
      case Some((value, rest)) => v == Some(value) && s.Took(Some(rest))
  {
    hide Read32, UntilZero, Zeros;
    var size := DecodeVarint32(s);
    if size.None? {
      return None;
    }
    if f.kind.FixedArray? && size.value == 0 {
      return Some(Blob(Zeros(f.dataSize)));
    }
    if (f.kind.ByteArray? && size.value + BYTES_HEADER > f.dataSize)
       || (f.kind.Text? && size.value + 1 > f.dataSize)
       || (f.kind.FixedArray? && size.value != f.dataSize) {
      return None;
    }
    var b := s.Read(size.value);
    if b.None? {
      return None;
    }
    return Some(Blob(if f.kind.Text? then UntilZero(b.value) else b.value));
  }

  method DecodeValue(s: IStream, f: Field, held: Value) returns (v: Option<Value>)
    requires s.Valid() && GoodField(f) && SoundValue(f, held)
    modifies s
    ensures match DecodedValue(f, held, old(s.Left()))
      case None => v == None && s.Failed()
      case Some((value, rest)) => v == Some(value) && s.Took(Some(rest))
    decreases s.left, 1
  {
    if Packable(f.kind) {
      v := DecodeNumber(s, f);
    } else if f.kind.Submessage? {
      v := DecodeSubmessage(s, f, held);
    } else {
      v := DecodeBlob(s, f);
    }
  }

  /** New array entries start from the defaults; other submessages are merged into what is there. */
  method DecodeSubmessage(s: IStream, f: Field, held: Value) returns (v: Option<Value>)
    requires s.Valid() && GoodField(f) && f.kind.Submessage? && SoundValue(f, held)
    modifies s
    ensures match DecodedValue(f, held, old(s.Left()))
      case None => v == None && s.Failed()
      case Some((value, rest)) => v == Some(value) && s.Took(Some(rest))
    decreases s.left, 0
  {
    hide SoundSlots, GoodFields, Defaults, ReadString, DecodedFields;
    var sub := MakeSubstream(s);
    if sub == null {
      return None;
    }
    var slots: Option<seq<Slot>>;
    if f.rule.Repeated? {
      slots := Decode(sub, f.kind.fields);
    } else {
      slots := DecodeNoInit(sub, f.kind.fields, held.slots);
    }
    CloseSubstream(s, sub);
    return if slots.None? then None else Some(Msg(slots.value));
  }

  // -------------------------------------------------------------------------------- one field

  /** The items of a packed array, until the substream is empty or the array is full. */
  method DecodeItems(sub: IStream, f: Field, items: seq<Value>) returns (all: Option<seq<Value>>)
    requires sub.Valid() && f.rule.Repeated? && Packable(f.kind)
    modifies sub
    ensures sub.Failed() && all == DecodedItems(f, f.rule.arraySize, items, old(sub.Left()))
    ensures all.Some? ==> sub.at + sub.left == old(sub.at + sub.left)
  {
    hide DecodedNumber;
    var size := items;
    while sub.left > 0 && |size| < f.rule.arraySize
      invariant sub.Valid() && sub.at + sub.left == old(sub.at + sub.left)
      invariant DecodedItems(f, f.rule.arraySize, items, old(sub.Left()))
           == DecodedItems(f, f.rule.arraySize, size, sub.Left())
      decreases sub.left
    {
      ghost var before := sub.Left();
      assert before != [];
      var v := DecodeNumber(sub, f);
      if v.None? {
        return None;
      }
      size := size + [v.value];
    }
    if sub.left != 0 {
      return None;
    }
    return Some(size);
  }

  method DecodePacked(s: IStream, f: Field, items: seq<Value>) returns (slot: Option<Slot>)
    requires s.Valid() && f.rule.Repeated? && Packable(f.kind)
    modifies s
    ensures match DecodedArray(f, items, WIRE_STRING, old(s.Left()))
      case None => slot == None && s.Failed()
      case Some((value, rest)) => slot == Some(value) && s.Took(Some(rest))
  {
    hide ReadString, DecodedItems;
    var sub := MakeSubstream(s);
    if sub == null {
      return None;
    }
    var all := DecodeItems(sub, f, items);
    if all.None? {
      return None;
    }
    CloseSubstream(s, sub);
    return Some(Many(all.value));
  }

  method DecodeArray(s: IStream, f: Field, items: seq<Value>, wire: nat) returns (slot: Option<Slot>)
    requires s.Valid() && GoodField(f) && f.rule.Repeated?
    modifies s
    ensures match DecodedArray(f, items, wire, old(s.Left()))
      case None => slot == None && s.Failed()
      case Some((value, rest)) => slot == Some(value) && s.Took(Some(rest))
    decreases s.left, 2
  {
    if wire == WIRE_STRING && Packable(f.kind) {
      slot := DecodePacked(s, f, items);
      return;
    }
    if |items| >= f.rule.arraySize {
      return None;
    }
    DefaultIsSound(f);
    hide SoundValue, GoodField, DecodedValue, Default;
    var v := DecodeValue(s, f, Default(f));
    return if v.None? then None else Some(Many(items + [v.value]));
  }

  lemma ArrayField(f: Field, items: seq<Value>, wire: nat, s: Bytes)
    requires f.rule.Repeated?
    ensures DecodedField(f, Many(items), wire, s) == DecodedArray(f, items, wire, s)
  {
    hide DecodedArray;
  }

  method DecodeStaticField(s: IStream, f: Field, slot: Slot, wire: nat) returns (r: Option<Slot>)
    requires s.Valid() && GoodField(f) && SoundSlot(f, slot)
    modifies s
    ensures match DecodedField(f, slot, wire, old(s.Left()))
      case None => r == None && s.Failed()
      case Some((value, rest)) => r == Some(value) && s.Took(Some(rest))
    decreases s.left, 3
  {
    DefaultIsSound(f);
    hide SoundValue, GoodField, DecodedValue, DecodedArray, Default;
    match f.rule {
      case Required =>
        var v := DecodeValue(s, f, slot.v);
        return if v.None? then None else Some(Single(v.value));
      case Singular =>
        var v := DecodeValue(s, f, slot.v);
        return if v.None? then None else Some(Single(v.value));
      case Optional =>
        var v := DecodeValue(s, f, slot.v);
        return if v.None? then None else Some(Flagged(true, v.value));
      case Repeated(_) =>
        ArrayField(f, slot.items, wire, s.Left());
        r := DecodeArray(s, f, slot.items, wire);
      case OneOf =>
        var held := if slot.tag == f.tag then slot.v else Default(f);
        var v := DecodeValue(s, f, held);
        return if v.None? then None else Some(Choice(f.tag, v.value));
    }
  }

  // --------------------------------------------------------------------------------- messages

  /** Walks over the fields and resets the slot of each. */
  method SetToDefaults(fields: seq<Field>) returns (slots: seq<Slot>)
    ensures slots == Defaults(fields, |fields|)
  {
    hide DefaultSlot;
    slots := [];
    var iter := new FieldIter(fields);
    var more := iter.Begin();
    while more
      invariant iter.Valid() && iter.fields == fields && fresh(iter) && (more ==> iter.pos < |fields|)
      invariant slots == Defaults(fields, if more then iter.pos else |fields|)
      decreases if more then |fields| - iter.pos else 0
    {
      ghost var k := iter.pos;
      DefaultsNext(fields, k);
      if iter.slot < |slots| {
        slots := slots[iter.slot := DefaultSlot(fields[iter.pos])];
      } else {
        slots := slots + [DefaultSlot(fields[iter.pos])];
      }
      more := iter.Next();
    }
  }

  lemma DefaultsNext(fields: seq<Field>, k: nat)
    requires k < |fields|
    ensures var now, next := Defaults(fields, k), Defaults(fields, k + 1);
      && SlotOf(fields, k) <= |now|
      && next == if SlotOf(fields, k) < |now| then now[SlotOf(fields, k) := DefaultSlot(fields[k])]
                 else now + [DefaultSlot(fields[k])]
  {
    if k > 0 {
      DefaultsAt(fields, k, k - 1);
    }
    hide Default;
  }

  /** Reads a tag: the number it is, or that the message ends here. */
  method DecodeTag(s: IStream) returns (wire: nat, tag: nat, ok: bool, eof: bool)
    requires s.Valid() && s.left > 0
    modifies s
    ensures match ReadTag(old(s.Left()))
      case Tag(w, t, rest) => ok && wire == w && tag == t && s.Took(Some(rest))
      case EndOfMessage => !ok && eof && s.Took(None)
      case BadTag => !ok && !eof && s.Failed()
  {
    hide Read32;
    wire, tag := 0, 0;
    var n;
    n, eof := DecodeVarint32Eof(s);
    if n.None? {
      return wire, tag, false, eof;
    }
    if n.value == 0 {
      return wire, tag, false, true;
    }
    return n.value % 8, n.value / 8, true, eof;
  }

  method SkipField(s: IStream, wire: nat) returns (ok: bool)
    requires s.Valid()
    modifies s
    ensures match Skip(wire, old(s.Left()))
      case None => !ok && s.Failed()
      case Some(rest) => ok && s.Took(Some(rest))
  {
    hide Read32;
    if wire == WIRE_VARINT {
      ok := SkipVarintBytes(s);
    } else if wire == WIRE_64BIT {
      var b := s.Read(8);
      ok := b.Some?;
    } else if wire == WIRE_STRING {
      var size := DecodeVarint32(s);
      if size.None? {
        return false;
      }
      var b := s.Read(size.value);
      ok := b.Some?;
    } else if wire == WIRE_32BIT {
      var b := s.Read(4);
      ok := b.Some?;
    } else {
      return false;
    }
  }

  method SkipVarintBytes(s: IStream) returns (ok: bool)
    requires s.Valid()
    modifies s
    ensures match SkipVarint(old(s.Left()))
      case None => !ok && s.Failed()
      case Some(rest) => ok && s.Took(Some(rest))
  {
    while true
      invariant s.Valid() && s.at + s.left == old(s.at + s.left)
      invariant SkipVarint(s.Left()) == SkipVarint(old(s.Left()))
      decreases s.left
    {
      ghost var before := s.Left();
      var b := s.ReadByte();
      if b.None? {
        assert before == [];
        return false;
      }
      if b.value < 128 {
        return true;
      }
    }
  }

  function Finish(fields: seq<Field>, slots: seq<Slot>, seen: set<nat>): Option<seq<Slot>> {
    if AllSeen(fields, seen) then Some(slots) else None
  }

  function AfterSkip(fields: seq<Field>, slots: seq<Slot>, seen: set<nat>, r: Option<Bytes>): Option<seq<Slot>> {
    match r
    case None => None
    case Some(rest) => DecodedFields(fields, slots, seen, rest)
  }

  /** One turn of the decoder's loop. */
  lemma LoopTurn(fields: seq<Field>, slots: seq<Slot>, seen: set<nat>, s: Bytes)
    requires s != []
    ensures ReadTag(s).EndOfMessage? ==> DecodedFields(fields, slots, seen, s) == Finish(fields, slots, seen)
    ensures ReadTag(s).BadTag? ==> DecodedFields(fields, slots, seen, s) == None
    ensures ReadTag(s).Tag? && FieldWith(fields, ReadTag(s).tag).None? ==>
              DecodedFields(fields, slots, seen, s)
              == AfterSkip(fields, slots, seen, Skip(ReadTag(s).wire, ReadTag(s).rest))
    ensures ReadTag(s).Tag? && FieldWith(fields, ReadTag(s).tag).Some? ==>
              var i := FieldWith(fields, ReadTag(s).tag).value;
              SlotOf(fields, i) < |slots| ==>
                DecodedFields(fields, slots, seen, s)
                == AfterField(fields, slots, seen, i,
                              DecodedField(fields[i], slots[SlotOf(fields, i)], ReadTag(s).wire, ReadTag(s).rest))
  {
    hide ReadTag, FieldWith, Skip, SlotOf, DecodedField, Mark, AllSeen;
  }

  lemma NothingDecoded(fields: seq<Field>, slots: seq<Slot>, seen: set<nat>)
    ensures DecodedFields(fields, slots, seen, []) == Finish(fields, slots, seen)
  {
    hide AllSeen;
  }

  lemma FoundIs(fields: seq<Field>, i: nat)
    requires GoodFields(fields) && i < |fields|
    ensures FieldWith(fields, fields[i].tag) == Some(i)
  {
    hide GoodField, FieldWith;
    FieldWithIs(fields, i);
  }

  lemma NotFound(fields: seq<Field>, tag: nat)
    requires forall i :: 0 <= i < |fields| ==> fields[i].tag != tag
    ensures FieldWith(fields, tag) == None
  {
    hide FieldWith;
  }

  /** Counts the required fields by going to the end of the descriptor, and looks for each. */
  method CheckRequired(iter: FieldIter, seen: set<nat>) returns (ok: bool)
    requires iter.Valid()
    modifies iter
    ensures ok == AllSeen(iter.fields, seen)
  {
    var fields := iter.fields;
    var count: nat := 0;
    if fields != [] {
      var more, last := true, false;
      while more
        invariant iter.Valid() && (more ==> iter.pos < |fields|)
        invariant !more ==> count + (if last then 1 else 0) == RequiredBefore(fields, |fields|)
        decreases if more then |fields| - iter.pos else 0
      {
        count := iter.requiredIndex;
        last := fields[iter.pos].rule.Required?;
        more := iter.Next();
      }
      if last {
        count := count + 1;
      }
    }
    if count > MAX_REQUIRED {
      count := MAX_REQUIRED;
    }
    for r := 0 to count
      invariant forall k: nat :: k < r ==> k in seen
    {
      if r !in seen {
        return false;
      }
    }
    return true;
  }

  /** Reads fields until the input ends, then looks whether all required ones were there. */
  method DecodeNoInit(s: IStream, fields: seq<Field>, dest: seq<Slot>) returns (r: Option<seq<Slot>>)
    requires s.Valid() && GoodFields(fields) && SoundSlots(fields, dest)
    modifies s
    ensures s.Failed() && r == DecodedFields(fields, dest, {}, old(s.Left()))
    ensures r.Some? ==> s.at + s.left == old(s.at + s.left)
    decreases s.left, 4
  {
    hide SoundSlots, SoundSlot, GoodFields, GoodField, SlotOf, ReadTag, DecodedField, Skip, AllSeen, DecodedFields,
         FieldWith, RequiredBefore;
    var slots, seen: set<nat>, ended := dest, {}, false;
    ghost var goal := DecodedFields(fields, dest, {}, s.Left());
    var iter := new FieldIter(fields);
    while s.left > 0 && !ended
      invariant s.Valid() && s.at + s.left == old(s.at + s.left) && s.left <= old(s.left)
      invariant iter.Valid() && iter.fields == fields && fresh(iter) && SoundSlots(fields, slots)
      invariant goal == if ended then Finish(fields, slots, seen) else DecodedFields(fields, slots, seen, s.Left())
      decreases s.left, !ended
    {
      ghost var before := s.Left();
      LoopTurn(fields, slots, seen, before);
      var wire, tag, ok, eof := DecodeTag(s);
      if !ok {
        if !eof {
          return None;
        }
        ended := true;
      } else {
        ghost var rest := s.Left();
        var found := iter.Find(tag);
        if !found {
          NotFound(fields, tag);
          var skipped := SkipField(s, wire);
          if !skipped {
            return None;
          }
        } else {
          ghost var i := iter.pos;
          FoundIs(fields, i);
          GoodAt(fields, i);
          SoundAt(fields, slots, i);
          ghost var marked := Mark(fields, i, seen);
          var slot := DecodeStaticField(s, fields[iter.pos], slots[iter.slot], wire);
          if slot.None? {
            return None;
          }
          FieldIsSound(fields[i], slots[SlotOf(fields, i)], wire, rest);
          SlotsStaySound(fields, slots, i, slot.value);
          if fields[iter.pos].rule.Required? && iter.requiredIndex < MAX_REQUIRED {
            seen := seen + {iter.requiredIndex};
          }
          slots := slots[iter.slot := slot.value];
          assert seen == marked;
        }
      }
    }
    if !ended {
      NothingDecoded(fields, slots, seen);
    }
    var complete := CheckRequired(iter, seen);
    return if complete then Some(slots) else None;
  }

  /** Decodes a message into a struct that is first set to its defaults. */
  method Decode(s: IStream, fields: seq<Field>) returns (r: Option<seq<Slot>>)
    requires s.Valid() && GoodFields(fields)
    modifies s
    ensures s.Failed() && r == Decoded(fields, old(s.Left()))
    ensures r.Some? ==> s.at + s.left == old(s.at + s.left)
    decreases s.left, 5
  {
    hide GoodFields, SoundSlots, DecodedFields, Defaults;
    DefaultsAreSound(fields);
    var slots := SetToDefaults(fields);
    r := DecodeNoInit(s, fields, slots);
  }

  // -------------------------------------------------------------------------- unknown fields

  lemma {:induction false} SkipsVarint(v: nat, rest: Bytes)
    ensures SkipVarint(Varint(v) + rest) == Some(rest)
    decreases v
  {
    var s := Varint(v) + rest;
    if v < 128 {
      assert s[0] == v && s[1..] == rest;
    } else {
      assert s[1..] == Varint(v / 128) + rest;
      SkipsVarint(v / 128, rest);
    }
  }

  lemma SkipsRaw(b: Bytes, rest: Bytes)
    ensures Rest(ReadRaw(b + rest, |b|)) == Some(rest)
  {
    assert (b + rest)[|b|..] == rest;
  }

  lemma SkipsString(b: Bytes, rest: Bytes)
    requires |b| < TWO_TO_32
    ensures Rest(ReadString(Prefixed(b) + rest)) == Some(rest)
  {
    hide Prefixed, ReadString;
    ReadPrefixedString(b, rest);
  }

  lemma ValueIsSkipped(f: Field, v: Value, rest: Bytes)
    requires FitsValue(f, v) && EncodedValue(f, v).Some? && |EncodedValue(f, v).value| < TWO_TO_32
    ensures Skip(WireType(f.kind), EncodedValue(f, v).value + rest) == Some(rest)
  {
    hide Varint, Fixed, SkipVarint, ReadRaw, ReadString, Prefixed, EncodedFields, FitsSlots, Rest;
    match f.kind {
      case Boolean => SkipsVarint(if v.n != 0 then 1 else 0, rest);
      case Signed => SkipsVarint(SignExtended(v.n), rest);
      case Unsigned => SkipsVarint(v.n, rest);
      case ZigZag => SkipsVarint(ZigZagOf(v.n), rest);
      case Fixed32 => SkipsRaw(Fixed(v.n, 4), rest);
      case Fixed64 => SkipsRaw(Fixed(v.n, 8), rest);
      case Submessage(fields) =>
        PrefixedIsLonger(EncodedFields(fields, v.slots, 0).value);
        SkipsString(EncodedFields(fields, v.slots, 0).value, rest);
      case _ =>
        PrefixedIsLonger(v.bytes);
        SkipsString(v.bytes, rest);
    }
  }

  lemma WireTypeIsSmall(k: ValueType)
    ensures WireType(k) < 8
  {
  }

  /** A decoder skips a field that its descriptor does not know, whatever its type. */
  lemma UnknownFieldIsSkipped(fields: seq<Field>, slots: seq<Slot>, seen: set<nat>, f: Field, v: Value, rest: Bytes)
    requires forall i :: 0 <= i < |fields| ==> fields[i].tag != f.tag
    requires 0 < f.tag < MAX_TAG && FitsValue(f, v) && EncodedEntry(f, v).Some?
    requires |EncodedEntry(f, v).value| < TWO_TO_32
    ensures DecodedFields(fields, slots, seen, EncodedEntry(f, v).value + rest)
         == DecodedFields(fields, slots, seen, rest)
  {
    EntryIs(f, v, rest);
    hide EncodedValue, FitsValue, TagBytes, DecodedFields, Skip, ReadTag, WireType, EncodedEntry;
    var payload := EncodedValue(f, v).value + rest;
    WireTypeIsSmall(f.kind);
    TagRoundTrip(WireType(f.kind), f.tag, payload);
    ValueIsSkipped(f, v, rest);
    NotFound(fields, f.tag);
    LoopTurn(fields, slots, seen, TagBytes(WireType(f.kind), f.tag) + payload);
  }
}
