/** Which inputs a decoder accepts: their fields end where skipping them would end, and the
    required fields are among them. */
module PbRequired {
  import opened Keys
  import opened Coding
  import opened PbCommon
  import opened PbEncode
  import opened PbDecode
  import opened PbRoundTrip

  // ------------------------------------------------------------------- fields in the input

  /** How long the payload of a field is: by the type that it is sent as, not by the one the
      input claims, except that numbers of an array may come packed. */
  function PayloadWire(f: Field, wire: nat): nat {
    if f.rule.Repeated? && Packable(f.kind) && wire == WIRE_STRING then WIRE_STRING else WireType(f.kind)
  }

  /** What follows the payload of the field with a tag. */
  function AfterPayload(fields: seq<Field>, wire: nat, tag: nat, s: Bytes): (r: Option<Bytes>)
    ensures r.Some? ==> |r.value| < |s|
  {
    match FieldWith(fields, tag)
    case None => Skip(wire, s)
    case Some(i) => Skip(PayloadWire(fields[i], wire), s)
  }

  /** The tags at the places of the input where a field begins. */
  function TagsRead(fields: seq<Field>, s: Bytes): seq<nat>
    decreases |s|
  {
    if s == [] then [] else
      match ReadTag(s)
      case Tag(wire, tag, rest) =>
        var after := AfterPayload(fields, wire, tag, rest);
        [tag] + if after.Some? then TagsRead(fields, after.value) else []
      case _ => []
  }

  /** The input is fields that are all there, up to its end or to a zero byte in place of a tag. */
  predicate WholeFields(fields: seq<Field>, s: Bytes)
    decreases |s|
  {
    s == [] ||
      match ReadTag(s)
      case EndOfMessage => true
      case BadTag => false
      case Tag(wire, tag, rest) =>
        var after := AfterPayload(fields, wire, tag, rest);
        after.Some? && WholeFields(fields, after.value)
  }

  /** The required fields in front of the i-th. */
  ghost function RequiredInFront(fields: seq<Field>, i: nat): set<nat>
    requires i <= |fields|
  {
    set k | 0 <= k < i && fields[k].rule.Required?
  }

  /** The i-th field is one of the first 64 required ones. */
  ghost predicate AskedFor(fields: seq<Field>, i: nat)
    requires i < |fields|
  {
    fields[i].rule.Required? && |RequiredInFront(fields, i)| < 64
  }

  ghost predicate SendsRequired(fields: seq<Field>, s: Bytes) {
    forall i :: 0 <= i < |fields| && AskedFor(fields, i) ==> fields[i].tag in TagsRead(fields, s)
  }

  // --------------------------------------------------------------------- payloads are skipped

  lemma {:induction false} Varint32IsSkipped(s: Bytes, n: nat, result: nat)
    requires Continue32(s, n, result).Some?
    ensures SkipVarint(s) == Some(Continue32(s, n, result).value.1)
    decreases |s|
  {
    var step := Add32(s[0], n, result);
    assert s[0] >= 128 <==> step.More?;
    hide Add32;
    if step.More? {
      Varint32IsSkipped(s[1..], n + 1, step.sum);
    }
  }

  lemma {:induction false} VarintIsSkipped(s: Bytes, n: nat)
    requires ReadVarint(s, n).Some?
    ensures SkipVarint(s) == Some(s[ReadVarint(s, n).value.1..])
  {
    if s[0] >= 128 {
      VarintIsSkipped(s[1..], n - 1);
      assert s[1..][ReadVarint(s[1..], n - 1).value.1..] == s[ReadVarint(s, n).value.1..];
    }
  }

  lemma NumberIsSkipped(f: Field, s: Bytes)
    requires DecodedNumber(f, s).Some?
    ensures Packable(f.kind) && Skip(WireType(f.kind), s) == Some(DecodedNumber(f, s).value.1)
  {
    hide Half, Signed32, Signed64, UnZigZag, FixedValue, SkipVarint, ReadVarint;
    match f.kind {
      case Boolean => Varint32IsSkipped(s, 0, 0);
      case Signed => VarintIsSkipped(s, 10);
      case Unsigned => VarintIsSkipped(s, 10);
      case ZigZag => VarintIsSkipped(s, 10);
      case _ =>
    }
  }

  lemma BlobIsSkipped(f: Field, s: Bytes)
    requires DecodedBlob(f, s).Some?
    ensures Rest(ReadString(s)) == Some(DecodedBlob(f, s).value.1)
  {
    hide Read32;
    var (size, rest) := Read32(s).value;
    assert size == 0 ==> rest[0..] == rest;
  }

  lemma ValueIsSkipped(f: Field, held: Value, s: Bytes)
    requires DecodedValue(f, held, s).Some?
    ensures Skip(WireType(f.kind), s) == Some(DecodedValue(f, held, s).value.1)
  {
    hide DecodedNumber, DecodedBlob, ReadString, Defaults, DecodedFields;
    match f.kind {
      case Submessage(fields) =>
      case ByteArray => BlobIsSkipped(f, s);
      case Text => BlobIsSkipped(f, s);
      case FixedArray => BlobIsSkipped(f, s);
      case _ => NumberIsSkipped(f, s);
    }
  }

  lemma FieldIsSkipped(f: Field, slot: Slot, wire: nat, s: Bytes)
    requires DecodedField(f, slot, wire, s).Some?
    ensures Skip(PayloadWire(f, wire), s) == Some(DecodedField(f, slot, wire, s).value.1)
  {
    hide DecodedValue, ReadString, DecodedItems, Default;
    if f.rule.Repeated? {
      if wire != WIRE_STRING || !Packable(f.kind) {
        ValueIsSkipped(f, Default(f), s);
      }
    } else {
      var held := if f.rule.OneOf? && !(slot.Choice? && slot.tag == f.tag) then Default(f) else slot.v;
      ValueIsSkipped(f, held, s);
    }
  }

  // ------------------------------------------------------------------------ required fields

  lemma {:induction false} CountsRequired(fields: seq<Field>, i: nat)
    requires i <= |fields|
    ensures RequiredBefore(fields, i) == |RequiredInFront(fields, i)|
  {
    if i > 0 {
      CountsRequired(fields, i - 1);
      var before, all := RequiredInFront(fields, i - 1), RequiredInFront(fields, i);
      assert all == if fields[i - 1].rule.Required? then before + {i - 1} else before;
    }
  }

  lemma {:induction false} RequiredGrows(fields: seq<Field>, i: nat, j: nat)
    requires i < j <= |fields| && fields[i].rule.Required?
    ensures RequiredBefore(fields, i) < RequiredBefore(fields, j)
  {
    if i < j - 1 {
      RequiredGrows(fields, i, j - 1);
    }
  }

  lemma {:induction false} RequiredNumber(fields: seq<Field>, j: nat, r: nat) returns (i: nat)
    requires j <= |fields| && r < RequiredBefore(fields, j)
    ensures i < j && fields[i].rule.Required? && RequiredBefore(fields, i) == r
  {
    i := j - 1;
    if r < RequiredBefore(fields, j - 1) {
      i := RequiredNumber(fields, j - 1, r);
    }
  }

  /** Everything asked for has been seen or is still to come. */
  ghost predicate Completes(fields: seq<Field>, seen: set<nat>, tags: seq<nat>) {
    forall i :: 0 <= i < |fields| && AskedFor(fields, i) ==>
      RequiredBefore(fields, i) in seen || fields[i].tag in tags
  }

  lemma SeenIsComplete(fields: seq<Field>, seen: set<nat>)
    ensures AllSeen(fields, seen) <==> Completes(fields, seen, [])
  {
    hide RequiredBefore, RequiredInFront;
    forall i | 0 <= i < |fields| && AskedFor(fields, i)
      ensures AllSeen(fields, seen) ==> RequiredBefore(fields, i) in seen
    {
      CountsRequired(fields, i);
      RequiredGrows(fields, i, |fields|);
    }
    forall r: nat | Completes(fields, seen, []) && r < RequiredBefore(fields, |fields|) && r < MAX_REQUIRED
      ensures r in seen
    {
      var i := RequiredNumber(fields, |fields|, r);
      CountsRequired(fields, i);
      assert AskedFor(fields, i);
    }
  }

  ghost predicate OneOfEachTag(fields: seq<Field>) {
    forall i, j :: 0 <= i < j < |fields| ==> fields[i].tag != fields[j].tag
  }

  /** To mark a field is to take its tag from those still to come. */
  lemma MarksItsTag(fields: seq<Field>, i: nat, seen: set<nat>, tags: seq<nat>)
    requires OneOfEachTag(fields) && i < |fields|
    ensures Completes(fields, Mark(fields, i, seen), tags) <==> Completes(fields, seen, [fields[i].tag] + tags)
  {
    hide RequiredBefore, RequiredInFront;
    forall k | 0 <= k < |fields| && AskedFor(fields, k)
      ensures RequiredBefore(fields, k) in Mark(fields, i, seen) || fields[k].tag in tags <==>
              RequiredBefore(fields, k) in seen || fields[k].tag in [fields[i].tag] + tags
    {
      CountsRequired(fields, k);
      CountsRequired(fields, i);
      if k < i && fields[i].rule.Required? {
        RequiredGrows(fields, k, i);
      } else if i < k && fields[i].rule.Required? {
        RequiredGrows(fields, i, k);
      }
    }
  }

  lemma OtherTag(fields: seq<Field>, seen: set<nat>, tag: nat, tags: seq<nat>)
    requires FieldWith(fields, tag).None?
    ensures Completes(fields, seen, tags) <==> Completes(fields, seen, [tag] + tags)
  {
    hide AskedFor, RequiredBefore;
    forall k | 0 <= k < |fields| && AskedFor(fields, k)
      ensures fields[k].tag in tags <==> fields[k].tag in [tag] + tags
    {
    }
  }

  ghost function Below(n: nat): (all: set<nat>)
    ensures forall r: nat :: r in all <==> r < n
  {
    if n == 0 then {} else Below(n - 1) + {n - 1}
  }

  /** As if every required field had been there. */
  ghost function Everything(): set<nat> {
    Below(MAX_REQUIRED)
  }

  lemma NothingToMark(fields: seq<Field>, i: nat)
    requires i < |fields|
    ensures Mark(fields, i, Everything()) == Everything()
  {
    hide RequiredBefore;
  }

  /** The required fields decide only whether the struct is handed out, not what is in it. */
  lemma {:induction false} DecodesIfComplete(fields: seq<Field>, slots: seq<Slot>, seen: set<nat>, s: Bytes)
    requires OneOfEachTag(fields)
    ensures DecodedFields(fields, slots, seen, s) ==
      if Completes(fields, seen, TagsRead(fields, s)) then DecodedFields(fields, slots, Everything(), s) else None
    decreases |s|
  {
    hide ReadTag, DecodedField, Skip, Mark, AllSeen, SlotOf, Completes, FieldWith, OneOfEachTag, PayloadWire,
         Everything;
    SeenIsComplete(fields, seen);
    SeenIsComplete(fields, Everything());
    if s != [] && ReadTag(s).Tag? {
      var Tag(wire, tag, rest) := ReadTag(s);
      var after := AfterPayload(fields, wire, tag, rest);
      match FieldWith(fields, tag) {
        case None =>
          if after.Some? {
            DecodesIfComplete(fields, slots, seen, after.value);
            OtherTag(fields, seen, tag, TagsRead(fields, after.value));
          }
        case Some(i) =>
          if SlotOf(fields, i) < |slots| {
            var r := DecodedField(fields[i], slots[SlotOf(fields, i)], wire, rest);
            if r.Some? {
              FieldIsSkipped(fields[i], slots[SlotOf(fields, i)], wire, rest);
              DecodesIfComplete(fields, slots[SlotOf(fields, i) := r.value.0], Mark(fields, i, seen), after.value);
              MarksItsTag(fields, i, seen, TagsRead(fields, after.value));
              NothingToMark(fields, i);
            }
          }
      }
    } else {
      NothingMissing(fields);
    }
  }

  lemma NothingMissing(fields: seq<Field>)
    ensures AllSeen(fields, Everything())
  {
    hide RequiredBefore;
  }

  lemma {:induction false} AcceptsWholeFields(fields: seq<Field>, slots: seq<Slot>, seen: set<nat>, s: Bytes)
    requires DecodedFields(fields, slots, seen, s).Some?
    ensures WholeFields(fields, s)
    decreases |s|
  {
    hide ReadTag, DecodedField, Skip, Mark, AllSeen, SlotOf, FieldWith, PayloadWire;
    if s != [] && ReadTag(s).Tag? {
      var Tag(wire, tag, rest) := ReadTag(s);
      match FieldWith(fields, tag) {
        case None => AcceptsWholeFields(fields, slots, seen, Skip(wire, rest).value);
        case Some(i) =>
          FieldIsSkipped(fields[i], slots[SlotOf(fields, i)], wire, rest);
          var (slot, after) := DecodedField(fields[i], slots[SlotOf(fields, i)], wire, rest).value;
          AcceptsWholeFields(fields, slots[SlotOf(fields, i) := slot], Mark(fields, i, seen), after);
      }
    }
  }

  /** A message is accepted just if each of the first 64 required fields begins somewhere in
      it, and everything else about it is in order. */
  lemma RequiredMustBeSent(fields: seq<Field>, slots: seq<Slot>, s: Bytes)
    requires OneOfEachTag(fields)
    ensures DecodedFields(fields, slots, {}, s) ==
      if SendsRequired(fields, s) then DecodedFields(fields, slots, Everything(), s) else None
    ensures DecodedFields(fields, slots, {}, s).Some? ==> WholeFields(fields, s)
  {
    hide DecodedFields;
    DecodesIfComplete(fields, slots, {}, s);
    if DecodedFields(fields, slots, {}, s).Some? {
      AcceptsWholeFields(fields, slots, {}, s);
    }
  }

  /** So an input without one of them is refused. */
  lemma MissingFieldIsRefused(fields: seq<Field>, s: Bytes, i: nat)
    requires OneOfEachTag(fields) && i < |fields| && AskedFor(fields, i) && fields[i].tag !in TagsRead(fields, s)
    ensures Decoded(fields, s) == None
  {
    hide DecodedFields, Defaults;
    RequiredMustBeSent(fields, Defaults(fields, |fields|), s);
  }

  // ----------------------------------------------------------- one required field too many

  /** One field read, by the decoder and in the list of tags. */
  lemma FieldStep(fields: seq<Field>, slots: seq<Slot>, i: nat, wire: nat, payload: Bytes)
    requires OneOfEachTag(fields) && i < |fields| && 0 < fields[i].tag < MAX_TAG && wire < 8
    requires SlotOf(fields, i) < |slots| && DecodedField(fields[i], slots[SlotOf(fields, i)], wire, payload).Some?
    ensures var (slot, rest) := DecodedField(fields[i], slots[SlotOf(fields, i)], wire, payload).value;
      var s := TagBytes(wire, fields[i].tag) + payload;
      && DecodedFields(fields, slots, Everything(), s)
      == DecodedFields(fields, slots[SlotOf(fields, i) := slot], Everything(), rest)
      && TagsRead(fields, s) == [fields[i].tag] + TagsRead(fields, rest)
  {
    TagRoundTrip(wire, fields[i].tag, payload);
    FieldWithIs(fields, i);
    NothingToMark(fields, i);
    FieldIsSkipped(fields[i], slots[SlotOf(fields, i)], wire, payload);
    hide ReadTag, DecodedField, Skip, Mark, AllSeen, SlotOf, FieldWith, PayloadWire, TagBytes, Everything;
  }

  /** A message type of 65 required flags. */
  predicate ManyFlags(fields: seq<Field>) {
    |fields| == 65 && forall i :: 0 <= i < 65 ==> fields[i] == Field(i + 1, Required, Boolean, 1, false, Num(0))
  }

  /** The fields from the k-th to the 64th, so all but the last. */
  function FlagsFrom(k: nat): Bytes
    decreases 64 - k
  {
    if k >= 64 then [] else TagBytes(WIRE_VARINT, k + 1) + ([0] + FlagsFrom(k + 1))
  }

  lemma {:induction false} FlagsAreApart(fields: seq<Field>, i: nat)
    requires ManyFlags(fields) && i < 65
    ensures SlotOf(fields, i) == i && RequiredBefore(fields, i) == i
  {
    if i > 0 {
      FlagsAreApart(fields, i - 1);
    }
  }

  ghost predicate Singles(slots: seq<Slot>, n: nat) {
    |slots| == n && forall i :: 0 <= i < n ==> slots[i].Single?
  }

  lemma FlagDecodes(f: Field, slot: Slot, rest: Bytes)
    requires f.kind.Boolean? && f.rule.Required? && slot.Single?
    ensures DecodedField(f, slot, WIRE_VARINT, [0] + rest) == Some((Single(Num(0)), rest))
  {
    var s := [0] + rest;
    assert s[0] == 0 && s[1..] == rest;
    assert Read32(s) == Some((0, rest)) by { assert Add32(0, 0, 0) == Complete(0); }
  }

  lemma FlagStep(fields: seq<Field>, k: nat, slots: seq<Slot>)
    requires ManyFlags(fields) && k < 64 && Singles(slots, 65)
    ensures DecodedFields(fields, slots, Everything(), FlagsFrom(k))
         == DecodedFields(fields, slots[k := Single(Num(0))], Everything(), FlagsFrom(k + 1))
    ensures TagsRead(fields, FlagsFrom(k)) == [k + 1] + TagsRead(fields, FlagsFrom(k + 1))
  {
    FlagsAreApart(fields, k);
    FlagDecodes(fields[k], slots[k], FlagsFrom(k + 1));
    hide DecodedFields, TagsRead, DecodedField, SlotOf, TagBytes, Everything;
    FieldStep(fields, slots, k, WIRE_VARINT, [0] + FlagsFrom(k + 1));
  }

  lemma {:induction false} FlagsAreRead(fields: seq<Field>, k: nat, slots: seq<Slot>)
    requires ManyFlags(fields) && k <= 64 && Singles(slots, 65)
    ensures DecodedFields(fields, slots, Everything(), FlagsFrom(k)).Some?
    ensures forall i :: i in TagsRead(fields, FlagsFrom(k)) <==> k < i <= 64
    decreases 64 - k
  {
    hide DecodedFields, TagsRead, FlagsFrom, Everything;
    if k < 64 {
      FlagStep(fields, k, slots);
      FlagsAreRead(fields, k + 1, slots[k := Single(Num(0))]);
    } else {
      NothingRead(fields, slots);
    }
  }

  lemma NothingRead(fields: seq<Field>, slots: seq<Slot>)
    ensures FlagsFrom(64) == [] && TagsRead(fields, []) == []
    ensures DecodedFields(fields, slots, Everything(), []) == Some(slots)
  {
    NothingMissing(fields);
    hide AllSeen, Everything;
  }

  /** A required field after the first 64 may be missing. */
  lemma LateFieldMayBeMissing(fields: seq<Field>)
    requires ManyFlags(fields)
    ensures fields[64].rule.Required? && fields[64].tag !in TagsRead(fields, FlagsFrom(0))
    ensures Decoded(fields, FlagsFrom(0)).Some?
  {
    hide DecodedFields, TagsRead, Defaults, AskedFor, FlagsFrom, Everything;
    var slots := Defaults(fields, |fields|);
    FlagDefaults(fields, 65);
    FlagsAreRead(fields, 0, slots);
    forall i | 0 <= i < |fields| && AskedFor(fields, i) ensures fields[i].tag in TagsRead(fields, FlagsFrom(0)) {
      FlagAskedFor(fields, i);
    }
    RequiredMustBeSent(fields, slots, FlagsFrom(0));
  }

  lemma FlagAskedFor(fields: seq<Field>, i: nat)
    requires ManyFlags(fields) && i < 65 && AskedFor(fields, i)
    ensures i < 64
  {
    CountsRequired(fields, i);
    FlagsAreApart(fields, i);
  }

  lemma {:induction false} FlagDefaults(fields: seq<Field>, n: nat)
    requires ManyFlags(fields) && n <= 65
    ensures Singles(Defaults(fields, n), n)
  {
    if n > 0 {
      FlagDefaults(fields, n - 1);
    }
  }
}
