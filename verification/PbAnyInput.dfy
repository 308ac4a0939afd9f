/** What decoding guarantees for any input at all: arrays and strings stay within their
    storage, and what was accepted can be sent again. */
module PbAnyInput {
  import opened Coding
  import opened PbCommon
  import opened PbEncode
  import opened PbDecode
  import opened PbRoundTrip

  /** The value lies within its storage, is in range, and ends if it is a string. */
  ghost predicate SoundValue(f: Field, v: Value)
    decreases v, 0
  {
    if f.kind.Submessage? then v.Msg? && SoundSlots(f.kind.fields, v.slots)
    else FitsValue(f, v) && EncodedValue(f, v).Some? && EndsValue(f, v)
  }

  ghost predicate SoundSlot(f: Field, s: Slot)
    decreases s, 0
  {
    match f.rule
    case Required => s.Single? && SoundValue(f, s.v)
    case Singular => s.Single? && SoundValue(f, s.v)
    case Optional => s.Flagged? && SoundValue(f, s.v)
    case Repeated(max) => s.Many? && |s.items| <= max && forall i :: 0 <= i < |s.items| ==> SoundValue(f, s.items[i])
    case OneOf => s.Choice? && (s.tag == f.tag ==> SoundValue(f, s.v))
  }

  ghost predicate SoundSlots(fields: seq<Field>, slots: seq<Slot>)
    decreases slots, 0
  {
    && |slots| == SlotCount(fields)
    && forall i :: 0 <= i < |fields| ==> SlotOf(fields, i) < |slots| && SoundSlot(fields[i], slots[SlotOf(fields, i)])
  }

  // --------------------------------------------------------------- what is sound can be sent

  lemma {:induction false} SoundValueIsSent(f: Field, v: Value)
    requires SoundValue(f, v)
    ensures FitsValue(f, v) && EncodedValue(f, v).Some? && EndsValue(f, v)
    decreases v, 10
  {
    if f.kind.Submessage? {
      hide SoundSlots, FitsSlots, EncodedFields, EndsFields;
      SoundSlotsAreSent(f.kind.fields, v.slots);
    }
  }

  lemma {:induction false} SoundItemsAreSent(f: Field, items: seq<Value>)
    requires forall i :: 0 <= i < |items| ==> SoundValue(f, items[i])
    ensures AllFit(f, items) && EncodedItems(f, items).Some? && EncodedEntries(f, items).Some? && EndsItems(f, items)
    decreases items, 11
  {
    hide SoundValue, FitsValue, EncodedValue, EndsValue, TagBytes;
    if items != [] {
      SoundValueIsSent(f, items[0]);
      SoundItemsAreSent(f, items[1..]);
      assert forall i :: 0 < i < |items| ==> items[i] == items[1..][i - 1];
    }
  }

  lemma {:induction false} SoundSlotIsSent(f: Field, s: Slot)
    requires SoundSlot(f, s)
    ensures FitsSlot(f, s) && EncodedField(f, s).Some? && EndsSlot(f, s)
    decreases s, 12
  {
    hide SoundValue, FitsValue, EncodedValue, EndsValue, TagBytes, EncodedItems, EncodedEntries, EndsItems, IsDefault;
    if f.rule.Repeated? {
      SoundItemsAreSent(f, s.items);
    } else if !(f.rule.OneOf? && s.tag != f.tag) {
      SoundValueIsSent(f, s.v);
    }
  }

  lemma {:induction false} SoundSlotsAreSent(fields: seq<Field>, slots: seq<Slot>)
    requires SoundSlots(fields, slots)
    ensures FitsSlots(fields, slots) && EncodedFields(fields, slots, 0).Some? && EndsFields(fields, slots, 0)
    decreases slots, |fields| + 20
  {
    hide SoundSlot, FitsSlot, EncodedFields, EndsFields, SlotOf;
    forall i | 0 <= i < |fields| ensures FitsSlot(fields[i], slots[SlotOf(fields, i)]) {
      SoundSlotIsSent(fields[i], slots[SlotOf(fields, i)]);
    }
    SoundRestIsSent(fields, slots, 0);
  }

  lemma {:induction false} SoundRestIsSent(fields: seq<Field>, slots: seq<Slot>, k: nat)
    requires SoundSlots(fields, slots) && FitsSlots(fields, slots) && k <= |fields|
    ensures EncodedFields(fields, slots, k).Some? && EndsFields(fields, slots, k)
    decreases slots, |fields| - k + 15
  {
    hide SoundSlot, FitsSlot, FitsSlots, SlotOf, SoundSlots, EncodedField, EncodedFields, EndsSlot, EndsFields;
    if k == |fields| {
      NoFieldsLeft(fields, slots);
    } else {
      SoundAt(fields, slots, k);
      FieldsStep(fields, slots, k);
      EndsStep(fields, slots, k);
      SoundSlotIsSent(fields[k], slots[SlotOf(fields, k)]);
      SoundRestIsSent(fields, slots, k + 1);
    }
  }

  lemma EndsStep(fields: seq<Field>, slots: seq<Slot>, k: nat)
    requires FitsSlots(fields, slots) && k < |fields|
    ensures SlotOf(fields, k) < |slots| && FitsSlot(fields[k], slots[SlotOf(fields, k)])
    ensures EndsFields(fields, slots, k) <==>
              (EndsSlot(fields[k], slots[SlotOf(fields, k)]) && EndsFields(fields, slots, k + 1))
  {
    hide FitsSlot, EndsSlot, SlotOf;
  }

  // ------------------------------------------------------------------- defaults are sound

  lemma {:induction false} DefaultIsSound(f: Field)
    requires GoodField(f)
    ensures SoundValue(f, Default(f)) && SoundSlot(f, DefaultSlot(f))
    decreases f, 1
  {
    hide FitsValue, EncodedValue, EndsValue, SoundSlots, IsZero;
    if f.kind.Submessage? {
      DefaultsAreSound(f.kind.fields);
    }
  }

  lemma {:induction false} DefaultsAreSound(fields: seq<Field>)
    requires GoodFields(fields)
    ensures SoundSlots(fields, Defaults(fields, |fields|))
    decreases fields, 2
  {
    hide GoodField, SoundSlot, SlotOf, Defaults, DefaultSlot;
    DefaultsShape(fields);
    forall i | 0 <= i < |fields| ensures SoundSlot(fields[i], DefaultSlot(fields[i])) {
      DefaultIsSound(fields[i]);
    }
  }

  // ------------------------------------------------------------------ what decoding stores

  lemma FixedIsBounded(s: Bytes, n: nat)
    requires |s| == n && (n == 4 || n == 8)
    ensures FixedValue(s) < if n == 4 then TWO_TO_32 else TWO_TO_64
  {
    hide Power256;
    FixedValueBelow(s);
    PowersOf256();
  }

  lemma NumberIsSound(f: Field, s: Bytes)
    requires Packable(f.kind) && DecodedNumber(f, s).Some?
    ensures SoundValue(f, DecodedNumber(f, s).value.0)
  {
    hide Varint, Fixed, FixedValue, Read32, ReadNumber, Half, Signed32, Signed64, UnZigZag;
    if f.kind.Fixed32? {
      FixedIsBounded(s[..4], 4);
    } else if f.kind.Fixed64? {
      FixedIsBounded(s[..8], 8);
    }
  }

  lemma BlobIsSound(f: Field, s: Bytes)
    requires f.dataSize < TWO_TO_32 && (f.kind.ByteArray? || f.kind.Text? || f.kind.FixedArray?)
    requires DecodedBlob(f, s).Some?
    ensures SoundValue(f, DecodedBlob(f, s).value.0)
  {
    hide Varint, Read32, UntilZero, Zeros;
  }

  lemma {:induction false} ValueIsSound(f: Field, held: Value, s: Bytes)
    requires GoodField(f) && SoundValue(f, held) && DecodedValue(f, held, s).Some?
    ensures SoundValue(f, DecodedValue(f, held, s).value.0)
    decreases |s|, 0
  {
    if f.kind.Submessage? {
      hide SoundSlots, GoodFields, Defaults, ReadString, DecodedFields;
      var fields, sub := f.kind.fields, ReadString(s).value.0;
      DefaultsAreSound(fields);
      var into := if f.rule.Repeated? || !held.Msg? then Defaults(fields, |fields|) else held.slots;
      FieldsAreSound(fields, into, {}, sub);
    } else if Packable(f.kind) {
      NumberIsSound(f, s);
    } else {
      BlobIsSound(f, s);
    }
  }

  lemma {:induction false} ItemsAreSound(f: Field, max: nat, items: seq<Value>, s: Bytes)
    requires Packable(f.kind) && DecodedItems(f, max, items, s).Some? && |items| <= max
    requires forall i :: 0 <= i < |items| ==> SoundValue(f, items[i])
    ensures var r := DecodedItems(f, max, items, s).value;
      |r| <= max && forall i :: 0 <= i < |r| ==> SoundValue(f, r[i])
    decreases |s|
  {
    hide SoundValue, DecodedNumber;
    if s != [] {
      NumberIsSound(f, s);
      var (v, rest) := DecodedNumber(f, s).value;
      ItemsAreSound(f, max, items + [v], rest);
    }
  }

  lemma {:induction false} FieldIsSound(f: Field, slot: Slot, wire: nat, s: Bytes)
    requires GoodField(f) && SoundSlot(f, slot) && DecodedField(f, slot, wire, s).Some?
    ensures SoundSlot(f, DecodedField(f, slot, wire, s).value.0)
    ensures f.rule.OneOf? ==>
      DecodedField(f, slot, wire, s).value.0.Choice? && DecodedField(f, slot, wire, s).value.0.tag == f.tag
    decreases |s|, 2
  {
    DefaultIsSound(f);
    hide SoundValue, GoodField, Default, DecodedValue, DecodedItems, ReadString;
    if f.rule.Repeated? {
      if wire == WIRE_STRING && Packable(f.kind) {
        ItemsAreSound(f, f.rule.arraySize, slot.items, ReadString(s).value.0);
      } else {
        ValueIsSound(f, Default(f), s);
      }
    } else {
      var held := if f.rule.OneOf? && !(slot.Choice? && slot.tag == f.tag) then Default(f) else slot.v;
      ValueIsSound(f, held, s);
    }
  }

  /** Storing one sound slot. */
  lemma SlotsStaySound(fields: seq<Field>, slots: seq<Slot>, k: nat, slot: Slot)
    requires GoodFields(fields) && SoundSlots(fields, slots) && k < |fields| && SlotOf(fields, k) < |slots|
    requires SoundSlot(fields[k], slot) && (fields[k].rule.OneOf? ==> slot.Choice? && slot.tag == fields[k].tag)
    ensures SoundSlots(fields, slots[SlotOf(fields, k) := slot])
  {
    hide SoundValue, SlotOf, GoodField;
    forall i | 0 <= i < |fields| && SlotOf(fields, i) == SlotOf(fields, k) ensures SoundSlot(fields[i], slot) {
      if i != k {
        SameSlotSameUnion(fields, if i < k then i else k, if i < k then k else i);
        assert fields[i].tag != fields[k].tag;
      }
    }
  }

  lemma {:induction false} FieldsAreSound(fields: seq<Field>, slots: seq<Slot>, seen: set<nat>, s: Bytes)
    requires GoodFields(fields) && SoundSlots(fields, slots) && DecodedFields(fields, slots, seen, s).Some?
    ensures SoundSlots(fields, DecodedFields(fields, slots, seen, s).value)
    decreases |s|, 3
  {
    hide SoundSlots, SoundSlot, GoodFields, SlotOf, ReadTag, DecodedField, Skip, Mark, AllSeen, FieldWith;
    if s != [] && ReadTag(s).Tag? {
      var Tag(wire, tag, rest) := ReadTag(s);
      match FieldWith(fields, tag) {
        case None => FieldsAreSound(fields, slots, seen, Skip(wire, rest).value);
        case Some(i) =>
          GoodAt(fields, i);
          SoundAt(fields, slots, i);
          FieldIsSound(fields[i], slots[SlotOf(fields, i)], wire, rest);
          var (slot, after) := DecodedField(fields[i], slots[SlotOf(fields, i)], wire, rest).value;
          SlotsStaySound(fields, slots, i, slot);
          FieldsAreSound(fields, slots[SlotOf(fields, i) := slot], Mark(fields, i, seen), after);
      }
    }
  }

  lemma SoundAt(fields: seq<Field>, slots: seq<Slot>, i: nat)
    requires SoundSlots(fields, slots) && i < |fields|
    ensures SlotOf(fields, i) < |slots| && SoundSlot(fields[i], slots[SlotOf(fields, i)])
  {
    hide SoundSlot, SlotOf;
  }

  /** Whatever bytes the decoder accepts, the struct it fills stays within its storage and can be
      sent again, and unless that takes four gigabytes, decoding it gives the same message. */
  lemma AcceptedInputCanBeSentAgain(fields: seq<Field>, s: Bytes)
    requires GoodFields(fields) && Decoded(fields, s).Some?
    ensures var slots := Decoded(fields, s).value;
      && SoundSlots(fields, slots) && FitsSlots(fields, slots) && EncodedFields(fields, slots, 0).Some?
      && (|EncodedFields(fields, slots, 0).value| < TWO_TO_32 ==>
            var again := Decoded(fields, EncodedFields(fields, slots, 0).value);
            again.Some? && SameSlots(fields, slots, again.value))
  {
    hide GoodFields, SoundSlots, FitsSlots, EncodedFields, EndsFields, SameSlots, DecodedFields, Defaults;
    DefaultsAreSound(fields);
    FieldsAreSound(fields, Defaults(fields, |fields|), {}, s);
    var slots := Decoded(fields, s).value;
    SoundSlotsAreSent(fields, slots);
    if |EncodedFields(fields, slots, 0).value| < TWO_TO_32 {
      DecodeInvertsEncode(fields, slots);
    }
  }
}
