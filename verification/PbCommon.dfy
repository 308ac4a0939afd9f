/** Descriptors of protobuf messages, the structs they describe, and the cyclic iterator
    over their fields. */
module PbCommon {
  import opened Coding

  /** The type of one value.  A submessage carries its own descriptor. */
  datatype ValueType =
    | Boolean
    | Signed
    | Unsigned
    | ZigZag
    | Fixed32
    | Fixed64
    | ByteArray
    | Text
    | Submessage(fields: seq<Field>)
    | FixedArray

  /** How often a value occurs.  Optional fields have a flag, singular ones (proto3) have none. */
  datatype Rule = Required | Optional | Singular | Repeated(arraySize: nat) | OneOf

  /** `dataSize` is the size of one value in the struct, `inUnion` marks a member of the
      same union as the field before, `initial` is the default of a value that is no submessage. */
  datatype Field = Field(tag: nat, rule: Rule, kind: ValueType, dataSize: nat, inUnion: bool, initial: Value)

  datatype Value = Num(n: int) | Blob(bytes: Bytes) | Msg(slots: seq<Slot>)

  /** One member of a struct.  The members of a union share one slot, which names the tag in use. */
  datatype Slot = Single(v: Value) | Flagged(has: bool, v: Value) | Many(items: seq<Value>) | Choice(tag: nat, v: Value)

  // ---------------------------------------------------------------------- slots of fields

  predicate SharesSlot(before: Field, f: Field) {
    before.rule.OneOf? && f.rule.OneOf? && f.inUnion
  }

  /** The slot of the i-th field: the pointer the iterator has when it stands there. */
  function SlotOf(fields: seq<Field>, i: nat): (r: nat)
    requires i < |fields|
    ensures r <= i
  {
    if i == 0 then 0
    else SlotOf(fields, i - 1) + if SharesSlot(fields[i - 1], fields[i]) then 0 else 1
  }

  function SlotCount(fields: seq<Field>): nat {
    if fields == [] then 0 else SlotOf(fields, |fields| - 1) + 1
  }

  lemma {:induction false} SlotsGrow(fields: seq<Field>, i: nat, j: nat)
    requires i <= j < |fields|
    ensures SlotOf(fields, i) <= SlotOf(fields, j) < SlotCount(fields)
    decreases |fields| - i
  {
    if i < |fields| - 1 {
      SlotsGrow(fields, i + 1, if j == i then i + 1 else j);
    }
  }

  /** Two fields have the same slot only if they belong to one union. */
  lemma {:induction false} SameSlotSameUnion(fields: seq<Field>, i: nat, j: nat)
    requires i < j < |fields| && SlotOf(fields, i) == SlotOf(fields, j)
    ensures fields[i].rule.OneOf? && fields[j].rule.OneOf?
  {
    SlotsGrow(fields, i, j - 1);
    if i < j - 1 {
      SameSlotSameUnion(fields, i, j - 1);
    }
  }

  /** How many required fields there are among the first i. */
  function RequiredBefore(fields: seq<Field>, i: nat): (r: nat)
    requires i <= |fields|
    ensures r <= i
  {
    if i == 0 then 0 else RequiredBefore(fields, i - 1) + if fields[i - 1].rule.Required? then 1 else 0
  }

  // ------------------------------------------------------------------- the field iterator

  class FieldIter {
    const fields: seq<Field>
    var pos: nat
    var slot: nat
    var requiredIndex: nat

    /** Wherever it came from, the iterator's pointer and index are those of its position. */
    ghost predicate Valid()
      reads this
    {
      && (fields != [] ==>
            pos < |fields| && slot == SlotOf(fields, pos) && requiredIndex == RequiredBefore(fields, pos))
      && (fields == [] ==> pos == 0 && slot == 0 && requiredIndex == 0)
    }

    constructor (fields: seq<Field>)
      ensures Valid() && this.fields == fields && pos == 0
    {
      this.fields := fields;
      pos, slot, requiredIndex := 0, 0, 0;
    }

    method Begin() returns (more: bool)
      modifies this
      ensures Valid() && pos == 0 && more == (fields != [])
    {
      pos, slot, requiredIndex := 0, 0, 0;
      more := pos < |fields|;
    }

    /** To the next field, or around to the first one. */
    method Next() returns (more: bool)
      requires Valid()
      modifies this
      ensures Valid()
      ensures more == (old(pos) + 1 < |fields|) && pos == if more then old(pos) + 1 else 0
    {
      if pos >= |fields| {
        return false;
      }
      var before := fields[pos];
      pos := pos + 1;
      if pos >= |fields| {
        var _ := Begin();
        return false;
      }
      if SharesSlot(before, fields[pos]) {
        return true;
      }
      if before.rule.Required? {
        requiredIndex := requiredIndex + 1;
      }
      slot := slot + 1;
      return true;
    }

    /** Looks for a tag from the present position on, once around. */
    method Find(tag: nat) returns (found: bool)
      requires Valid()
      modifies this
      ensures Valid()
      ensures found <==> exists i :: 0 <= i < |fields| && fields[i].tag == tag
      ensures found ==> pos < |fields| && fields[pos].tag == tag
      ensures !found ==> pos == old(pos)
    {
      if fields == [] {
        return false;
      }
      ghost var start := pos;
      var from := pos;
      if fields[pos].tag == tag {
        return true;
      }
      var _ := Next();
      while pos != from
        invariant Valid() && pos < |fields|
        invariant pos > start ==> forall i :: start <= i < pos ==> fields[i].tag != tag
        invariant pos <= start ==> forall i :: start <= i < |fields| || 0 <= i < pos ==> fields[i].tag != tag
        decreases if pos > start then |fields| - pos + start else start - pos
      {
        if fields[pos].tag == tag {
          return true;
        }
        var _ := Next();
      }
      return false;
    }
  }
}
