/** Examples of the formats, byte by byte. */
module KnownBytes {
  import opened Keys
  import opened Coding
  import Checksums
  import Bytewise
  import Log
  import WriteBatches
  import VersionEdits
  import Blocks
  import PbCommon
  import PbEncode

  // ------------------------------------------------------------------------------- numbers

  lemma Numbers()
    ensures Fixed(0x1234_5678, 4) == [0x78, 0x56, 0x34, 0x12]
    ensures Varint(0) == [0] && Varint(127) == [127] && Varint(128) == [0x80, 1] && Varint(300) == [0xac, 2]
    ensures Varint(0xffff_ffff) == [0xff, 0xff, 0xff, 0xff, 15]
    ensures Prefixed([7, 8, 9]) == [3, 7, 8, 9]
  {
    assert Varint(3) == [3];
  }

  /** The rotation and the constant of masked checksums. */
  lemma MaskRotates(high: nat, low: nat)
    requires high < 0x2_0000 && low < 0x8000
    ensures Checksums.Mask(high * 0x8000 + low) == (low * 0x2_0000 + high + 0xa282_ead8) % TWO_TO_32
  {
    assert (high * 0x8000 + low) / 0x8000 == high && (high * 0x8000 + low) % 0x8000 == low;
  }

  lemma MoreNumbers()
    ensures Fixed(2, 4) == [2, 0, 0, 0] && Fixed(5, 8) == [5, 0, 0, 0, 0, 0, 0, 0]
    ensures Varint(1) == [1] && Varint(2) == [2]
  {
  }

  // ----------------------------------------------------------------------- keys and batches

  lemma Tags()
    ensures Fixed(0x1_0201, 8) == [1, 2, 1, 0, 0, 0, 0, 0] && Fixed(0x1_0200, 8) == [0, 2, 1, 0, 0, 0, 0, 0]
  {
  }

  /** The tag of an internal key is the sequence number and, in its lowest byte, the kind. */
  lemma KeyBytes()
    ensures VersionEdits.KeyBytes(Bytewise.ByteKey([107], 0x102, Value)) == [107, 1, 2, 1, 0, 0, 0, 0, 0]
    ensures VersionEdits.KeyBytes(Bytewise.ByteKey([107], 0x102, Deletion)) == [107, 0, 2, 1, 0, 0, 0, 0, 0]
  {
    hide Fixed;
    Tags();
  }

  lemma RecordBytes()
    ensures WriteBatches.Record(WriteBatches.Put([97], [98, 99])) == [1, 1, 97, 2, 98, 99]
    ensures WriteBatches.Record(WriteBatches.Delete([100])) == [0, 1, 100]
  {
    hide Varint;
    MoreNumbers();
  }

  /** A batch of a value and a deletion. */
  lemma BatchBytes()
    ensures WriteBatches.BatchBytes(5, [WriteBatches.Put([97], [98, 99]), WriteBatches.Delete([100])])
         == [5, 0, 0, 0, 0, 0, 0, 0, 2, 0, 0, 0, 1, 1, 97, 2, 98, 99, 0, 1, 100]
  {
    hide WriteBatches.Record, WriteBatches.Records, Fixed;
    var put, delete := WriteBatches.Put([97], [98, 99]), WriteBatches.Delete([100]);
    MoreNumbers();
    RecordBytes();
    WriteBatches.RecordsOfOne(put);
    WriteBatches.RecordsOfOne(delete);
    WriteBatches.RecordsAppend([put], [delete]);
    assert [put] + [delete] == [put, delete];
  }

  // ------------------------------------------------------------------------------- the log

  /** What stands in front of a fragment of this type. */
  function Header(extend: Checksums.Extend, kind: Byte, data: Bytes): Bytes
    requires |data| < 0x1_0000
  {
    Fixed(Checksums.Mask(extend(0, [kind] + data)), 4) + [|data| % 256, |data| / 256, kind]
  }

  lemma PhysicalIs(extend: Checksums.Extend, kind: Byte, data: Bytes)
    requires |data| < 0x1_0000
    ensures Log.Physical(extend, kind, data) == Header(extend, kind, data) + data
  {
    hide Fixed, Checksums.Mask;
  }

  /** At the start of a block there is room for 32761 bytes of data. */
  lemma RoomInBlock(at: nat, left: nat)
    requires at % 32768 == 0
    ensures Log.Pad(at) == 0
    ensures Log.FragmentLength(at, left) == if left <= 32761 then left else 32761
    ensures left > 32761 ==> Log.After(at, left) == at + 32768
  {
  }

  /** A record in one block: checksum, length, type 1 and the data. */
  lemma FullRecord(extend: Checksums.Extend, data: Bytes)
    requires |data| <= 32761
    ensures Log.Written(extend, [data]) == Header(extend, 1, data) + data
  {
    RoomInBlock(0, |data|);
    hide Header, Log.Physical, Log.Pad, Log.FragmentLength;
    PhysicalIs(extend, 1, data);
    Log.WrittenGrows(extend, [], data);
    assert data[..|data|] == data && [] + [data] == [data];
    assert Log.Written(extend, []) == [];
  }

  /** The last fragment of a longer one has type 4. */
  lemma LastFragment(extend: Checksums.Extend, at: nat, data: Bytes)
    requires at % 32768 == 0 && |data| <= 32761
    ensures Log.Emitted(extend, at, data, false) == Header(extend, 4, data) + data
  {
    RoomInBlock(at, |data|);
    hide Header, Log.Physical, Log.Pad, Log.FragmentLength, Log.After;
    PhysicalIs(extend, 4, data);
    assert data[..|data|] == data;
  }

  /** The first one has type 2, others type 3. */
  lemma OtherFragments(extend: Checksums.Extend, at: nat, data: Bytes, begin: bool)
    requires at % 32768 == 0 && |data| > 32761
    ensures Log.Emitted(extend, at, data, begin) ==
      Header(extend, if begin then 2 else 3, data[..32761]) + data[..32761]
      + Log.Emitted(extend, at + 32768, data[32761..], false)
  {
    RoomInBlock(at, |data|);
    hide Header, Log.Physical, Log.Pad, Log.FragmentLength, Log.After;
    var kind: Byte, front := if begin then 2 else 3, data[..32761];
    PhysicalIs(extend, kind, front);
    assert Log.Emitted(extend, at, data, begin)
        == Log.Physical(extend, kind, front) + Log.Emitted(extend, at + 32768, data[32761..], false);
  }

  /** Where fewer than seven bytes are left of a block, they are zeros. */
  lemma BlockTrailer(extend: Checksums.Extend, at: nat, data: Bytes, begin: bool)
    requires at % 32768 > 32761
    ensures Log.Emitted(extend, at, data, begin) ==
      Zeros(32768 - at % 32768) + Log.Emitted(extend, at + (32768 - at % 32768), data, begin)
  {
    var next := at + (32768 - at % 32768);
    TrailerIs(at, |data|);
    hide Log.Physical, Log.Pad, Log.FragmentLength, Log.After, Zeros;
    assert Zeros(0) == [];
  }

  lemma TrailerIs(at: nat, left: nat)
    requires at % 32768 > 32761
    ensures var next := at + (32768 - at % 32768);
      && Log.Pad(at) == 32768 - at % 32768 && Log.Pad(next) == 0
      && Log.FragmentLength(at, left) == Log.FragmentLength(next, left) && Log.After(at, left) == Log.After(next, left)
  {
    assert (at + (32768 - at % 32768)) % 32768 == 0;
  }

  // ---------------------------------------------------------------------------- version edits

  lemma SmallVarint(v: nat)
    requires v < 128
    ensures Varint(v) == [v]
  {
  }

  lemma NumbersOfEdit(n: Byte, level: Byte)
    requires n < 128 && level < 128
    ensures VersionEdits.FieldBytes(VersionEdits.LogNumber(n)) == [2, n]
    ensures VersionEdits.FieldBytes(VersionEdits.NextFileNumber(n)) == [3, n]
    ensures VersionEdits.FieldBytes(VersionEdits.LastSequence(n)) == [4, n]
    ensures VersionEdits.FieldBytes(VersionEdits.DeletedFile(level, n)) == [6, level, n]
    ensures VersionEdits.FieldBytes(VersionEdits.PrevLogNumber(n)) == [9, n]
  {
    forall v: nat | v < 128 ensures Varint(v) == [v] {
      SmallVarint(v);
    }
    hide Varint;
  }

  lemma TextsOfEdit(level: Byte, text: Bytes)
    requires level < 128 && |text| < 128
    ensures VersionEdits.FieldBytes(VersionEdits.Comparator(text)) == [1, |text|] + text
    ensures VersionEdits.FieldBytes(VersionEdits.CompactPointer(level, text)) == [5, level, |text|] + text
  {
    forall v: nat | v < 128 ensures Varint(v) == [v] {
      SmallVarint(v);
    }
    hide Varint;
  }

  lemma FileOfEdit(level: Byte, file: VersionEdits.FileMeta)
    requires level < 128 && file.number < 128 && file.size < 128
    ensures VersionEdits.FieldBytes(VersionEdits.NewFile(level, file)) ==
      [7, level, file.number, file.size] + (Prefixed(file.smallest) + Prefixed(file.largest))
  {
    SmallVarint(7);
    SmallVarint(level);
    SmallVarint(file.number);
    SmallVarint(file.size);
    hide Varint, Prefixed;
    AllParts([7], [level], [file.number], [file.size], Prefixed(file.smallest), Prefixed(file.largest));
    assert [7] + [level] + [file.number] + [file.size] == [7, level, file.number, file.size];
  }

  lemma AllParts(tag: Bytes, level: Bytes, number: Bytes, size: Bytes, smallest: Bytes, largest: Bytes)
    ensures tag + (level + number + size + smallest + largest) == tag + level + number + size + (smallest + largest)
  {
  }

  /** The fields of an edit in the order in which they are written. */
  lemma EditOrder(name: Bytes, log: nat, prev: nat, next: nat, last: nat, level: nat, key: Bytes, n: nat,
                  file: VersionEdits.FileMeta)
    ensures VersionEdits.FieldsOf(VersionEdits.Edit(Some(name), Some(log), Some(prev), Some(next), Some(last),
                                                    [(level, key)], [(level, n)], [(level, file)]))
         == [VersionEdits.Comparator(name), VersionEdits.LogNumber(log), VersionEdits.PrevLogNumber(prev),
             VersionEdits.NextFileNumber(next), VersionEdits.LastSequence(last),
             VersionEdits.CompactPointer(level, key), VersionEdits.DeletedFile(level, n),
             VersionEdits.NewFile(level, file)]
  {
  }

  // --------------------------------------------------------------------------------- blocks

  lemma ItemBytes()
    ensures Blocks.ItemBytes(Blocks.Item(0, [97, 98], [120])) == [0, 2, 1, 97, 98, 120]
    ensures Blocks.ItemBytes(Blocks.Item(1, [97, 99], [121])) == [1, 1, 1, 99, 121]
  {
    SmallVarint(0);
    SmallVarint(1);
    SmallVarint(2);
    hide Varint;
    assert [97, 98][0..] == [97, 98] && [97, 99][1..] == [99];
  }

  lemma BufferBytes(items: seq<Blocks.Item>)
    requires items == [Blocks.Item(0, [97, 98], [120]), Blocks.Item(1, [97, 99], [121])]
    ensures Blocks.WellShared(items) && Blocks.Buffer(items) == [0, 2, 1, 97, 98, 120] + [1, 1, 1, 99, 121]
  {
    assert Blocks.SharesWith(items[1], items[0].key) by { assert [97, 99][..1] == [97, 98][..1]; }
    ItemBytes();
    hide Blocks.ItemBytes, Blocks.SharesWith;
    assert items[..1] == [items[0]] && items[..1][..0] == [];
    assert Blocks.Buffer(items[..1]) == [0, 2, 1, 97, 98, 120];
  }

  lemma RestartBytes()
    ensures Blocks.FixedAll([0]) == [0, 0, 0, 0] && Fixed(1, 4) == [1, 0, 0, 0]
  {
    assert Fixed(0, 4) == [0, 0, 0, 0];
    assert [0][..0] == [] && Blocks.FixedAll([]) == [];
  }

  lemma OneRestart(items: seq<Blocks.Item>)
    requires Blocks.WellShared(items)
    ensures Blocks.Offsets(items, [0]) == [0]
  {
    hide Blocks.WellShared;
    assert items[..0] == [] && [0][..0] == [];
    assert Blocks.Offset(items, 0) == 0 by { Blocks.EmptyBuffer(); }
  }

  /** Two entries whose keys share a byte, one restart point, and the number of those. */
  lemma BlockBytes(items: seq<Blocks.Item>)
    requires items == [Blocks.Item(0, [97, 98], [120]), Blocks.Item(1, [97, 99], [121])]
    ensures Blocks.WellShared(items) && Blocks.GoodStarts(items, [0])
    ensures Blocks.BlockBytes(items, [0]) ==
      [0, 2, 1, 97, 98, 120] + [1, 1, 1, 99, 121] + [0, 0, 0, 0] + [1, 0, 0, 0]
  {
    hide Blocks.WellShared, Blocks.Buffer, Blocks.FixedAll, Fixed, Blocks.Offsets;
    BufferBytes(items);
    OneRestart(items);
    RestartBytes();
  }

  // ----------------------------------------------------------------------- protobuf messages

  function Number(kind: PbCommon.ValueType): PbCommon.Field {
    PbCommon.Field(1, PbCommon.Required, kind, 4, false, PbCommon.Num(0))
  }

  lemma Varints()
    ensures Varint(3) == [3] && Varint(8) == [8] && Varint(9) == [9] && Varint(13) == [13]
    ensures Varint(150) == [0x96, 1] && Varint(0xffff_fffe) == [0xfe, 0xff, 0xff, 0xff, 15]
    ensures Fixed(0x102, 4) == [2, 1, 0, 0]
  {
  }

  lemma MinusOne()
    ensures Varint(0xffff_ffff_ffff_ffff) == [0xff, 0xff, 0xff, 0xff, 0xff, 0xff, 0xff, 0xff, 0xff, 1]
  {
    SmallVarint(1);
    hide Varint;
    OneByteMore(0xff);
    OneByteMore(0x7fff);
    OneByteMore(0x3f_ffff);
    OneByteMore(0x1fff_ffff);
    OneByteMore(0xf_ffff_ffff);
    OneByteMore(0x7ff_ffff_ffff);
    OneByteMore(0x3_ffff_ffff_ffff);
    OneByteMore(0x1ff_ffff_ffff_ffff);
    OneByteMore(0xffff_ffff_ffff_ffff);
  }

  lemma OneByteMore(v: nat)
    requires v >= 128
    ensures Varint(v) == [v % 128 + 128] + Varint(v / 128)
  {
  }

  /** Numbers of every kind in field 1, after the tag of their wire type. */
  lemma NumberFields()
    ensures Sends(PbCommon.Unsigned, 150, [8, 0x96, 1])
    ensures Sends(PbCommon.ZigZag, -2, [8, 3])
    ensures Sends(PbCommon.ZigZag, 0x7fff_ffff, [8, 0xfe, 0xff, 0xff, 0xff, 15])
    ensures Sends(PbCommon.Fixed32, 0x102, [13, 2, 1, 0, 0])
  {
    Varints();
    hide Varint, Fixed;
  }

  lemma WideNumberFields()
    ensures Sends(PbCommon.Signed, -1, [8, 0xff, 0xff, 0xff, 0xff, 0xff, 0xff, 0xff, 0xff, 0xff, 1])
    ensures Sends(PbCommon.Fixed64, 5, [9, 5, 0, 0, 0, 0, 0, 0, 0])
  {
    Varints();
    MinusOne();
    MoreNumbers();
    hide Varint, Fixed;
  }

  ghost predicate Sends(kind: PbCommon.ValueType, n: int, bytes: Bytes) {
    var f, v := Number(kind), PbCommon.Num(n);
    && PbEncode.FitsValue(f, v) && PbEncode.EncodedEntry(f, v).Some? && PbEncode.EncodedEntry(f, v).value == bytes
  }

  /** A string after its length. */
  lemma StringField()
    ensures var f := PbCommon.Field(2, PbCommon.Required, PbCommon.Text, 8, false, PbCommon.Blob([]));
      PbEncode.EncodedEntry(f, PbCommon.Blob([97, 98])) == Some([18, 2, 97, 98])
  {
    SmallVarint(2);
    SmallVarint(18);
    hide Varint;
    assert [18] + ([2] + [97, 98]) == [18, 2, 97, 98];
  }

  /** A packed array after the length of all its items. */
  lemma PackedField()
    ensures var f := PbCommon.Field(4, PbCommon.Repeated(3), PbCommon.Unsigned, 4, false, PbCommon.Num(0));
      PbEncode.EncodedArray(f, [PbCommon.Num(3), PbCommon.Num(150)]) == Some([34, 3, 3, 0x96, 1])
  {
    Varints();
    SmallVarint(34);
    hide Varint;
    var f := PbCommon.Field(4, PbCommon.Repeated(3), PbCommon.Unsigned, 4, false, PbCommon.Num(0));
    assert PbEncode.EncodedItems(f, [PbCommon.Num(150)]) == Some([0x96, 1]) by {
      assert PbEncode.EncodedItems(f, []) == Some([]) && [0x96, 1] + [] == [0x96, 1];
      assert [PbCommon.Num(150)][1..] == [];
    }
    assert PbEncode.EncodedItems(f, [PbCommon.Num(3), PbCommon.Num(150)]) == Some([3, 0x96, 1]) by {
      assert [PbCommon.Num(3), PbCommon.Num(150)][1..] == [PbCommon.Num(150)] && [3] + [0x96, 1] == [3, 0x96, 1];
    }
    assert [34] + ([3] + [3, 0x96, 1]) == [34, 3, 3, 0x96, 1];
  }
}
