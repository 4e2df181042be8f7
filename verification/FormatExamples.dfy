/** Bytes of the formats, written out: encoder and decoder agree with others on them, not only
    with each other. */
module FormatExamples {
  import opened DbFormat
  import opened Coding
  import opened TableFiles
  import opened VersionBuilder
  import Logs
  import Blocks
  import EditCoding
  import opened PbMessages

  lemma Numbers()
    ensures Fixed(0x1234_5678, 4) == [0x78, 0x56, 0x34, 0x12]
    ensures Varint(127) == [127] && Varint(128) == [0x80, 1] && Varint(300) == [0xac, 2]
    ensures Varint(0xffff_ffff) == [0xff, 0xff, 0xff, 0xff, 0x0f]
    ensures PutLengthPrefixed([5, 6]) == [2, 5, 6]
    ensures PackSequenceAndType(3, Deletion) == 0x300 && PackSequenceAndType(3, Value) == 0x301
  {
    assert Fixed(0x12_3456, 3) == [0x56, 0x34, 0x12];
    assert Varint(0x1f_ffff) == [0xff, 0xff, 0x7f];
  }

  /** The checksum is turned by fifteen bits, a constant is added, and it stands before length,
      type and payload. */
  lemma LogFragment()
    ensures Logs.Physical(_ => 0x8001, 1, [7, 8, 9]) == [0xd9, 0xea, 0x84, 0xa2, 3, 0, 1, 7, 8, 9]
    ensures [Logs.FragmentType(true, true), Logs.FragmentType(true, false), Logs.FragmentType(false, false), Logs.FragmentType(false, true)] == [1, 2, 3, 4]
  {
    assert Logs.Mask(0x8001) == 0xa284_ead9;
    assert Fixed(0xa284_ead9, 4) == [0xd9, 0xea, 0x84, 0xa2];
  }

  lemma BlockEntry()
    ensures Blocks.EntryBytes(2, [97], [118, 49]) == [2, 1, 2, 97, 118, 49]
  {
    hide Varint;
    SmallVarints();
  }

  const KEY := InternalKey(1.0, 2, Value)
  const TABLE := File(8, 90, KEY, KEY, [])
  const EDIT := VersionEdit(Some([120]), Some(3), Some(0), Some(9), Some(4), [(1, KEY)], {(2, 7)}, [(0, TABLE)])

  /** A record of a manifest, with user key 1 written as one byte. */
  lemma ManifestRecord(c: EditCoding.Context)
    requires c.put(1.0) == [97]
    ensures var key := [9, 97, 1, 2, 0, 0, 0, 0, 0, 0];
      EditCoding.EncodeEdit(c, EDIT, [(2, 7)]) ==
      [1, 1, 120] + ([2, 3] + [9, 0] + [3, 9] + [4, 4]) + ([5, 1] + key) + [6, 2, 7] + ([7] + [0] + [8] + [90] + key + key)
  {
    FieldBytes(c);
    hide EditCoding.PutComparator, EditCoding.PutNumbers, EditCoding.PutPointer, EditCoding.PutDeleted, EditCoding.PutNew, EDIT, KEY, TABLE;
    OneOfEach(c, EDIT.compactPointers[0], (2, 7), EDIT.newFiles[0]);
    Parts();
  }

  lemma Parts()
    ensures EDIT.comparator == Some([120]) && EDIT.compactPointers == [(1, KEY)] && EDIT.newFiles == [(0, TABLE)]
  {
  }

  lemma OneOfEach(c: EditCoding.Context, pointer: (nat, InternalKey), deleted: (nat, nat), table: (nat, File))
    ensures EditCoding.PutPointers(c, [pointer]) == EditCoding.PutPointer(c, pointer)
    ensures EditCoding.PutDeletions([deleted]) == EditCoding.PutDeleted(deleted)
    ensures EditCoding.PutNewFiles(c, [table]) == EditCoding.PutNew(c, table)
  {
    hide EditCoding.PutPointer, EditCoding.PutDeleted, EditCoding.PutNew;
    assert EditCoding.PutPointers(c, [pointer][1..]) == [] && EditCoding.PutDeletions([deleted][1..]) == [];
    assert EditCoding.PutNewFiles(c, [table][1..]) == [];
  }

  lemma FieldBytes(c: EditCoding.Context)
    requires c.put(1.0) == [97]
    ensures var key := [9, 97, 1, 2, 0, 0, 0, 0, 0, 0];
      && EditCoding.PutComparator(EDIT.comparator) == [1, 1, 120]
      && EditCoding.PutNumbers(EDIT) == [2, 3] + [9, 0] + [3, 9] + [4, 4]
      && EditCoding.PutPointer(c, (1, KEY)) == [5, 1] + key
      && EditCoding.PutDeleted((2, 7)) == [6, 2, 7]
      && EditCoding.PutNew(c, (0, TABLE)) == [7] + [0] + [8] + [90] + key + key
  {
    PutKeyBytes(c);
    SmallVarints();
    hide Varint, EditCoding.PutKey;
    assert EditCoding.PutNumber(2, Some(3)) == [2, 3] && EditCoding.PutNumber(9, Some(0)) == [9, 0];
    assert EditCoding.PutNumber(3, Some(9)) == [3, 9] && EditCoding.PutNumber(4, Some(4)) == [4, 4];
    hide EditCoding.PutNumber;
  }

  lemma PutKeyBytes(c: EditCoding.Context)
    requires c.put(1.0) == [97]
    ensures EditCoding.PutKey(c, KEY) == [9, 97, 1, 2, 0, 0, 0, 0, 0, 0]
  {
    KeyBytes(c);
    SmallVarints();
    hide Varint, EditCoding.EncodeKey;
  }

  lemma KeyBytes(c: EditCoding.Context)
    requires c.put(1.0) == [97]
    ensures EditCoding.EncodeKey(c, KEY) == [97, 1, 2, 0, 0, 0, 0, 0, 0]
  {
    Trailer();
    hide Fixed;
  }

  lemma Trailer()
    ensures PackSequenceAndType(2, Value) == 0x201 && Fixed(0x201, 8) == [1, 2, 0, 0, 0, 0, 0, 0]
  {
    assert Fixed(0, 3) == [0, 0, 0];
    assert Fixed(0, 6) == [0, 0, 0, 0, 0, 0];
  }

  lemma SmallVarints()
    ensures forall n: nat :: n < 128 ==> Varint(n) == [n]
  {
  }

  // ------------------------------ the examples of Protocol Buffers encoding

  lemma VarintField()
    ensures EncodeField(Field(1, Required, Int(4)), [Number(150)]) == [0x08, 0x96, 0x01]
  {
  }

  lemma StringField()
    ensures EncodeField(Field(2, Optional, Text(8)), [Octets([0x74, 0x65, 0x73])]) == [0x12, 0x03, 0x74, 0x65, 0x73]
  {
  }

  lemma PackedField()
    ensures EncodeField(Field(4, Repeated(3), Int(4)), [Number(3), Number(270), Number(86942)]) == [0x22, 6, 3, 0x8e, 2, 0x9e, 0xa7, 5]
  {
    var k, a, b, d := Int(4), Number(3), Number(270), Number(86942);
    assert EncodeValue(k, a) == [3] && EncodeValue(k, b) == [0x8e, 2] && EncodeValue(k, d) == [0x9e, 0xa7, 5];
    assert [a, b, d][1..] == [b, d] && [b, d][1..] == [d] && [d][1..] == [];
    assert EncodePacked(k, [d]) == [0x9e, 0xa7, 5];
    assert EncodePacked(k, [b, d]) == [0x8e, 2, 0x9e, 0xa7, 5];
  }

  lemma FixedFields()
    ensures EncodeTag(1, WireType(Fixed32)) + EncodeValue(Fixed32, Number(1)) == [0x0d, 1, 0, 0, 0]
    ensures EncodeTag(1, WireType(Fixed64)) + EncodeValue(Fixed64, Number(1)) == [0x09, 1, 0, 0, 0, 0, 0, 0, 0]
  {
    SmallVarints();
    assert Fixed(0, 3) == [0, 0, 0];
    assert Fixed(1, 4) == [1, 0, 0, 0];
    assert Fixed(0, 6) == [0, 0, 0, 0, 0, 0];
    assert Fixed(1, 8) == [1, 0, 0, 0, 0, 0, 0, 0];
    hide Varint, Fixed;
  }

  lemma ZigZags()
    ensures [ZigZag(0), ZigZag(-1), ZigZag(1), ZigZag(-2), ZigZag(0x7fff_ffff), ZigZag(-0x8000_0000)] == [0, 1, 2, 3, 0xffff_fffe, 0xffff_ffff]
  {
  }

  /** A negative number takes ten bytes. */
  lemma NegativeNumber()
    ensures EncodeNumber(Int(4), -2) == [0xfe, 0xff, 0xff, 0xff, 0xff, 0xff, 0xff, 0xff, 0xff, 1]
  {
    SmallVarints();
    hide Varint;
    Longer(0xff, [1]);
    Longer(0x7fff, [0xff, 1]);
    Longer(0x3f_ffff, [0xff, 0xff, 1]);
    Longer(0x1fff_ffff, [0xff, 0xff, 0xff, 1]);
    Longer(0xf_ffff_ffff, [0xff, 0xff, 0xff, 0xff, 1]);
    Longer(0x7ff_ffff_ffff, [0xff, 0xff, 0xff, 0xff, 0xff, 1]);
    Longer(0x3_ffff_ffff_ffff, [0xff, 0xff, 0xff, 0xff, 0xff, 0xff, 1]);
    Longer(0x1ff_ffff_ffff_ffff, [0xff, 0xff, 0xff, 0xff, 0xff, 0xff, 0xff, 1]);
    Longer(0xffff_ffff_ffff_fffe, [0xff, 0xff, 0xff, 0xff, 0xff, 0xff, 0xff, 0xff, 1]);
  }

  lemma Longer(n: nat, rest: bytes)
    requires n >= 128 && Varint(n / 128) == rest
    ensures Varint(n) == [n % 128 + 128] + rest
  {
  }
}
