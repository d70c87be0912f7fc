/**
 Bytes known from the formats, so that writer and reader do not merely agree with each other:
 varints, version edits, batches, log fragments, internal keys, the table footer (leveldb) and
 messages (nanopb).
 */
module KnownBytes {
  import opened Coding
  import BlockFormat
  import Bloom
  import ByteKeys
  import Crc
  import Log
  import opened Nanopb
  import opened NanopbEncode
  import Table
  import VersionEdit
  import WriteBatch

  lemma Varints()
    ensures Varint(0) == [0] && Varint(127) == [0x7F] && Varint(128) == [0x80, 1] && Varint(300) == [0xAC, 2]
    ensures Fixed(0x0403_0201, 4) == [1, 2, 3, 4]
  {
    assert Varint(300 / 128) == [2];
    Fixed4(0x0403_0201);
  }

  lemma Fixed4(v: nat)
    ensures Fixed(v, 4) == [v % 256, v / 256 % 256, v / 256 / 256 % 256, v / 256 / 256 / 256 % 256]
  {
    assert Fixed(v / 256 / 256 / 256, 1) == [v / 256 / 256 / 256 % 256] + Fixed(v / 256 / 256 / 256 / 256, 0);
    assert Fixed(v / 256 / 256, 2) == [v / 256 / 256 % 256] + Fixed(v / 256 / 256 / 256, 1);
    assert Fixed(v / 256, 3) == [v / 256 % 256] + Fixed(v / 256 / 256, 2);
  }

  /** An internal key ends in its sequence number and type, the type in the lowest byte. */
  lemma InternalKeys()
    ensures ByteKeys.InternalKey([0x61], 5, 1) == [0x61, 1, 5, 0, 0, 0, 0, 0, 0]
  {
    assert ByteKeys.PackTag(5, 1) == 0x501;
    FixedShort(0x501);
  }

  lemma FixedShort(v: nat)
    requires v < 0x1_0000
    ensures Fixed(v, 8) == [v % 256, v / 256, 0, 0, 0, 0, 0, 0]
  {
    Fixed4(0);
    assert Fixed(0, 5) == [0] + Fixed(0, 4);
    assert Fixed(0, 6) == [0] + Fixed(0, 5);
    assert Fixed(v / 256, 7) == [v / 256] + Fixed(0, 6);
    assert Fixed(v, 8) == [v % 256] + Fixed(v / 256, 7);
  }

  /** The tags of a version edit; each number is the one on disk. */
  lemma EditFields()
    ensures VersionEdit.FieldBytes(VersionEdit.Comparator([0x61])) == [1, 1, 0x61]
    ensures VersionEdit.FieldBytes(VersionEdit.LogNumber(7)) == [2, 7]
    ensures VersionEdit.FieldBytes(VersionEdit.NextFile(8)) == [3, 8]
    ensures VersionEdit.FieldBytes(VersionEdit.LastSequence(9)) == [4, 9]
    ensures VersionEdit.FieldBytes(VersionEdit.CompactPointer(VersionEdit.Pointer(2, [0x62]))) == [5, 2, 1, 0x62]
    ensures VersionEdit.FieldBytes(VersionEdit.DeletedFile(VersionEdit.Deletion(3, 6))) == [6, 3, 6]
    ensures VersionEdit.FieldBytes(VersionEdit.PrevLogNumber(0)) == [9, 0]
  {
  }

  lemma EditAddition()
    ensures
      var meta := VersionEdit.FileMeta(12, 100, [0x61], [0x7A, 0x7A]);
      VersionEdit.FieldBytes(VersionEdit.NewFile(VersionEdit.Addition(1, meta))) == [7, 1, 12, 100, 1, 0x61, 2, 0x7A, 0x7A]
  {
  }

  lemma BatchOps()
    ensures WriteBatch.OpBytes(WriteBatch.Put([0x61], [0x76, 0x76])) == [1, 1, 0x61, 2, 0x76, 0x76]
    ensures WriteBatch.OpBytes(WriteBatch.Delete([0x61])) == [0, 1, 0x61]
  {
  }

  /** A block entry: the bytes shared, the bytes that follow, the size of the value, then key and value. */
  lemma BlockEntry()
    ensures BlockFormat.EntryBytes(2, BlockFormat.Pair([0x61, 0x62, 0x63], [0x76])) == [2, 1, 1, 0x63, 0x76]
  {
  }

  /** Ten bits a key take six probes, and the second hash is the first one rotated by seventeen bits. */
  lemma BloomNumbers()
    ensures Bloom.ProbesFor(1) == 1 && Bloom.ProbesFor(10) == 6 && Bloom.ProbesFor(100) == 30
    ensures Bloom.Rotated(0x0002_0003) == 0x0001_8001
    ensures Bloom.TableSize(1, 10) == 8 && Bloom.TableSize(100, 10) == 125
  {
  }

  /** Behind the checksum a log fragment has its length, low byte first, and its type. */
  lemma LogFragment(crc: Crc.Checksum)
    ensures Log.Frame(crc, Log.LAST_TYPE, [8, 9])[4..] == [2, 0, 4, 8, 9]
  {
  }

  /** A table ends in the number 0xdb4775248b80fb57. */
  lemma FooterEnd(meta: Table.Handle, index: Table.Handle)
    ensures Table.FooterBytes(meta, index)[40..] == [0x57, 0xFB, 0x80, 0x8B, 0x24, 0x75, 0x47, 0xDB]
  {
    Table.HandleLimit(meta);
    Table.HandleLimit(index);
    Fixed4(Table.MAGIC_LOW);
    Fixed4(Table.MAGIC_HIGH);
  }

  // ---- Messages ----

  function Scalar(tag: uint32, kind: Kind, size: nat, initial: Value): Field {
    Field(tag, kind, Required, size, 0, initial, [])
  }

  /** Each kind with its wire type in the low bits of the tag. */
  lemma MessageFields()
    ensures EncodeTagged(Scalar(1, LBool, 1, Truth(false)), [Truth(true)]) == [0x08, 1]
    ensures EncodeTagged(Scalar(1, LUvarint, 4, Number(0)), [Number(150)]) == [0x08, 0x96, 1]
    ensures EncodeTagged(Scalar(1, LSvarint, 4, Number(0)), [Number(-2)]) == [0x08, 3]
  {
  }

  lemma TextField()
    ensures EncodeTagged(Scalar(2, LString, 8, Data([0])), [Data([0x74, 0x65, 0])]) == [0x12, 2, 0x74, 0x65]
  {
    assert TextLength([0]) == 0;
    assert [0x65, 0][1..] == [0];
    assert TextLength([0x65, 0]) == 1;
    assert [0x74, 0x65, 0][1..] == [0x65, 0];
    assert TextLength([0x74, 0x65, 0]) == 2;
  }

  lemma FixedField32()
    ensures EncodeTagged(Scalar(1, LFixed32, 4, Number(0)), [Number(1)]) == [0x0D, 1, 0, 0, 0]
  {
    hide Fixed;
    Fixed4(1);
  }

  lemma FixedField64()
    ensures EncodeTagged(Scalar(1, LFixed64, 8, Number(0)), [Number(1)]) == [0x09, 1, 0, 0, 0, 0, 0, 0, 0]
  {
    hide Fixed;
    FixedShort(1);
  }

  /** The numbers of an array share one tag. */
  lemma PackedArray()
    ensures EncodeArray(Field(4, LUvarint, Repeated(true), 4, 8, Number(0), []), [Number(3), Number(270)])
            == [0x22, 3, 3, 0x8E, 2]
  {
    var f := Field(4, LUvarint, Repeated(true), 4, 8, Number(0), []);
    assert Varint(270 / 128) == [2];
    assert EncodeItems(f, []) == [];
    assert EncodeItems(f, [Number(270)]) == [0x8E, 2];
    assert [Number(3), Number(270)][1..] == [Number(270)];
    assert EncodeItems(f, [Number(3), Number(270)]) == [3, 0x8E, 2];
  }

  /** Without a has-flag a zero is not written, and one that is set is. */
  lemma ZeroLeftOut()
    ensures EncodeSlot(Field(3, LUvarint, Optional(false), 4, 0, Number(0), []), Single(Number(0))) == []
    ensures EncodeSlot(Field(3, LUvarint, Optional(false), 4, 0, Number(0), []), Single(Number(5))) == [0x18, 5]
    ensures EncodeSlot(Field(3, LUvarint, Optional(true), 4, 0, Number(0), []), Maybe(true, Number(0))) == [0x18, 0]
  {
  }
}
