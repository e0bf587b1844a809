/** Concrete consequences of the store's semantics, for the fixed 4096-cell
    address space. */
module Scenarios {
  import opened Casts
  import opened Types
  import opened Cells
  import opened Registers

  /** Every byte and word read of a freshly zeroed store yields 0. */
  lemma FreshStoreReadsZero(cells: seq<int8>, position: nat, size: MemoryOperationSize)
    requires |cells| == MemorySize && AllZero(cells) && InBounds(cells, position, size)
    ensures Read(cells, position, size) == 0
  {
  }

  /** Word write of 300 (0x012C) at offset 0: the high cell holds 1, the low
      cell 44, and the word reads back as 300. */
  lemma WordWriteOf300(cells: seq<int8>)
    requires |cells| == MemorySize
    ensures Read(Write(cells, 0, 300, Word), 0, Byte) == 1
    ensures Read(Write(cells, 0, 300, Word), 1, Byte) == 44
    ensures Read(Write(cells, 0, 300, Word), 0, Word) == 300
  {
  }

  /** Word write of -1 (0xFFFF) at offset 0: both cells hold -1, and the
      word reads back as -257, not -1, because the low cell is added signed. */
  lemma WordWriteOfMinusOne(cells: seq<int8>)
    requires |cells| == MemorySize
    ensures Read(Write(cells, 0, -1, Word), 0, Byte) == -1
    ensures Read(Write(cells, 0, -1, Word), 1, Byte) == -1
    ensures Read(Write(cells, 0, -1, Word), 0, Word) == -257
  {
    var c := Write(cells, 0, -1, Word);
    assert c == Write16(cells, 0, -1);
    assert c[0] == -1 && c[1] == -1;
  }

  /** Word write of 0x1234 through AX's offset: cells 0 and 1 hold 0x12 and
      0x34, AH and AL read what they read before, and EAX, read as a word,
      sees 0x1234. */
  lemma WordWriteThroughAX(cells: seq<int8>)
    requires |cells| == MemorySize
    ensures Read(Write(cells, RegisterOffset(AX), 0x1234, Word), 0, Byte) == 0x12
    ensures Read(Write(cells, RegisterOffset(AX), 0x1234, Word), 1, Byte) == 0x34
    ensures Read(Write(cells, RegisterOffset(AX), 0x1234, Word), RegisterOffset(AL), Byte)
            == Read(cells, RegisterOffset(AL), Byte)
    ensures Read(Write(cells, RegisterOffset(AX), 0x1234, Word), RegisterOffset(AH), Byte)
            == Read(cells, RegisterOffset(AH), Byte)
    ensures Read(Write(cells, RegisterOffset(AX), 0x1234, Word), RegisterOffset(EAX), Word) == 0x1234
  {
  }
}
