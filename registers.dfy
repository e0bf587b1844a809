/** The register address table and the size classifier of the
    `ManageRegisters` implementation, with what follows from them about
    bounds and aliasing. */
module Registers {
  import opened Casts
  import opened Types
  import opened Cells

  /** The offset `init_register_lookup_table` stores for each register. */
  function RegisterOffset(r: Register): (o: int)
    ensures o == -1 <==> r == Unknwown
    ensures r != Unknwown ==> 0 <= o && o + 1 < MemorySize
  {
    match r
    case AL => 3 case BL => 7 case CL => 11 case DL => 15
    case AH => 2 case BH => 6 case CH => 10 case DH => 14
    case AX => 0 case BX => 4 case CX => 8 case DX => 12
    case EAX => 0 case EBX => 4 case ECX => 8 case EDX => 12
    case ESP => 16 case EBP => 20
    case Unknwown => -1
  }

  /** The lookup-table key of a register: `register as i32`. */
  function Key(r: Register): (k: int32)
    ensures 0 <= k < 19
    ensures k as int == r.Ordinal()
  {
    r.Ordinal() as int32
  }

  /** Every key in 0..18 belongs to some register. */
  lemma RegisterKeysCover(k: int32)
    requires 0 <= k < 19
    ensures exists r: Register :: Key(r) == k
  {
    var r := if k == 0 then AL else if k == 1 then BL else if k == 2 then CL
      else if k == 3 then DL else if k == 4 then AH else if k == 5 then BH
      else if k == 6 then CH else if k == 7 then DH else if k == 8 then AX
      else if k == 9 then BX else if k == 10 then CX else if k == 11 then DX
      else if k == 12 then EAX else if k == 13 then EBX else if k == 14 then ECX
      else if k == 15 then EDX else if k == 16 then ESP else if k == 17 then EBP
      else Unknwown;
    assert Key(r) == k;
  }

  /** The table has `r`'s entry: its offset under its key. */
  ghost predicate HasEntry(table: map<int32, int32>, r: Register) {
    Key(r) in table && table[Key(r)] as int == RegisterOffset(r)
  }

  /** A table holding exactly the 19 entries of RegisterOffset, keyed by
      each register's discriminant. */
  ghost predicate IsRegisterTable(table: map<int32, int32>) {
    && (forall k: int32 | k in table :: 0 <= k < 19)
    && (forall r: Register :: HasEntry(table, r))
  }

  /** A register table has exactly the keys 0..18, one per register. */
  lemma RegisterTableKeys(table: map<int32, int32>)
    requires IsRegisterTable(table)
    ensures forall k: int32 :: k in table <==> 0 <= k < 19
  {
    forall k: int32 | 0 <= k < 19 ensures k in table {
      RegisterKeysCover(k);
      var r: Register :| Key(r) == k;
      assert HasEntry(table, r);
    }
  }

  /** `table` differs from `before` only by entries under keys 0..18: it
      keeps every key of `before`, adds none outside 0..18, and leaves the
      value under every key outside 0..18 as it was. */
  ghost predicate KeepsOtherKeys(before: map<int32, int32>, table: map<int32, int32>) {
    && (forall k: int32 | k in table :: k in before || 0 <= k < 19)
    && (forall k: int32 | k in before :: k in table)
    && (forall k: int32 | k in before && !(0 <= k < 19) :: table[k] == before[k])
  }

  /** The map that the 19 inserts of `init_register_lookup_table` make of
      `table`, in the order the source makes them. */
  function RegisterTableInserts(table: map<int32, int32>): map<int32, int32>
  {
    table
      [Key(AL) := 3]
      [Key(BL) := 7]
      [Key(CL) := 11]
      [Key(DL) := 15]
      [Key(AH) := 2]
      [Key(BH) := 6]
      [Key(CH) := 10]
      [Key(DH) := 14]
      [Key(AX) := 0]
      [Key(BX) := 4]
      [Key(CX) := 8]
      [Key(DX) := 12]
      [Key(EAX) := 0]
      [Key(EBX) := 4]
      [Key(ECX) := 8]
      [Key(EDX) := 12]
      [Key(ESP) := 16]
      [Key(EBP) := 20]
      [Key(Unknwown) := -1]
  }

  /** After the inserts, every register's key holds its literal offset:
      no later insert overwrites an earlier register's entry. */
  lemma RegisterTableInsertsEntries(table: map<int32, int32>)
    ensures forall r: Register :: HasEntry(RegisterTableInserts(table), r)
  {
  }

  /** The inserts add keys in 0..18 only, drop no key, and leave every entry
      under a key outside 0..18 as it was. */
  lemma RegisterTableInsertsFrame(table: map<int32, int32>)
    ensures KeepsOtherKeys(table, RegisterTableInserts(table))
  {
  }

  /** `get_register_size`: Word for discriminants 8..11, Byte for 0..7 and,
      by fall-through, for every other discriminant. */
  function RegisterSize(r: Register): (s: MemoryOperationSize)
    ensures s == Word <==> 8 <= r.Ordinal() <= 11
    ensures s == Word <==> r in {AX, BX, CX, DX}
  {
    var val := AsI8(r.Ordinal());
    if 0 <= val <= 7 then Byte
    else if 8 <= val <= 11 then Word
    else Byte
  }

  /** The 32-bit register that shares a 16-bit register's table offset. */
  predicate ExtendedPair(r16: Register, r32: Register) {
    match r16
    case AX => r32 == EAX
    case BX => r32 == EBX
    case CX => r32 == ECX
    case DX => r32 == EDX
    case _ => false
  }

  /** Two distinct real registers share an offset exactly when one is a
      16-bit register and the other its 32-bit extension. */
  lemma SharedOffsets(r1: Register, r2: Register)
    requires r1 != Unknwown && r2 != Unknwown
    ensures RegisterOffset(r1) == RegisterOffset(r2)
            <==> r1 == r2 || ExtendedPair(r1, r2) || ExtendedPair(r2, r1)
  {
  }

  /** The cells an access through `r` touches, at its offset and width,
      lie before or after those of `r'`. */
  predicate DisjointAccess(r: Register, r': Register) {
    || RegisterOffset(r) + SizeInBytes(RegisterSize(r)) <= RegisterOffset(r')
    || RegisterOffset(r') + SizeInBytes(RegisterSize(r')) <= RegisterOffset(r)
  }

  /** Under the table and the classifier as they stand, no two of the twelve
      8- and 16-bit registers overlap: AH and AL (offsets 2, 3) lie outside
      AX's word (offsets 0, 1), and likewise for B, C and D. */
  lemma NarrowRegistersDisjoint(r: Register, r': Register)
    requires r != r' && r.Ordinal() < 12 && r'.Ordinal() < 12
    ensures DisjointAccess(r, r')
  {
  }

  /** A write through one 8- or 16-bit register, at its offset and width,
      leaves what every other such register reads unchanged. */
  lemma NarrowWriteIsolation(cells: seq<int8>, r: Register, r': Register, value: int32)
    requires |cells| == MemorySize
    requires r != r' && r.Ordinal() < 12 && r'.Ordinal() < 12
    ensures Read(Write(cells, RegisterOffset(r), value, RegisterSize(r)), RegisterOffset(r'), RegisterSize(r'))
            == Read(cells, RegisterOffset(r'), RegisterSize(r'))
  {
  }

  /** A word written through a 32-bit register's offset is read back through
      its 16-bit partner exactly as through the 32-bit register itself. */
  lemma ExtendedAlias(cells: seq<int8>, r16: Register, r32: Register, value: int32)
    requires |cells| == MemorySize && ExtendedPair(r16, r32)
    ensures Read(Write(cells, RegisterOffset(r32), value, Word), RegisterOffset(r16), Word) as int
            == WordReadBack(AsI16(value as int))
  {
  }

  /** A 32-bit register is classified Byte, so reading it with its own size
      sees only the cell at its offset: after a word write through its
      16-bit partner that is the partner's high byte. */
  lemma ExtendedReadsHighByte(cells: seq<int8>, r16: Register, r32: Register, value: int32)
    requires |cells| == MemorySize && ExtendedPair(r16, r32)
    ensures RegisterSize(r32) == Byte && RegisterSize(r16) == Word
    ensures Read(Write(cells, RegisterOffset(r16), value, Word), RegisterOffset(r32), RegisterSize(r32))
            == ShiftRight8(AsI16(value as int)) as int32
  {
  }
}
