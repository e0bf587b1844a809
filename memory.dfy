/** The emulator's flat address space: the `Memory` struct with its byte
    vector and its register lookup table, its construction, and the
    `ManageMemory` and `ManageRegisters` implementations on it. */
module Memory {
  import opened Casts
  import opened Types
  import Cells
  import opened Registers

  class Memory {
    /** `raw_memory`: the signed cells of the address space. */
    var rawMemory: seq<int8>
    /** `register_lookup_table`: register discriminant to cell offset. */
    var registerLookupTable: map<int32, int32>

    /** Every constructed memory has 4096 cells and the full register table. */
    ghost predicate Valid()
      reads this
    {
      |rawMemory| == Cells.MemorySize && IsRegisterTable(registerLookupTable)
    }

    /** The struct literal at the start of `init`: an empty vector and an
        empty map. */
    constructor Empty()
      ensures rawMemory == [] && registerLookupTable == map[]
    {
      rawMemory := [];
      registerLookupTable := map[];
    }

    /** `register_lookup_table.insert(register as i32, offset)`: the
        entry under the register's key becomes `offset`. */
    static method InsertEntry(memory: Memory, register: Register, offset: int32)
      modifies memory`registerLookupTable
      ensures memory.registerLookupTable == old(memory.registerLookupTable)[Key(register) := offset]
    {
      memory.registerLookupTable := memory.registerLookupTable[Key(register) := offset];
    }

    /** `init_register_lookup_table`: one insert per register, keyed by its
        discriminant.  Afterwards every register's key holds its offset, and
        entries under any other key are as before. */
    static method InitRegisterLookupTable(memory: Memory)
      modifies memory`registerLookupTable
      ensures memory.registerLookupTable == RegisterTableInserts(old(memory.registerLookupTable))
      ensures forall r: Register :: HasEntry(memory.registerLookupTable, r)
      ensures KeepsOtherKeys(old(memory.registerLookupTable), memory.registerLookupTable)
    {
      InsertEntry(memory, AL, 3);
      InsertEntry(memory, BL, 7);
      InsertEntry(memory, CL, 11);
      InsertEntry(memory, DL, 15);
      InsertEntry(memory, AH, 2);
      InsertEntry(memory, BH, 6);
      InsertEntry(memory, CH, 10);
      InsertEntry(memory, DH, 14);

      InsertEntry(memory, AX, 0);
      InsertEntry(memory, BX, 4);
      InsertEntry(memory, CX, 8);
      InsertEntry(memory, DX, 12);

      InsertEntry(memory, EAX, 0);
      InsertEntry(memory, EBX, 4);
      InsertEntry(memory, ECX, 8);
      InsertEntry(memory, EDX, 12);

      InsertEntry(memory, ESP, 16);
      InsertEntry(memory, EBP, 20);

      InsertEntry(memory, Unknwown, -1);

      RegisterTableInsertsEntries(old(memory.registerLookupTable));
      RegisterTableInsertsFrame(old(memory.registerLookupTable));
    }

    /** `init`: fill the register table, then push 4096 zero cells. */
    static method Init() returns (result: Memory)
      ensures fresh(result) && result.Valid()
      ensures |result.rawMemory| == Cells.MemorySize && Cells.AllZero(result.rawMemory)
      ensures forall k: int32 :: k in result.registerLookupTable <==> 0 <= k < 19
    {
      result := new Memory.Empty();
      InitRegisterLookupTable(result);
      for index := 0 to Cells.MemorySize
        invariant |result.rawMemory| == index
        invariant Cells.AllZero(result.rawMemory)
        invariant IsRegisterTable(result.registerLookupTable)
      {
        result.rawMemory := result.rawMemory + [0];
      }
      RegisterTableKeys(result.registerLookupTable);
    }

    /** `new`: an initialised memory. */
    static method New() returns (memory: Memory)
      ensures fresh(memory) && memory.Valid()
      ensures |memory.rawMemory| == Cells.MemorySize && Cells.AllZero(memory.rawMemory)
      ensures forall k: int32 :: k in memory.registerLookupTable <==> 0 <= k < 19
    {
      memory := Init();
    }

    /** `read`: dispatch on the width, widen to `i32`: a byte read is the
        cell at `position`, a word read the high cell times 256 plus the
        signed low cell. */
    function Read(position: nat, size: MemoryOperationSize): (r: int32)
      reads this
      requires Valid() && Cells.InBounds(rawMemory, position, size)
      ensures size == Byte ==> r == rawMemory[position] as int32
      ensures size == Word ==> r as int == 0x100 * rawMemory[position] as int + rawMemory[position + 1] as int
    {
      Cells.Read(rawMemory, position, size)
    }

    /** `read8`: the signed cell at `position`. */
    function Read8(position: nat): (r: int8)
      reads this
      requires Valid() && position < |rawMemory|
      ensures r == rawMemory[position]
    {
      Cells.Read8(rawMemory, position)
    }

    /** `read16`: high cell shifted up by 8 plus the signed low cell.  The
        sum lies in the `i16` range unless the high cell is -128 and the low
        cell negative. */
    function Read16(position: nat): (r: int)
      reads this
      requires Valid() && position + 1 < |rawMemory|
      ensures r == 0x100 * rawMemory[position] as int + rawMemory[position + 1] as int
      ensures -0x8000 <= r < 0x8000 <==> !(rawMemory[position] == -0x80 && rawMemory[position + 1] < 0)
    {
      Cells.Read16(rawMemory, position)
    }

    /** `write`: truncate `value` to the width and store it. */
    method Write(position: nat, value: int32, size: MemoryOperationSize)
      requires Valid() && Cells.InBounds(rawMemory, position, size)
      modifies this`rawMemory
      ensures Valid()
      ensures rawMemory == Cells.Write(old(rawMemory), position, value, size)
    {
      match size
      case Byte => Write8(position, AsI8(value as int));
      case Word => Write16(position, AsI16(value as int));
    }

    /** `write8`: replace the cell at `position`; `read8` then sees `value`. */
    method Write8(position: nat, value: int8)
      requires Valid() && position < |rawMemory|
      modifies this`rawMemory
      ensures Valid()
      ensures rawMemory == Cells.Write8(old(rawMemory), position, value)
      ensures Read8(position) == value
    {
      rawMemory := rawMemory[position := value];
    }

    /** `write16`: high byte at `position`, low byte at `position + 1`;
        `read16` then sees WordReadBack(value). */
    method Write16(position: nat, value: int16)
      requires Valid() && position + 1 < |rawMemory|
      modifies this`rawMemory
      ensures Valid()
      ensures rawMemory == Cells.Write16(old(rawMemory), position, value)
      ensures Read16(position) == Cells.WordReadBack(value)
    {
      rawMemory := rawMemory[position := AsI8(ShiftRight8(value) as int)];
      rawMemory := rawMemory[position + 1 := AsI8(value as int)];
      Cells.Write16Read16(old(rawMemory), position, value);
    }

    /** `get_register_address`: the table entry converted `as usize`.  A
        real register yields its offset, with room for a word access; the
        sentinel's -1 wraps to the largest `usize`, past every cell. */
    function GetRegisterAddress(register: Register): (address: nat)
      reads this
      requires Valid()
      ensures register != Unknwown ==>
                address == RegisterOffset(register) && address + 1 < |rawMemory|
      ensures register == Unknwown ==>
                address == UsizeModulus - 1 && address >= |rawMemory|
    {
      assert HasEntry(registerLookupTable, register);
      AsUsize(registerLookupTable[Key(register)] as int)
    }
  }

  /** What a caller can conclude from the contracts alone: the scenario of
      a word write of 300 at offset 0 on a fresh memory. */
  method WordWriteScenario()
  {
    var memory := Memory.New();
    ghost var before := memory.rawMemory;
    memory.Write(0, 300, Word);
    Cells.Write16ReadBytes(before, 0, 300);
    assert memory.Read(0, Byte) == 1 && memory.Read(1, Byte) == 44;
    assert memory.Read(0, Word) == 300;
    var ax := memory.GetRegisterAddress(AX);
    var al := memory.GetRegisterAddress(AL);
    assert ax == 0 && al == 3;
    assert memory.Read(al, RegisterSize(AL)) == 0;
  }
}
