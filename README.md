# Flat memory of a small virtual processor, in Dafny

This project models `src/memory.rs` of a small x86-flavoured CPU emulator
written in Rust. It covers the emulator's whole address space:

- the `Memory` struct, which holds 4096 signed byte cells
  (`raw_memory: Vec<i8>`) and a register lookup table
  (`register_lookup_table: HashMap<i32, i32>`);
- its construction (`init`, `new`, `init_register_lookup_table`);
- byte and word access through `ManageMemory` (`read`, `read8`, `read16`,
  `write`, `write8`, `write16`);
- register resolution through `ManageRegisters` (`get_register_address`,
  `get_register_size`).

Modules:

- `Casts` (casts.dfy): the Rust integer types `i8`, `i16` and `i32` as
  newtypes. It also writes out `as i8`, `as i16` and `as usize` as
  two's-complement wrap-around, and `>> 8` on `i16` as floor division by 256.
- `Types` (types.dfy): `Register` and `MemoryOperationSize`. Both are
  defined in `types.rs`, which is not part of this model. The variants are the
  ones memory.rs names, including its spelling `Unknwown`. The discriminants
  (`Register.Ordinal`) are an ASSUMPTION: they follow the order in which
  memory.rs:69-91 inserts the registers, so AL..DH are 0..7, AX..DX 8..11,
  EAX..EDX 12..15, ESP 16, EBP 17 and Unknwown 18.
- `Cells` (cells.dfy): the byte store as a value. Every accessor is a
  function on `seq<int8>`. The module also holds the round-trip and frame
  lemmas.
- `Registers` (registers.dfy): the literal register-to-offset table, the
  size classifier, and lemmas about bounds, shared offsets and disjoint
  accesses.
- `Memory` (memory.dfy): the `Memory` class.
  - `rawMemory` is a `seq<int8>` field and `registerLookupTable` a
    `map<int32, int32>` field.
  - `Init` builds the store with a push loop.
  - `InitRegisterLookupTable` makes one in-place insert (`InsertEntry`) per
    register. Its contract states the new table as `Registers.RegisterTableInserts`
    of the old one, the 19 updates in source order.
  - The write methods change only `rawMemory`. Their contracts state the new
    cells as a function of the old ones, and what the reads then return.
  - The class functions `Read`, `Read8` and `Read16` apply the `Cells`
    functions of the same name to `rawMemory`.
  - `WordWriteScenario` is a client. Using only the contracts, it checks
    the word-write-of-300 scenario on a fresh memory.
- `Scenarios` (scenarios.dfy): concrete consequences on a 4096-cell store.

Behaviour kept as the code has it:

- Positions are not bounds-checked: the code indexes the vector directly,
  and its own to-do at src/memory.rs:118 says so. Out-of-range accesses are
  therefore excluded by preconditions.
- Looking up `Unknwown` yields `-1 as usize`, the largest `usize`, which
  lies past every cell (`Memory.Memory.GetRegisterAddress`).
- No unconditional word round trip holds. `read16` adds the low cell
  SIGNED. So `write16(p, v)` followed by `read16(p)` returns `v` exactly when
  the low byte of `v` is in [0, 127] (`Cells.Write16Read16Exact`). Otherwise
  the exact sum is `v - 256` (`Scenarios.WordWriteOfMinusOne`). For `v` in
  [-32640, -32513] that sum is below the `i16` range, so the source's
  `i16` addition overflows there (`Cells.Write16Read16`).
- What the table and the classifier give: the eight byte registers never
  overlap the four word registers. AH and AL sit at offsets 2 and 3, outside
  AX's cells 0 and 1. The 32-bit registers share the word registers'
  offsets, but they classify as Byte.

## Model

| member | source | states |
|---|---|---|
| `Casts.AsI8` | src/memory.rs:138 | `as i8` keeps `x` modulo 256 in [-128, 127]; values in range are unchanged |
| `Casts.AsI16` | src/memory.rs:139 | `as i16` keeps `x` modulo 65536 in [-32768, 32767]; values in range are unchanged |
| `Casts.AsUsize` | src/memory.rs:156 | `as usize` keeps `x` modulo 2^64; non-negative values below 2^64 are unchanged |
| `Casts.ShiftRight8` | src/memory.rs:148 | `value >> 8` on `i16` is the floor of value / 256, within [-128, 127] |
| `Types.Register.Ordinal` | src/memory.rs:69-91 | each register's discriminant (assumed insertion order) is below 19 |
| `Cells.Read8` | src/memory.rs:128-130 | `read8` returns the cell at `position` as stored, with no sign conversion |
| `Cells.Read16` | src/memory.rs:132-134 | the word read lies in [-32896, 32767]; it is inside the `i16` range unless the high cell is -128 and the low cell is negative; it lies within 128 of 256 times the high cell |
| `Cells.Read` | src/memory.rs:121-126 | a byte read lies in [-128, 127], a word read in [-32896, 32767] |
| `Cells.Write8` | src/memory.rs:143-145 | the cell at `position` becomes `value`; the length and every other cell are unchanged |
| `Cells.Write16` | src/memory.rs:147-150 | the cell at `position` is the floor of value / 256; the cell at `position + 1` is congruent to value modulo 256; the length and every other cell are unchanged |
| `Cells.Write` | src/memory.rs:136-141 | the length is kept, and every cell outside the one or two cells of the access is unchanged |
| `Cells.Write8Read8` | src/memory.rs:128-145 | after `write8`, `read8` at `position` gives the value and `read8` elsewhere gives the old cell |
| `Cells.WordReadBack` | src/memory.rs:132-150 | the value `read16` makes of what `write16(v)` stored equals `v` if and only if the low byte of `v` is below 128, and otherwise lies below `v`, by at most 256 |
| `Cells.Write16Read16` | src/memory.rs:132-150 | after `write16(p, v)`, `read16(p)` gives the word read-back of `v`; that sum is below the `i16` range exactly for `v` in [-32640, -32513] |
| `Cells.Write16Read16Exact` | src/memory.rs:132-150 | the word round trip returns `v` if and only if the low byte of `v` is in [0, 127] |
| `Cells.Write16ReadBytes` | src/memory.rs:147-150 | after `write16`, the byte at `position` reads as the arithmetic high byte and the byte at `position + 1` as the signed low byte |
| `Cells.Write16Injective` | src/memory.rs:147-150 | two values that `write16` stores as the same pair of cells are equal: the word write loses no information |
| `Cells.WriteReadByte` | src/memory.rs:121-145 | `write(p, v, Byte)` then `read(p, Byte)` gives `v as i8`, which is `v` for every v in [-128, 127] |
| `Cells.WriteReadWord` | src/memory.rs:121-150 | `write(p, v, Word)` then `read(p, Word)` gives the read-back of `v as i16`; for a 16-bit `v` it is `v` exactly when the low byte is below 128 |
| `Registers.RegisterOffset` | src/memory.rs:69-91 | only Unknwown maps to -1; every other offset `o` satisfies 0 <= o and o + 1 < 4096, so byte and word access through it is in bounds |
| `Registers.Key` | src/memory.rs:156 | `register as i32` is the register's discriminant, within [0, 19) |
| `Registers.RegisterKeysCover` | src/memory.rs:69-91 | every key in [0, 19) is the discriminant of some register |
| `Registers.RegisterTableKeys` | src/memory.rs:69-91 | a lookup table holding every register's entry and no key outside [0, 19) has exactly the keys 0..18, one per register |
| `Registers.RegisterTableInsertsEntries` | src/memory.rs:66-92 | after the 19 inserts, in the source's order, every register's key holds its literal offset, so no insert overwrites another register's entry |
| `Registers.RegisterTableInsertsFrame` | src/memory.rs:66-92 | the 19 inserts add keys in [0, 19) only, drop no key, and keep the value under every key outside [0, 19) |
| `Registers.RegisterSize` | src/memory.rs:160-171 | Word exactly for discriminants 8..11, that is exactly AX, BX, CX and DX; Byte for every other register, including EAX..EDX, ESP, EBP and Unknwown |
| `Registers.SharedOffsets` | src/memory.rs:69-91 | two real registers share an offset if and only if they are equal or a 16-bit register and its 32-bit extension (AX/EAX, BX/EBX, CX/ECX, DX/EDX) |
| `Registers.NarrowRegistersDisjoint` | src/memory.rs:69-81 | the cells accessed through any two distinct 8- or 16-bit registers, at their offset and classified width, do not overlap |
| `Registers.NarrowWriteIsolation` | src/memory.rs:136-150 | a write through one 8- or 16-bit register leaves the read through every other one unchanged; e.g. a word write to AX leaves AH and AL alone |
| `Registers.ExtendedAlias` | src/memory.rs:78-86 | a word written at a 32-bit register's offset reads back through its 16-bit partner's offset |
| `Registers.ExtendedReadsHighByte` | src/memory.rs:160-171 | a 32-bit register classifies as Byte, so after a word write through its partner it reads that word's high byte |
| `Memory.Memory.Empty` | src/memory.rs:97-100 | the struct literal: no cells and an empty lookup table |
| `Memory.Memory.InsertEntry` | src/memory.rs:69-91 | one `insert`: the table becomes the old table with `offset` under the register's key |
| `Memory.Memory.InitRegisterLookupTable` | src/memory.rs:66-92 | the table becomes the 19 inserts applied to the old table in source order; every register's key then holds its literal offset; no key outside [0, 19) is added; entries already present are kept, and those outside [0, 19) keep their value |
| `Memory.Memory.Init` | src/memory.rs:96-110 | a fresh memory with exactly 4096 cells, all zero, and the full register table, whose keys are exactly 0..18 |
| `Memory.Memory.New` | src/memory.rs:113-115 | the same as `Init` |
| `Memory.Memory.Read` | src/memory.rs:121-126 | a byte read is the cell at `position`; a word read is 256 times that cell plus the signed cell after it |
| `Memory.Memory.Read8` | src/memory.rs:128-130 | the cell at `position` of the memory's vector |
| `Memory.Memory.Read16` | src/memory.rs:132-134 | 256 times the cell at `position` plus the signed next cell; inside the `i16` range unless the high cell is -128 and the low cell negative |
| `Memory.Memory.Write` | src/memory.rs:136-141 | cells become `Cells.Write` of the old cells: the value truncated to 8 or 16 bits and stored; the table is unchanged |
| `Memory.Memory.Write8` | src/memory.rs:143-145 | cells become the old cells with `value` at `position`; `read8(position)` then returns `value` |
| `Memory.Memory.Write16` | src/memory.rs:147-150 | cells become the old cells with the high byte at `position` and the low byte at `position + 1`; `read16(position)` then returns the word read-back of `value`, as an exact sum |
| `Memory.Memory.GetRegisterAddress` | src/memory.rs:155-157 | a real register resolves to its literal offset, with room for a word; Unknwown resolves to 2^64 - 1, past every cell |
| `Scenarios.FreshStoreReadsZero` | src/memory.rs:104-107 | every byte and word read of a zeroed store gives 0 |
| `Scenarios.WordWriteOf300` | src/memory.rs:132-150 | writing 300 as a word at 0 stores 1 and 44, and the word reads back as 300 |
| `Scenarios.WordWriteOfMinusOne` | src/memory.rs:132-150 | writing -1 as a word at 0 stores -1 and -1, and the word reads back as -257 |
| `Scenarios.WordWriteThroughAX` | src/memory.rs:69-91 | a word write of 0x1234 at AX's offset stores 0x12 and 0x34, leaves AH and AL unchanged, and reads back as 0x1234 through EAX's offset |

## Left out

- The `ManageHeap` trait (src/memory.rs:45-55) declares three operations without bodies, so there is no behaviour to model.
- 4-byte reads, writes and register sizes exist only as to-do comments (src/memory.rs:11, 119, 159), so none are modelled.
- `types.rs` is not part of this model. Register discriminants and the two `MemoryOperationSize` variants are assumptions (see above).
- The `HashMap` is a Dafny `map`. Hashing, capacity and the panic on a missing key are not modelled; every register's key is proved present.
- Cells.Read16: the word read is the exact sum. Its one overflow case, high cell -128 with a negative low cell, panics in debug builds and wraps in release builds. Neither outcome is modelled; the ensures states exactly when the case arises.
- Cells.Read: a word read widens that exact sum to `i32`, so the overflow outcome above is not modelled here either.
- Memory.Memory.GetRegisterAddress: `as usize` assumes a 64-bit target.
- Out-of-range positions panic in the source (there is no bounds check). Here they are excluded by preconditions, and no error value is modelled.
- Cells.Write16Read16: the read-back is the exact sum. For `v` in [-32640, -32513] the source's `i16` addition overflows instead (a panic in debug builds, wrap-around in release builds); the ensures names that range but does not model the outcome.
- Memory.Memory.Write16: its read-back ensures is the exact sum as well, with the same overflow range left unmodelled.
- Cells.WriteReadWord: the same exact sum, widened to `i32`; the overflow range is not modelled.
- Memory.Memory.Read16: returns the exact sum; the overflow case its ensures names is not modelled.
