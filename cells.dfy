/** The byte store as a value: the cells of `raw_memory` and what each
    accessor of `ManageMemory` computes from them or makes of them.  The
    `Memory` class applies these functions to its own field. */
module Cells {
  import opened Casts
  import opened Types

  /** Number of cells `Memory::init` pushes. */
  const MemorySize: nat := 4096

  /** Number of consecutive cells one access of the given width touches. */
  function SizeInBytes(size: MemoryOperationSize): (n: nat)
    ensures 1 <= n <= 2
    ensures n == 2 <==> size == Word
  {
    match size
    case Byte => 1
    case Word => 2
  }

  /** Every cell touched by an access of `size` at `position` exists. */
  predicate InBounds(cells: seq<int8>, position: nat, size: MemoryOperationSize) {
    position + SizeInBytes(size) <= |cells|
  }

  predicate AllZero(cells: seq<int8>) {
    forall i | 0 <= i < |cells| :: cells[i] == 0
  }

  /** `read8`: the signed cell at `position`, returned as stored, with no
      conversion. */
  function Read8(cells: seq<int8>, position: nat): (r: int8)
    requires position < |cells|
    ensures r == cells[position]
  {
    cells[position]
  }

  /** `read16`: the cell at `position` shifted up by 8, plus the cell at
      `position + 1` as a SIGNED value.  The sum is exact; it leaves the
      `i16` range in exactly one corner. */
  function Read16(cells: seq<int8>, position: nat): (r: int)
    requires position + 1 < |cells|
    ensures -0x8080 <= r < 0x8000
    ensures -0x8000 <= r <==> !(cells[position] == -0x80 && cells[position + 1] < 0)
    ensures 0x100 * cells[position] as int - 0x80 <= r < 0x100 * cells[position] as int + 0x80
  {
    0x100 * cells[position] as int + cells[position + 1] as int
  }

  /** `read`: `read8` or `read16` chosen by `size`, widened to `i32`. */
  function Read(cells: seq<int8>, position: nat, size: MemoryOperationSize): (r: int32)
    requires InBounds(cells, position, size)
    ensures size == Byte ==> -0x80 <= r < 0x80
    ensures size == Word ==> -0x8080 <= r < 0x8000
  {
    match size
    case Byte => Read8(cells, position) as int32
    case Word => Read16(cells, position) as int32
  }

  /** `write8`: `value` replaces the cell at `position`, and only that cell. */
  function Write8(cells: seq<int8>, position: nat, value: int8): (c: seq<int8>)
    requires position < |cells|
    ensures |c| == |cells| && c[position] == value
    ensures forall i | 0 <= i < |cells| && i != position :: c[i] == cells[i]
  {
    cells[position := value]
  }

  /** `write16`: the arithmetic high byte of `value` goes to `position`, its
      low byte to `position + 1`; no other cell changes. */
  function Write16(cells: seq<int8>, position: nat, value: int16): (c: seq<int8>)
    requires position + 1 < |cells|
    ensures |c| == |cells|
    ensures 0x100 * c[position] as int <= value as int < 0x100 * c[position] as int + 0x100
    ensures (c[position + 1] as int - value as int) % 0x100 == 0
    ensures forall i | 0 <= i < |cells| && i != position && i != position + 1 :: c[i] == cells[i]
  {
    cells[position := AsI8(ShiftRight8(value) as int)][position + 1 := AsI8(value as int)]
  }

  /** `write`: `value` truncated to the width of `size` and stored by
      `write8` or `write16`.  Cells outside the access are left alone. */
  function Write(cells: seq<int8>, position: nat, value: int32, size: MemoryOperationSize): (c: seq<int8>)
    requires InBounds(cells, position, size)
    ensures |c| == |cells|
    ensures forall i | 0 <= i < |cells| && !(position <= i < position + SizeInBytes(size)) :: c[i] == cells[i]
  {
    match size
    case Byte => Write8(cells, position, AsI8(value as int))
    case Word => Write16(cells, position, AsI16(value as int))
  }

  /** What `read16` returns after `write16(position, value)`: `value`
      itself when its low byte is at most 127, otherwise 256 less, because
      the low byte comes back sign-extended. */
  function WordReadBack(value: int16): (r: int)
    ensures r == value as int <==> value as int % 0x100 < 0x80
    ensures value as int - 0x100 <= r <= value as int
  {
    if value as int % 0x100 < 0x80 then value as int else value as int - 0x100
  }

  /** Byte round trip with frame: a `read8` after `write8` sees the value
      written at `position` and the old cell everywhere else. */
  lemma Write8Read8(cells: seq<int8>, position: nat, value: int8, other: nat)
    requires position < |cells| && other < |cells|
    ensures Read8(Write8(cells, position, value), other)
            == if other == position then value else Read8(cells, other)
  {
  }

  /** The two cells `write16` stores recombine under `read16` to
      WordReadBack(value).  That sum leaves the `i16` range exactly for the
      values in [-32640, -32513], whose high byte is -128 and whose low byte
      is at least 128. */
  lemma Write16Read16(cells: seq<int8>, position: nat, value: int16)
    requires position + 1 < |cells|
    ensures Read16(Write16(cells, position, value), position) == WordReadBack(value)
    ensures WordReadBack(value) < -0x8000 <==> -32640 <= value as int < -32512
  {
  }

  /** The word round trip holds exactly when the low byte of the value is in
      [0, 127]; it is not unconditional. */
  lemma Write16Read16Exact(cells: seq<int8>, position: nat, value: int16)
    requires position + 1 < |cells|
    ensures Read16(Write16(cells, position, value), position) == value as int
            <==> value as int % 0x100 < 0x80
  {
  }

  /** Byte view of a word write: `read8` at `position` gives the high byte
      (floor of value / 256), at `position + 1` the signed low byte. */
  lemma Write16ReadBytes(cells: seq<int8>, position: nat, value: int16)
    requires position + 1 < |cells|
    ensures Read8(Write16(cells, position, value), position) == ShiftRight8(value) as int8
    ensures Read8(Write16(cells, position, value), position + 1) as int
            == if value as int % 0x100 < 0x80 then value as int % 0x100
               else value as int % 0x100 - 0x100
  {
  }

  /** `write(p, v, Byte)` then `read(p, Byte)` yields `v as i8` widened back
      to `i32`: the value itself for every v in [-128, 127]. */
  lemma WriteReadByte(cells: seq<int8>, position: nat, value: int32)
    requires InBounds(cells, position, Byte)
    ensures Read(Write(cells, position, value, Byte), position, Byte) == AsI8(value as int) as int32
    ensures -0x80 <= value < 0x80 ==> Read(Write(cells, position, value, Byte), position, Byte) == value
  {
  }

  /** `write(p, v, Word)` then `read(p, Word)` yields WordReadBack of
      `v as i16`: `v` itself exactly when v is a 16-bit value whose low byte
      is in [0, 127]. */
  lemma WriteReadWord(cells: seq<int8>, position: nat, value: int32)
    requires InBounds(cells, position, Word)
    ensures Read(Write(cells, position, value, Word), position, Word) as int
            == WordReadBack(AsI16(value as int))
    ensures -0x8000 <= value < 0x8000 ==>
              (Read(Write(cells, position, value, Word), position, Word) == value
               <==> value as int % 0x100 < 0x80)
  {
  }

  /** `write16` loses nothing: the two cells it stores determine the value,
      so the shortfall of the word round trip lies in `read16` alone. */
  lemma Write16Injective(cells: seq<int8>, position: nat, v1: int16, v2: int16)
    requires position + 1 < |cells|
    requires Write16(cells, position, v1)[position] == Write16(cells, position, v2)[position]
    requires Write16(cells, position, v1)[position + 1] == Write16(cells, position, v2)[position + 1]
    ensures v1 == v2
  {
  }
}
