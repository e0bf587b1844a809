/** The register catalogue and the access-width tag that the memory store
    consumes.  Their definitions live in the emulator's `types.rs`, which is
    not part of this model: the variants below are the ones memory.rs names,
    and their ordinals are assumed to follow the order in which memory.rs
    inserts them into the register lookup table. */
module Types {

  /** `MemoryOperationSize`: the width of one read or write. */
  datatype MemoryOperationSize = Byte | Word

  /** `Register`, spelled as memory.rs spells it (including `Unknwown`). */
  datatype Register =
    | AL | BL | CL | DL | AH | BH | CH | DH
    | AX | BX | CX | DX
    | EAX | EBX | ECX | EDX
    | ESP | EBP
    | Unknwown
  {
    /** The discriminant that `register as i32` and `register as i8` read
        (assumed: declaration order of the lookup-table inserts). */
    function Ordinal(): (n: nat)
      ensures n < 19
    {
      match this
      case AL => 0 case BL => 1 case CL => 2 case DL => 3
      case AH => 4 case BH => 5 case CH => 6 case DH => 7
      case AX => 8 case BX => 9 case CX => 10 case DX => 11
      case EAX => 12 case EBX => 13 case ECX => 14 case EDX => 15
      case ESP => 16 case EBP => 17
      case Unknwown => 18
    }
  }
}
