/** Where a value lives (`Location` in `stencils.rs`), and where a jump goes (`JumpTarget` in `relocation.rs`). */
module Locations {
  /** Registers have 16-bit numbers. */
  const U16_LIMIT: nat := 0x1_0000

  datatype Location = Stack(slot: nat) | Register(reg: nat)

  /** The digit of a location: zero for any stack slot. */
  function IntoBits(l: Location): nat {
    match l
    case Stack(_) => 0
    case Register(r) => r + 1
  }

  function FromBits(bits: nat): Location {
    if bits == 0 then Stack(0) else Register(bits - 1)
  }

  /** To the stencil that is emitted next, or to the start of a block. */
  datatype JumpTarget = NextStencil | Target(block: nat)
}
