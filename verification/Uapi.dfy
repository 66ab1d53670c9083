/** Constants and records shared by the driver and its clients (cpu_uapi.h). */
module Uapi {
  import opened Bits

  type Byte = b: int | 0 <= b < 256
  type Word = w: int | 0 <= w < TWO64

  const ADD: Byte := 0x00
  const SUB: Byte := 0x01
  const AND: Byte := 0x02
  const OR: Byte := 0x03
  const NOT: Byte := 0x04
  const MOV: Byte := 0x10
  const CMP: Byte := 0x20
  const JMP: Byte := 0x21
  const JE: Byte := 0x22
  const JG: Byte := 0x23
  const JL: Byte := 0x24

  const IMMEDIATE: Byte := 0x00
  const REGISTER: Byte := 0x01
  const DIRECT_LOAD: Byte := 0x02
  const DIRECT_STORE: Byte := 0x03
  const LABEL: Byte := 0x04

  const CF: bv16 := 0x01
  const ZF: bv16 := 0x40
  const SF: bv16 := 0x80

  const INSTR_SIZE: nat := 11
  const MEM_SIZE: nat := 0x10000

  const MMIO_START: nat := 0xFFF0
  const MMIO_INPUT: nat := 0xFFFD
  const MMIO_OUTPUT: nat := 0xFFFE
  const MMIO_HALT: nat := 0xFFFF

  const UINT8_MAX: Byte := 255
  const UINT64_MAX: Word := TWO64 - 1

  /** One machine instruction as the four fields of `struct instruction`. */
  datatype Raw = Raw(opcode: Byte, mode: Byte, operand1: Byte, operand2: Word)

  /** One entry of the memory trace. */
  datatype MemAccess = MemAccess(addr: Word, isWrite: bool)
}
