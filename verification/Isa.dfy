/** The instruction set: one flat record per instruction, as the kernels store it. */
module Isa {
  import opened Common

  datatype Opcode = ADD | SUB | MUL | MOV | LOAD | STORE | CMP | BRANCH | BARRIER | ATOMIC_ADD | SSY | SYNC

  datatype Instruction = Instruction(opcode: Opcode, dst: int, src1: int, src2: int, immediate: int)

  /** A kernel's instruction list; a program counter is an index into it. */
  type Code = k: seq<Instruction> | |k| < WORD witness []
}
