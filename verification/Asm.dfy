/** Parsed WeeperVM programs. */
module Asm {

  datatype Option<+T> = None | Some(value: T)

  /** The opcodes, in the order of their numbers. */
  datatype Opcode =
    | OpMov | OpAdd | OpSub | OpMul | OpRem | OpAnd | OpOr | OpXor | OpShl | OpShr
    | OpJnz | OpJa | OpJe | OpJl | OpJmp
    | OpCmp | OpMovb | OpCall

  /** Operands nest to any depth: a register or memory cell is named by an operand. */
  datatype Operand =
    | Imm(value: int)
    | Reg(index: Operand)
    | Mem(index: Operand)
    | Flags

  datatype Callee = Putchar | Read

  datatype Payload =
    | Operation(arg0: Operand, arg1: Option<Operand>)
    | CallTo(callee: Callee)

  datatype Instruction = Instruction(opcode: Opcode, payload: Payload, offset: int)

  predicate IsCondJump(opcode: Opcode) {
    opcode in {OpJnz, OpJa, OpJe, OpJl}
  }

  predicate IsBinary(opcode: Opcode) {
    opcode in {OpMov, OpMovb, OpCmp, OpAdd, OpSub, OpXor, OpAnd, OpShl, OpShr, OpOr, OpRem}
  }

  /** The shape in which each opcode is stored: two operands for the operations and for
      the jump on a condition value, the address alone for the other jumps. */
  predicate WellShaped(instr: Instruction) {
    if instr.opcode == OpCall then instr.payload.CallTo?
    else if IsBinary(instr.opcode) || instr.opcode == OpJnz then instr.payload.Operation? && instr.payload.arg1.Some?
    else instr.opcode != OpMul && instr.payload.Operation? && instr.payload.arg1.None?
  }
}
