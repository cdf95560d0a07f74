/** The intermediate representation: a flat list of atomic instructions. */
module IntermediateRepresentation {

  datatype AtomicKind =
    | Copy | Load | Store | Jmp | CondJmp
    | Add | Sub | Xor | And | Or | Shl | Shr | Mul | Rem
    | Equal | Less | LessEqual | NotEqual | Call

  datatype Space = ConstSpace | MemSpace | RegSpace

  datatype Size = Byte | Word | Dword | Qword

  datatype Address = Address(space: Space, offset: int)

  /** An operand; `def` is the position of the instruction slot it belongs to. */
  datatype ValueId = ValueId(address: Address, size: Size, version: int, def: int)

  /** The value of a zero-initialised operand. */
  const NO_VALUE := ValueId(Address(ConstSpace, 0), Byte, 0, 0)

  /** One instruction. `first` and `second` are the two operand slots of the union:
      a jump keeps its address in the first, a copy its source and destination, a load
      its pointer and destination, a store its source and pointer, and an operation
      its two inputs. */
  datatype AtomicInstr = AtomicInstr(kind: AtomicKind, offset: int, first: ValueId, second: ValueId)

  function Target(instr: AtomicInstr): int {
    instr.first.address.offset
  }

  predicate IsJump(instr: AtomicInstr) {
    instr.kind.Jmp? || instr.kind.CondJmp?
  }

  /** One step of execution from position `i`; the last instruction ends the program
      unless it jumps. */
  ghost predicate Step(code: seq<AtomicInstr>, i: int, j: int) {
    && 0 <= i < |code| && 0 <= j < |code|
    && match code[i].kind
       case Jmp => j == Target(code[i])
       case CondJmp => j == Target(code[i]) || j == i + 1
       case _ => j == i + 1
  }

  ghost predicate Run(code: seq<AtomicInstr>, run: seq<int>) {
    && |run| > 0
    && (forall i :: 0 <= i < |run| ==> 0 <= run[i] < |code|)
    && forall i :: 0 <= i < |run| - 1 ==> Step(code, run[i], run[i + 1])
  }

  /** A run of the program from its first instruction to position `pc`. */
  ghost predicate RunTo(code: seq<AtomicInstr>, run: seq<int>, pc: int) {
    Run(code, run) && run[0] == 0 && run[|run| - 1] == pc
  }

  /** The growing instruction buffer. */
  class IR {
    var instrs: array<AtomicInstr>
    var capacity: nat
    var index: nat

    ghost predicate Valid()
      reads this
    {
      index <= capacity == instrs.Length
    }

    /** The instructions appended so far. */
    ghost function Code(): seq<AtomicInstr>
      requires Valid()
      reads this, instrs
    {
      instrs[..index]
    }

    constructor (capacity: nat)
      ensures Valid() && fresh(instrs) && Code() == [] && this.capacity == capacity
    {
      this.instrs := new AtomicInstr[capacity](i => AtomicInstr(Copy, 0, NO_VALUE, NO_VALUE));
      this.capacity := capacity;
      this.index := 0;
    }
  }
}
