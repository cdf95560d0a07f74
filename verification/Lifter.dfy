/** Lifting parsed WeeperVM programs to the intermediate representation. */
module Lifter {
  import opened Asm
  import opened IntermediateRepresentation

  // ---------------------------------------------------------- specification

  /** The index of a register operand is read as a number whatever it is: an immediate
      gives its value, the flags 0 (a null pointer), and a nested register or memory
      operand a part of an address. That number is unknown; there is one for each
      position of the result and each of the two operand slots. */
  type AddressReads = (nat, nat) -> int

  function IndexNumber(index: Operand, unknown: int): int {
    match index
    case Imm(value) => value
    case Flags => 0
    case _ => unknown
  }

  function AddressOf(operand: Operand, unknown: int): Address {
    match operand
    case Imm(value) => Address(ConstSpace, value)
    case Reg(index) => Address(RegSpace, IndexNumber(index, unknown))
    case _ => Address(ConstSpace, 0)
  }

  function ValueOf(operand: Operand, at: nat, size: Size, unknown: int): ValueId {
    ValueId(AddressOf(operand, unknown), size, 0, at)
  }

  function KindOf(opcode: Opcode): AtomicKind
    requires !(opcode in {OpMov, OpMovb})
  {
    match opcode
    case OpAdd => Add
    case OpSub => Sub
    case OpMul => Mul
    case OpRem => Rem
    case OpAnd => And
    case OpOr => Or
    case OpXor => Xor
    case OpShl => Shl
    case OpShr => Shr
    case OpJnz => CondJmp
    case OpJa => CondJmp
    case OpJe => CondJmp
    case OpJl => CondJmp
    case OpCmp => Equal
    case OpJmp => Jmp
    case OpCall => Call
    case _ => Copy
  }

  function LiftedMove(dst: Operand, src: Operand, at: nat, raw: AddressReads): AtomicInstr {
    if dst.Mem? then
      AtomicInstr(Store, at, ValueOf(src, at, Word, raw(at, 1)), ValueOf(dst.index, at, Word, raw(at, 0)))
    else if src.Mem? then
      AtomicInstr(Load, at, ValueOf(src.index, at, Word, raw(at, 0)), ValueOf(dst, at, Word, raw(at, 1)))
    else AtomicInstr(Copy, at, ValueOf(src, at, Byte, raw(at, 0)), ValueOf(dst, at, Byte, raw(at, 1)))
  }

  /** The instruction that is appended at position `at`, if any: calls are dropped. */
  function Lifted(instr: Instruction, at: nat, raw: AddressReads): Option<AtomicInstr>
    requires WellShaped(instr)
  {
    if instr.opcode == OpCall then None
    else
      var arg0 := instr.payload.arg0;
      if instr.opcode == OpMov || instr.opcode == OpMovb then Some(LiftedMove(arg0, instr.payload.arg1.value, at, raw))
      else
        var first := ValueOf(arg0, at, Word, raw(at, 0));
        if IsBinary(instr.opcode) then
          Some(AtomicInstr(KindOf(instr.opcode), at, first, ValueOf(instr.payload.arg1.value, at, Word, raw(at, 1))))
        else Some(AtomicInstr(KindOf(instr.opcode), at, first, NO_VALUE))
  }

  ghost predicate AllShaped(program: seq<Instruction>) {
    forall i :: 0 <= i < |program| ==> WellShaped(program[i])
  }

  /** The instructions for the first `n` instructions of the program. */
  ghost function LiftedCode(program: seq<Instruction>, n: nat, raw: AddressReads): (code: seq<AtomicInstr>)
    requires AllShaped(program) && n <= |program|
    ensures |code| <= n
  {
    if n == 0 then []
    else
      var before := LiftedCode(program, n - 1, raw);
      match Lifted(program[n - 1], |before|, raw)
      case None => before
      case Some(atom) => before + [atom]
  }

  /** The lifting of the whole program. */
  ghost function Lifting(program: seq<Instruction>, raw: AddressReads): (code: seq<AtomicInstr>)
    requires AllShaped(program)
    ensures |code| <= |program|
  {
    LiftedCode(program, |program|, raw)
  }

  // ---------------------------------------------------------------- methods

  /** Appends an instruction, doubling the buffer if it is full. */
  method AddAtomicOperation(ir: IR, atom: AtomicInstr)
    requires ir.Valid() && ir.capacity > 0
    modifies ir, ir.instrs
    ensures ir.Valid() && ir.capacity > 0 && (ir.instrs == old(ir.instrs) || fresh(ir.instrs))
    ensures ir.capacity == if old(ir.index) < old(ir.capacity) then old(ir.capacity) else 2 * old(ir.capacity)
    ensures ir.Code() == old(ir.Code()) + [atom.(offset := |old(ir.Code())|)]
  {
    ghost var code := ir.Code();
    if ir.index >= ir.capacity {
      ir.capacity := ir.capacity * 2;
      var newAtoms := new AtomicInstr[ir.capacity](i => AtomicInstr(Copy, 0, NO_VALUE, NO_VALUE));
      for i := 0 to ir.index
        modifies newAtoms
        invariant newAtoms[..i] == code[..i]
      {
        newAtoms[i] := ir.instrs[i];
      }
      ir.instrs := newAtoms;
      assert ir.Code() == code;
    }
    ir.instrs[ir.index] := atom.(offset := ir.index);
    ir.index := ir.index + 1;
  }

  method LiftMov(ir: IR, instr: Instruction, raw: AddressReads)
    requires ir.Valid() && ir.capacity > 0 && WellShaped(instr) && (instr.opcode == OpMov || instr.opcode == OpMovb)
    modifies ir, ir.instrs
    ensures ir.Valid() && ir.capacity > 0 && (ir.instrs == old(ir.instrs) || fresh(ir.instrs))
    ensures old(ir.index) < old(ir.capacity) ==> ir.capacity == old(ir.capacity)
    ensures ir.Code() == old(ir.Code()) + [Lifted(instr, |old(ir.Code())|, raw).value]
  {
    var dst, src, at := instr.payload.arg0, instr.payload.arg1.value, ir.index;
    var atom;
    if dst.Mem? {
      atom := AtomicInstr(Store, 0, ValueOf(src, at, Word, raw(at, 1)), ValueOf(dst.index, at, Word, raw(at, 0)));
    } else if src.Mem? {
      atom := AtomicInstr(Load, 0, ValueOf(src.index, at, Word, raw(at, 0)), ValueOf(dst, at, Word, raw(at, 1)));
    } else {
      atom := AtomicInstr(Copy, 0, ValueOf(src, at, Byte, raw(at, 0)), ValueOf(dst, at, Byte, raw(at, 1)));
    }
    AddAtomicOperation(ir, atom);
  }

  /** Comparisons and the other two-operand instructions. */
  method LiftOperation(ir: IR, instr: Instruction, raw: AddressReads)
    requires ir.Valid() && ir.capacity > 0 && WellShaped(instr)
    requires IsBinary(instr.opcode) && instr.opcode != OpMov && instr.opcode != OpMovb
    modifies ir, ir.instrs
    ensures ir.Valid() && ir.capacity > 0 && (ir.instrs == old(ir.instrs) || fresh(ir.instrs))
    ensures old(ir.index) < old(ir.capacity) ==> ir.capacity == old(ir.capacity)
    ensures ir.Code() == old(ir.Code()) + [Lifted(instr, |old(ir.Code())|, raw).value]
  {
    var at := ir.index;
    var input0 := ValueOf(instr.payload.arg0, at, Word, raw(at, 0));
    var input1 := ValueOf(instr.payload.arg1.value, at, Word, raw(at, 1));
    AddAtomicOperation(ir, AtomicInstr(KindOf(instr.opcode), 0, input0, input1));
  }

  method LiftJmp(ir: IR, instr: Instruction, raw: AddressReads)
    requires ir.Valid() && ir.capacity > 0 && WellShaped(instr) && !IsBinary(instr.opcode) && instr.opcode != OpCall
    modifies ir, ir.instrs
    ensures ir.Valid() && ir.capacity > 0 && (ir.instrs == old(ir.instrs) || fresh(ir.instrs))
    ensures old(ir.index) < old(ir.capacity) ==> ir.capacity == old(ir.capacity)
    ensures ir.Code() == old(ir.Code()) + [Lifted(instr, |old(ir.Code())|, raw).value]
  {
    var input0 := ValueOf(instr.payload.arg0, ir.index, Word, raw(ir.index, 0));
    AddAtomicOperation(ir, AtomicInstr(KindOf(instr.opcode), 0, input0, NO_VALUE));
  }

  /** Dispatches on the opcode. Calls have no lifting function, so nothing is appended. In
      either case the offset of the next free slot is set; if there is none, the program
      writes behind its buffer, which is not modelled. */
  method LiftInstruction(ir: IR, instr: Instruction, raw: AddressReads)
    requires ir.Valid() && ir.capacity > 0 && WellShaped(instr)
    modifies ir, ir.instrs
    ensures ir.Valid() && ir.capacity > 0 && (ir.instrs == old(ir.instrs) || fresh(ir.instrs))
    ensures old(ir.index) < old(ir.capacity) ==> ir.capacity == old(ir.capacity)
    ensures ir.Code() == match Lifted(instr, |old(ir.Code())|, raw)
                         case None => old(ir.Code())
                         case Some(atom) => old(ir.Code()) + [atom]
    ensures ir.index < ir.capacity ==> ir.instrs[ir.index].offset == ir.index
  {
    if instr.opcode == OpMov || instr.opcode == OpMovb {
      LiftMov(ir, instr, raw);
    } else if IsBinary(instr.opcode) {
      LiftOperation(ir, instr, raw);
    } else if instr.opcode == OpJmp || IsCondJump(instr.opcode) {
      LiftJmp(ir, instr, raw);
    }
    ghost var code := ir.Code();
    if ir.index < ir.capacity {
      ir.instrs[ir.index] := ir.instrs[ir.index].(offset := ir.index);
    }
    assert ir.Code() == code;
  }

  /** The buffer has one slot per instruction and never has to grow. */
  method Lift(program: seq<Instruction>, raw: AddressReads) returns (ir: IR)
    requires AllShaped(program) && |program| > 0
    ensures fresh(ir) && fresh(ir.instrs) && ir.Valid() && ir.capacity == |program|
    ensures ir.Code() == Lifting(program, raw)
  {
    ir := new IR(|program|);
    for i := 0 to |program|
      invariant fresh(ir) && fresh(ir.instrs) && ir.Valid() && ir.capacity == |program|
      invariant ir.Code() == LiftedCode(program, i, raw)
    {
      LiftInstruction(ir, program[i], raw);
    }
  }

  // ------------------------------------------------------------- numbering

  ghost predicate CallFree(program: seq<Instruction>, n: nat)
    requires n <= |program|
  {
    forall i :: 0 <= i < n ==> program[i].opcode != OpCall
  }

  /** Appended instructions carry their own position. */
  lemma {:induction false} LiftedOffsets(program: seq<Instruction>, n: nat, raw: AddressReads)
    requires AllShaped(program) && n <= |program|
    ensures forall i :: 0 <= i < |LiftedCode(program, n, raw)| ==> LiftedCode(program, n, raw)[i].offset == i
  {
    if n == 0 {
    } else {
      LiftedOffsets(program, n - 1, raw);
    }
  }

  lemma {:induction false} CodeStep(program: seq<Instruction>, n: nat, raw: AddressReads)
    requires AllShaped(program) && 0 < n <= |program|
    ensures var before := LiftedCode(program, n - 1, raw);
            if program[n - 1].opcode == OpCall then LiftedCode(program, n, raw) == before
            else Lifted(program[n - 1], |before|, raw).Some?
                 && LiftedCode(program, n, raw) == before + [Lifted(program[n - 1], |before|, raw).value]
  {
  }

  lemma {:induction false} LengthIff(program: seq<Instruction>, n: nat, raw: AddressReads)
    requires AllShaped(program) && n <= |program|
    ensures |LiftedCode(program, n, raw)| == n <==> CallFree(program, n)
  {
    if n == 0 {
    } else {
      LengthIff(program, n - 1, raw);
      CodeStep(program, n, raw);
    }
  }

  lemma {:induction false} LiftedAt(program: seq<Instruction>, n: nat, i: nat, raw: AddressReads)
    requires AllShaped(program) && n <= |program| && CallFree(program, n) && i < n
    ensures |LiftedCode(program, n, raw)| == n
    ensures Some(LiftedCode(program, n, raw)[i]) == Lifted(program[i], i, raw)
  {
    LengthIff(program, n, raw);
    LengthIff(program, n - 1, raw);
    CodeStep(program, n, raw);
    if i == n - 1 {
    } else {
      LiftedAt(program, n - 1, i, raw);
    }
  }

  /** The numbering of the source program survives exactly if it has no calls; then
      instruction `i` of the result is the lifting of instruction `i`. */
  lemma {:induction false} LengthKeptIff(program: seq<Instruction>, n: nat, raw: AddressReads)
    requires AllShaped(program) && n <= |program|
    ensures |LiftedCode(program, n, raw)| == n <==> CallFree(program, n)
    ensures CallFree(program, n) ==>
              forall i :: 0 <= i < n ==> Some(LiftedCode(program, n, raw)[i]) == Lifted(program[i], i, raw)
  {
    LengthIff(program, n, raw);
    if CallFree(program, n) {
      forall i | 0 <= i < n
        ensures Some(LiftedCode(program, n, raw)[i]) == Lifted(program[i], i, raw)
      {
        LiftedAt(program, n, i, raw);
      }
    }
  }

  /** The slot behind the last instruction, whose offset is set after each of the `n`
      instructions lifted, lies in the buffer of |program| slots, except after the last
      instruction of a program without calls. */
  lemma {:induction false} TrailingStoreInsideIff(program: seq<Instruction>, n: nat, raw: AddressReads)
    requires AllShaped(program) && 0 < n <= |program|
    ensures |LiftedCode(program, n, raw)| < |program| <==> n < |program| || !CallFree(program, n)
  {
    LengthIff(program, n, raw);
  }

  // ---------------------------------------------------- what lifting forgets

  /** Operands whose address does not depend on an unknown number. */
  predicate Plain(operand: Operand) {
    operand.Reg? ==> operand.index.Imm? || operand.index.Flags?
  }

  predicate PlainMove(dst: Operand, src: Operand) {
    && Plain(if dst.Mem? then dst.index else dst)
    && Plain(if !dst.Mem? && src.Mem? then src.index else src)
  }

  /** The operands that the lifting of the instruction reads are plain. */
  predicate PlainOperands(instr: Instruction)
    requires WellShaped(instr)
  {
    if instr.opcode == OpCall then true
    else if IsMove(instr.opcode) then PlainMove(instr.payload.arg0, instr.payload.arg1.value)
    else Plain(instr.payload.arg0) && (IsBinary(instr.opcode) ==> Plain(instr.payload.arg1.value))
  }

  /** Operands that the lifter cannot tell apart: memory cells, the flags and the
      immediate 0 all get the zero address; a register indexed by the flags looks like
      register 0. */
  predicate Confused(a: Operand, b: Operand) {
    a == b || (IsZero(a) && IsZero(b)) || (IsRegisterZero(a) && IsRegisterZero(b))
  }

  predicate IsZero(operand: Operand) {
    operand == Imm(0) || operand.Mem? || operand.Flags?
  }

  predicate IsRegisterZero(operand: Operand) {
    operand == Reg(Imm(0)) || operand == Reg(Flags)
  }

  lemma ConfusedIff(a: Operand, b: Operand, unknown: int, unknown': int)
    requires Plain(a) && Plain(b)
    ensures AddressOf(a, unknown) == AddressOf(b, unknown') <==> Confused(a, b)
  {
  }

  predicate IsMove(opcode: Opcode) {
    opcode == OpMov || opcode == OpMovb
  }

  /** Moves of the same form between operands that look the same. */
  predicate ConfusedMoves(dst: Operand, src: Operand, dst': Operand, src': Operand) {
    if dst.Mem? then dst'.Mem? && Confused(dst.index, dst'.index) && Confused(src, src')
    else if src.Mem? then !dst'.Mem? && src'.Mem? && Confused(dst, dst') && Confused(src.index, src'.index)
    else !dst'.Mem? && !src'.Mem? && Confused(dst, dst') && Confused(src, src')
  }

  /** Instructions whose liftings agree: the width of a move, the condition of a jump and
      the callee of a call are forgotten, and so is what `Confused` identifies. */
  predicate Indistinct(a: Instruction, b: Instruction)
    requires WellShaped(a) && WellShaped(b)
  {
    if IsMove(a.opcode) then
      IsMove(b.opcode)
      && ConfusedMoves(a.payload.arg0, a.payload.arg1.value, b.payload.arg0, b.payload.arg1.value)
    else if IsCondJump(a.opcode) then IsCondJump(b.opcode) && Confused(a.payload.arg0, b.payload.arg0)
    else
      && a.opcode == b.opcode
      && (a.opcode != OpCall ==> Confused(a.payload.arg0, b.payload.arg0))
      && (IsBinary(a.opcode) ==> Confused(a.payload.arg1.value, b.payload.arg1.value))
  }

  lemma KindsDiffer(a: Opcode, b: Opcode)
    requires !IsMove(a) && !IsMove(b)
    requires !(a in {OpMul, OpCall}) && !(b in {OpMul, OpCall})
    ensures KindOf(a) == KindOf(b) <==> a == b || (IsCondJump(a) && IsCondJump(b))
    ensures !(KindOf(a) in {Copy, Load, Store})
  {
  }

  lemma MovesSameIff(dst: Operand, src: Operand, dst': Operand, src': Operand, at: nat,
                     raw: AddressReads, raw': AddressReads)
    requires PlainMove(dst, src) && PlainMove(dst', src')
    ensures LiftedMove(dst, src, at, raw) == LiftedMove(dst', src', at, raw')
            <==> ConfusedMoves(dst, src, dst', src')
  {
    if dst.Mem? && dst'.Mem? {
      ConfusedIff(dst.index, dst'.index, raw(at, 0), raw'(at, 0));
      ConfusedIff(src, src', raw(at, 1), raw'(at, 1));
    } else if !dst.Mem? && !dst'.Mem? && src.Mem? && src'.Mem? {
      ConfusedIff(src.index, src'.index, raw(at, 0), raw'(at, 0));
      ConfusedIff(dst, dst', raw(at, 1), raw'(at, 1));
    } else if !dst.Mem? && !dst'.Mem? && !src.Mem? && !src'.Mem? {
      ConfusedIff(src, src', raw(at, 0), raw'(at, 0));
      ConfusedIff(dst, dst', raw(at, 1), raw'(at, 1));
    }
  }

  lemma OperationsSameIff(a: Instruction, b: Instruction, at: nat, raw: AddressReads, raw': AddressReads)
    requires WellShaped(a) && WellShaped(b) && PlainOperands(a) && PlainOperands(b)
    requires a.opcode != OpCall && b.opcode != OpCall && !IsMove(a.opcode) && !IsMove(b.opcode)
    ensures Lifted(a, at, raw) == Lifted(b, at, raw') <==> Indistinct(a, b)
  {
    KindsDiffer(a.opcode, b.opcode);
    ConfusedIff(a.payload.arg0, b.payload.arg0, raw(at, 0), raw'(at, 0));
    if IsBinary(a.opcode) && IsBinary(b.opcode) {
      ConfusedIff(a.payload.arg1.value, b.payload.arg1.value, raw(at, 1), raw'(at, 1));
    }
  }

  lemma OperationIsNoMove(instr: Instruction, at: nat, raw: AddressReads)
    requires WellShaped(instr) && instr.opcode != OpCall && !IsMove(instr.opcode)
    ensures Lifted(instr, at, raw).Some? && !(Lifted(instr, at, raw).value.kind in {Copy, Load, Store})
  {
    KindsDiffer(instr.opcode, instr.opcode);
  }

  /** Two instructions have the same lifting exactly if they are indistinct. */
  lemma SameLiftingIff(a: Instruction, b: Instruction, at: nat, raw: AddressReads, raw': AddressReads)
    requires WellShaped(a) && WellShaped(b) && PlainOperands(a) && PlainOperands(b)
    ensures Lifted(a, at, raw) == Lifted(b, at, raw') <==> Indistinct(a, b)
  {
    if a.opcode == OpCall || b.opcode == OpCall {
    } else if IsMove(a.opcode) && IsMove(b.opcode) {
      MovesSameIff(a.payload.arg0, a.payload.arg1.value, b.payload.arg0, b.payload.arg1.value, at, raw, raw');
    } else if !IsMove(a.opcode) && !IsMove(b.opcode) {
      OperationsSameIff(a, b, at, raw, raw');
    } else if IsMove(a.opcode) {
      OperationIsNoMove(b, at, raw');
    } else {
      OperationIsNoMove(a, at, raw);
    }
  }

  // ----------------------------------------------------------- control flow

  /** Where a jump goes: its stored first operand. */
  function JumpAddress(instr: Instruction): int
    requires instr.payload.Operation? && instr.payload.arg0.Imm?
  {
    instr.payload.arg0.value
  }

  ghost predicate ImmediateJumps(program: seq<Instruction>) {
    forall i :: 0 <= i < |program| && (program[i].opcode == OpJmp || IsCondJump(program[i].opcode)) ==>
      program[i].payload.Operation? && program[i].payload.arg0.Imm?
  }

  /** One step of the source program. */
  ghost predicate AsmStep(program: seq<Instruction>, i: int, j: int)
    requires ImmediateJumps(program)
  {
    && 0 <= i < |program| && 0 <= j < |program|
    && if program[i].opcode == OpJmp then j == JumpAddress(program[i])
       else if IsCondJump(program[i].opcode) then j == JumpAddress(program[i]) || j == i + 1
       else j == i + 1
  }

  lemma {:induction false} CallFreeStep(program: seq<Instruction>, n: nat, i: int, j: int, raw: AddressReads)
    requires AllShaped(program) && ImmediateJumps(program) && n <= |program| && CallFree(program, n) && j < n
    ensures Step(LiftedCode(program, n, raw), i, j) <==> i < n && AsmStep(program, i, j)
  {
    LengthIff(program, n, raw);
    if 0 <= i < n {
      LiftedAt(program, n, i, raw);
    }
  }

  /** Lifting keeps control flow: a program without calls, whose jumps have immediate
      addresses, and its lifting take the same steps. */
  lemma {:induction false} LiftingKeepsControlFlow(program: seq<Instruction>, i: int, j: int, raw: AddressReads)
    requires AllShaped(program) && ImmediateJumps(program) && CallFree(program, |program|)
    ensures Step(Lifting(program, raw), i, j) <==> AsmStep(program, i, j)
  {
    LengthIff(program, |program|, raw);
    if j < |program| {
      CallFreeStep(program, |program|, i, j, raw);
    }
  }

  ghost predicate TargetsInside(program: seq<Instruction>)
    requires ImmediateJumps(program)
  {
    forall i :: 0 <= i < |program| && (program[i].opcode == OpJmp || IsCondJump(program[i].opcode)) ==>
      0 <= JumpAddress(program[i]) < |program|
  }

  ghost predicate SameSteps(program: seq<Instruction>, code: seq<AtomicInstr>)
    requires ImmediateJumps(program)
  {
    forall i: int, j: int :: SameStep(program, code, i, j)
  }

  ghost predicate SameStep(program: seq<Instruction>, code: seq<AtomicInstr>, i: int, j: int)
    requires ImmediateJumps(program)
  {
    Step(code, i, j) <==> AsmStep(program, i, j)
  }

  ghost predicate NoStepTo(program: seq<Instruction>, at: int)
    requires ImmediateJumps(program)
  {
    forall i: int :: !AsmStep(program, i, at)
  }

  /** The only call is the last instruction, and no step leads to it. */
  ghost predicate OnlyDeadLastCall(program: seq<Instruction>)
    requires ImmediateJumps(program)
  {
    && |program| > 0 && program[|program| - 1].opcode == OpCall && CallFree(program, |program| - 1)
    && NoStepTo(program, |program| - 1)
  }

  lemma {:induction false} DeadLastCallKeeps(program: seq<Instruction>, raw: AddressReads)
    requires AllShaped(program) && ImmediateJumps(program) && OnlyDeadLastCall(program)
    ensures SameSteps(program, Lifting(program, raw))
  {
    var n := |program| - 1;
    LengthIff(program, n, raw);
    assert Lifting(program, raw) == LiftedCode(program, n, raw);
    forall i: int, j: int
      ensures SameStep(program, Lifting(program, raw), i, j)
    {
      if j < n {
        CallFreeStep(program, n, i, j, raw);
      }
    }
  }

  /** A call makes the lifting shorter, so steps of the last two instructions decide: with
      the same steps, the last instruction has none and the one before is a jump, whose
      step the shorter program can only take if the call is the last instruction. */
  lemma {:induction false} SameStepsNeeds(program: seq<Instruction>, raw: AddressReads)
    requires AllShaped(program) && ImmediateJumps(program) && TargetsInside(program)
    requires !CallFree(program, |program|) && !IsCondJump(program[|program| - 1].opcode)
    requires SameSteps(program, Lifting(program, raw))
    ensures OnlyDeadLastCall(program)
  {
    var code, n := Lifting(program, raw), |program|;
    LengthIff(program, n, raw);
    assert |code| < n;
    var last := n - 1;
    forall i: int
      ensures !AsmStep(program, i, last)
    {
      assert SameStep(program, code, i, last);
    }
    var target := if program[n - 1].opcode == OpJmp then JumpAddress(program[n - 1]) else 0;
    assert SameStep(program, code, n - 1, target);
    if n > 1 {
      JumpBeforeEnd(program, raw);
      LastIsCall(program, JumpAddress(program[n - 2]), raw);
    }
    LengthIff(program, n - 1, raw);
  }

  /** The instruction before the last one is a jump, and only one call is missing. */
  lemma {:induction false} JumpBeforeEnd(program: seq<Instruction>, raw: AddressReads)
    requires AllShaped(program) && ImmediateJumps(program) && TargetsInside(program)
    requires |program| > 1 && |Lifting(program, raw)| < |program|
    requires SameSteps(program, Lifting(program, raw))
    ensures var n := |program|;
            && program[n - 2].opcode == OpJmp && |Lifting(program, raw)| == n - 1
            && Step(Lifting(program, raw), n - 2, JumpAddress(program[n - 2]))
  {
    var code, n := Lifting(program, raw), |program|;
    assert SameStep(program, code, n - 2, n - 1);
    assert SameStep(program, code, n - 2, JumpAddress(program[n - 2]));
  }

  lemma {:induction false} LastIsCall(program: seq<Instruction>, target: int, raw: AddressReads)
    requires AllShaped(program) && ImmediateJumps(program)
    requires |program| > 1 && |Lifting(program, raw)| == |program| - 1
    requires program[|program| - 1].opcode != OpJmp && !IsCondJump(program[|program| - 1].opcode)
    requires Step(Lifting(program, raw), |program| - 2, target)
    ensures program[|program| - 1].opcode == OpCall
  {
    var n := |program|;
    var before := LiftedCode(program, n - 1, raw);
    if program[n - 1].opcode != OpCall {
      var atom := Lifted(program[n - 1], |before|, raw).value;
      assert Lifting(program, raw) == before + [atom];
      OperationFallsThrough(program[n - 1], |before|, raw);
      assert false;
    }
  }

  lemma OperationFallsThrough(instr: Instruction, at: nat, raw: AddressReads)
    requires WellShaped(instr) && IsBinary(instr.opcode)
    ensures Lifted(instr, at, raw).Some? && !IsJump(Lifted(instr, at, raw).value)
  {
  }

  /** Lifting keeps the steps of a program exactly if it has no call, or its only call is
      a last instruction that no step leads to. */
  lemma ControlFlowKeptIff(program: seq<Instruction>, raw: AddressReads)
    requires AllShaped(program) && ImmediateJumps(program) && TargetsInside(program)
    requires program != [] && !IsCondJump(program[|program| - 1].opcode)
    ensures SameSteps(program, Lifting(program, raw))
            <==> CallFree(program, |program|) || OnlyDeadLastCall(program)
  {
    if CallFree(program, |program|) {
      forall i: int, j: int
        ensures SameStep(program, Lifting(program, raw), i, j)
      {
        LiftingKeepsControlFlow(program, i, j, raw);
      }
    } else if OnlyDeadLastCall(program) {
      DeadLastCallKeeps(program, raw);
    } else if SameSteps(program, Lifting(program, raw)) {
      SameStepsNeeds(program, raw);
    }
  }

  /** A run of the source program from its first instruction to position `pc`. */
  ghost predicate AsmRunTo(program: seq<Instruction>, run: seq<int>, pc: int)
    requires ImmediateJumps(program)
  {
    && |run| > 0 && run[0] == 0 && run[|run| - 1] == pc
    && (forall i :: 0 <= i < |run| ==> 0 <= run[i] < |program|)
    && forall i :: 0 <= i < |run| - 1 ==> AsmStep(program, run[i], run[i + 1])
  }

  /** Both programs have the same runs. */
  lemma {:induction false} LiftingKeepsRuns(program: seq<Instruction>, run: seq<int>, pc: int, raw: AddressReads)
    requires AllShaped(program) && ImmediateJumps(program) && CallFree(program, |program|)
    ensures RunTo(Lifting(program, raw), run, pc) <==> AsmRunTo(program, run, pc)
  {
    var code := Lifting(program, raw);
    LengthIff(program, |program|, raw);
    forall i | 0 <= i < |run| - 1
      ensures Step(code, run[i], run[i + 1]) <==> AsmStep(program, run[i], run[i + 1])
    {
      LiftingKeepsControlFlow(program, run[i], run[i + 1], raw);
    }
  }

  /** A program with a call does not keep its numbering: in `call putchar(); jmp 1` the
      jump is the instruction at position 0 after lifting, and it targets a position
      that does not exist any more. */
  lemma {:induction false} CallShiftsNumbering(program: seq<Instruction>, raw: AddressReads)
    requires program == [Instruction(OpCall, CallTo(Putchar), 0), Instruction(OpJmp, Operation(Imm(1), None), 1)]
    ensures AllShaped(program) && |Lifting(program, raw)| == 1
    ensures Lifting(program, raw)[0].kind == Jmp && Target(Lifting(program, raw)[0]) == 1
    ensures AsmStep(program, 1, 1) && !Step(Lifting(program, raw), 0, 1)
  {
    assert LiftedCode(program, 1, raw) == LiftedCode(program, 0, raw) == [];
  }
}
