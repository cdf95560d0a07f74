/** What source and lifted instructions mean on a store, and that lifting keeps it. The
    two languages are given their meaning separately, without the lifter. */
module Meaning {
  import opened Asm
  import opened IntermediateRepresentation
  import opened Lifter

  // ------------------------------------------------------------------ store

  type Cells = int -> int

  /** Registers, memory and flags. */
  datatype State = State(regs: Cells, mem: Cells, flags: int)

  function Set(cells: Cells, at: int, value: int): Cells {
    i => if i == at then value else cells(i)
  }

  ghost predicate SameState(s: State, t: State) {
    && (forall i :: s.regs(i) == t.regs(i))
    && (forall i :: s.mem(i) == t.mem(i))
    && s.flags == t.flags
  }

  /** The arithmetic of the machine, whatever it is. */
  datatype Arithmetic = Arithmetic(add: (int, int) -> int, sub: (int, int) -> int, rem: (int, int) -> int,
                                   and: (int, int) -> int, or: (int, int) -> int, xor: (int, int) -> int,
                                   shl: (int, int) -> int, shr: (int, int) -> int, equal: (int, int) -> int)

  // ----------------------------------------------------------------- source

  /** The value of an operand: an index is evaluated first. */
  function AsmRead(s: State, operand: Operand): int {
    match operand
    case Imm(value) => value
    case Reg(index) => s.regs(AsmRead(s, index))
    case Mem(index) => s.mem(AsmRead(s, index))
    case Flags => s.flags
  }

  function AsmWrite(s: State, operand: Operand, value: int): State {
    match operand
    case Imm(_) => s
    case Reg(index) => s.(regs := Set(s.regs, AsmRead(s, index), value))
    case Mem(index) => s.(mem := Set(s.mem, AsmRead(s, index), value))
    case Flags => s.(flags := value)
  }

  /** `mov dst, src`. */
  function AsmMove(s: State, dst: Operand, src: Operand): State {
    AsmWrite(s, dst, AsmRead(s, src))
  }

  /** The result of an operation. A comparison is taken as a test for equality: the other
      outcomes are not represented in a lifted program. */
  function AsmCompute(machine: Arithmetic, opcode: Opcode, x: int, y: int): int
    requires IsBinary(opcode) && !IsMove(opcode)
  {
    match opcode
    case OpAdd => machine.add(x, y)
    case OpSub => machine.sub(x, y)
    case OpRem => machine.rem(x, y)
    case OpAnd => machine.and(x, y)
    case OpOr => machine.or(x, y)
    case OpXor => machine.xor(x, y)
    case OpShl => machine.shl(x, y)
    case OpShr => machine.shr(x, y)
    case OpCmp => machine.equal(x, y)
  }

  // ------------------------------------------------ intermediate representation

  /** The value that an identifier names. */
  function IrRead(s: State, id: ValueId): int {
    match id.address.space
    case ConstSpace => id.address.offset
    case RegSpace => s.regs(id.address.offset)
    case MemSpace => s.mem(id.address.offset)
  }

  /** A constant cannot be written. */
  function IrWrite(s: State, id: ValueId, value: int): State {
    match id.address.space
    case ConstSpace => s
    case RegSpace => s.(regs := Set(s.regs, id.address.offset, value))
    case MemSpace => s.(mem := Set(s.mem, id.address.offset, value))
  }

  /** Copies have a source and a destination, loads a pointer and a destination, and stores a
      source and a pointer. */
  function IrMove(s: State, atom: AtomicInstr): State
    requires atom.kind in {Copy, Load, Store}
  {
    match atom.kind
    case Copy => IrWrite(s, atom.second, IrRead(s, atom.first))
    case Load => IrWrite(s, atom.second, s.mem(IrRead(s, atom.first)))
    case Store => s.(mem := Set(s.mem, IrRead(s, atom.second), IrRead(s, atom.first)))
  }

  predicate Computes(kind: AtomicKind) {
    kind in {Add, Sub, Rem, And, Or, Xor, Shl, Shr, Equal}
  }

  function IrCompute(machine: Arithmetic, kind: AtomicKind, x: int, y: int): int
    requires Computes(kind)
  {
    match kind
    case Add => machine.add(x, y)
    case Sub => machine.sub(x, y)
    case Rem => machine.rem(x, y)
    case And => machine.and(x, y)
    case Or => machine.or(x, y)
    case Xor => machine.xor(x, y)
    case Shl => machine.shl(x, y)
    case Shr => machine.shr(x, y)
    case Equal => machine.equal(x, y)
  }

  // --------------------------------------------------------------- operands

  /** Immediates, and registers with an immediate index. */
  predicate Direct(operand: Operand) {
    operand.Imm? || (operand.Reg? && operand.index.Imm?)
  }

  lemma {:induction false} DirectMeaning(s: State, operand: Operand, at: nat, size: Size, unknown: int)
    requires Direct(operand)
    ensures IrRead(s, ValueOf(operand, at, size, unknown)) == AsmRead(s, operand)
  {
  }

  lemma DirectWrite(s: State, operand: Operand, at: nat, size: Size, unknown: int, value: int)
    requires Direct(operand)
    ensures IrWrite(s, ValueOf(operand, at, size, unknown), value) == AsmWrite(s, operand, value)
  {
  }

  ghost predicate MeansSame(s: State, operand: Operand, at: nat, size: Size, unknown: int) {
    IrRead(s, ValueOf(operand, at, size, unknown)) == AsmRead(s, operand)
  }

  ghost predicate AlwaysMeansSame(operand: Operand, at: nat, size: Size) {
    forall s: State, unknown: int :: MeansSame(s, operand, at, size, unknown)
  }

  /** A lifted operand means what the source operand means, in every state and whatever the
      unknown number is, exactly if it is direct. */
  lemma OperandMeaningIff(operand: Operand, at: nat, size: Size)
    ensures AlwaysMeansSame(operand, at, size) <==> Direct(operand)
  {
    if Direct(operand) {
      forall s: State, unknown: int
        ensures MeansSame(s, operand, at, size, unknown)
      {
        DirectMeaning(s, operand, at, size, unknown);
      }
    } else {
      var unknown := IndirectDiffers(operand, at, size, 1, 1);
    }
  }

  /** Register i holds i, all memory cells hold m, and the flags f. */
  function Probe(m: int, f: int): State {
    State(i => i, _ => m, f)
  }

  /** Such a state tells an indirect operand from its lifting. */
  lemma IndirectDiffers(operand: Operand, at: nat, size: Size, m: int, f: int) returns (unknown: int)
    requires !Direct(operand) && m != 0 && f != 0
    ensures !MeansSame(Probe(m, f), operand, at, size, unknown)
  {
    unknown := if operand.Reg? then AsmRead(Probe(m, f), operand.index) + 1 else 0;
  }

  // ------------------------------------------------------------- operations

  /** The lifted operation computes what the source operation computes, for all operand
      values and every arithmetic. */
  lemma OperationMeaning(machine: Arithmetic, instr: Instruction, at: nat, raw: AddressReads, x: int, y: int)
    requires WellShaped(instr) && IsBinary(instr.opcode) && !IsMove(instr.opcode)
    ensures Lifted(instr, at, raw).Some? && Computes(Lifted(instr, at, raw).value.kind)
    ensures IrCompute(machine, Lifted(instr, at, raw).value.kind, x, y) == AsmCompute(machine, instr.opcode, x, y)
  {
  }

  ghost predicate SameResult(machine: Arithmetic, s: State, instr: Instruction, at: nat, raw: AddressReads)
    requires WellShaped(instr) && IsBinary(instr.opcode) && !IsMove(instr.opcode)
  {
    match Lifted(instr, at, raw)
    case None => false
    case Some(atom) =>
      && Computes(atom.kind)
      && IrCompute(machine, atom.kind, IrRead(s, atom.first), IrRead(s, atom.second))
         == AsmCompute(machine, instr.opcode, AsmRead(s, instr.payload.arg0), AsmRead(s, instr.payload.arg1.value))
  }

  ghost predicate AlwaysSameResult(instr: Instruction, at: nat)
    requires WellShaped(instr) && IsBinary(instr.opcode) && !IsMove(instr.opcode)
  {
    forall machine: Arithmetic, s: State, raw: AddressReads :: SameResult(machine, s, instr, at, raw)
  }

  lemma DirectSameResult(machine: Arithmetic, s: State, instr: Instruction, at: nat, raw: AddressReads)
    requires WellShaped(instr) && IsBinary(instr.opcode) && !IsMove(instr.opcode)
    requires Direct(instr.payload.arg0) && Direct(instr.payload.arg1.value)
    ensures SameResult(machine, s, instr, at, raw)
  {
    OperationMeaning(machine, instr, at, raw, AsmRead(s, instr.payload.arg0), AsmRead(s, instr.payload.arg1.value));
    DirectMeaning(s, instr.payload.arg0, at, Word, raw(at, 0));
    DirectMeaning(s, instr.payload.arg1.value, at, Word, raw(at, 1));
  }

  /** All operations are f. */
  function Uniform(f: (int, int) -> int): Arithmetic {
    Arithmetic(f, f, f, f, f, f, f, f, f)
  }

  /** The address reads that give u in the first slot and v in the second. */
  function Reads(u: int, v: int): AddressReads {
    (at: nat, slot: nat) => if slot == 0 then u else v
  }

  lemma IndirectOtherResult(instr: Instruction, at: nat)
    requires WellShaped(instr) && IsBinary(instr.opcode) && !IsMove(instr.opcode)
    requires !Direct(instr.payload.arg0) || !Direct(instr.payload.arg1.value)
    ensures !AlwaysSameResult(instr, at)
  {
    if !Direct(instr.payload.arg0) {
      var unknown := IndirectDiffers(instr.payload.arg0, at, Word, 1, 1);
      assert !SameResult(Uniform((x, y) => x), Probe(1, 1), instr, at, Reads(unknown, 0));
    } else {
      var unknown := IndirectDiffers(instr.payload.arg1.value, at, Word, 1, 1);
      assert !SameResult(Uniform((x, y) => y), Probe(1, 1), instr, at, Reads(0, unknown));
    }
  }

  /** The lifted operation, applied to what its operands name, gives the result of the
      source operation, with every arithmetic and in every state, exactly if both operands
      are direct. */
  lemma OperationKeptIff(instr: Instruction, at: nat)
    requires WellShaped(instr) && IsBinary(instr.opcode) && !IsMove(instr.opcode)
    ensures AlwaysSameResult(instr, at) <==> Direct(instr.payload.arg0) && Direct(instr.payload.arg1.value)
  {
    if Direct(instr.payload.arg0) && Direct(instr.payload.arg1.value) {
      forall machine: Arithmetic, s: State, raw: AddressReads
        ensures SameResult(machine, s, instr, at, raw)
      {
        DirectSameResult(machine, s, instr, at, raw);
      }
    } else {
      IndirectOtherResult(instr, at);
    }
  }

  // ------------------------------------------------------------------ moves

  /** The operands that a move reads or writes are direct; at most one of them is a memory
      cell, with a direct address. */
  predicate DirectMove(dst: Operand, src: Operand) {
    if dst.Mem? then Direct(dst.index) && Direct(src)
    else if src.Mem? then Direct(dst) && Direct(src.index)
    else Direct(dst) && Direct(src)
  }

  /** Moves without effect before and after lifting: to an immediate, or from the flags or
      the register indexed by them to itself. */
  predicate IdleMove(dst: Operand, src: Operand) {
    dst.Imm? || (dst == src && dst in {Flags, Reg(Flags)})
  }

  ghost predicate SameEffect(s: State, instr: Instruction, at: nat, raw: AddressReads)
    requires WellShaped(instr) && IsMove(instr.opcode)
  {
    match Lifted(instr, at, raw)
    case None => false
    case Some(atom) =>
      && atom.kind in {Copy, Load, Store}
      && SameState(IrMove(s, atom), AsmMove(s, instr.payload.arg0, instr.payload.arg1.value))
  }

  ghost predicate AlwaysSameEffect(instr: Instruction, at: nat)
    requires WellShaped(instr) && IsMove(instr.opcode)
  {
    forall s: State, raw: AddressReads :: SameEffect(s, instr, at, raw)
  }

  ghost predicate SameMove(s: State, dst: Operand, src: Operand, at: nat, raw: AddressReads) {
    SameState(IrMove(s, LiftedMove(dst, src, at, raw)), AsmMove(s, dst, src))
  }

  lemma DirectSameMove(s: State, dst: Operand, src: Operand, at: nat, raw: AddressReads)
    requires DirectMove(dst, src)
    ensures SameMove(s, dst, src, at, raw)
  {
    if dst.Mem? {
      DirectMeaning(s, dst.index, at, Word, raw(at, 0));
      DirectMeaning(s, src, at, Word, raw(at, 1));
    } else if src.Mem? {
      DirectMeaning(s, src.index, at, Word, raw(at, 0));
      DirectWrite(s, dst, at, Word, raw(at, 1), AsmRead(s, src));
    } else {
      DirectMeaning(s, src, at, Byte, raw(at, 0));
      DirectWrite(s, dst, at, Byte, raw(at, 1), AsmRead(s, src));
    }
  }

  lemma IdleSameMove(s: State, dst: Operand, src: Operand, at: nat, raw: AddressReads)
    requires IdleMove(dst, src)
    ensures SameMove(s, dst, src, at, raw)
  {
  }

  ghost predicate AlwaysSameMove(dst: Operand, src: Operand, at: nat) {
    forall s: State, raw: AddressReads :: SameMove(s, dst, src, at, raw)
  }

  /** In a probe state, an operand has the same value for all contents of memory, or the
      contents of a memory cell. */
  lemma {:induction false} ProbeValue(operand: Operand, m: int, f: int)
    ensures AsmRead(Probe(m, f), operand) in {AsmRead(Probe(0, f), operand), m}
  {
    match operand
    case Reg(index) => ProbeValue(index, m, f);
    case _ =>
  }

  /** The contents of memory that are different from the given numbers. */
  function Fresh(a: int, b: int, c: int): (m: int)
    ensures m != a && m != b && m != c
  {
    var high := if a > b then a else b;
    if c > high then c + 1 else high + 1
  }

  // to the flags: nothing is written
  lemma FlagsLost(src: Operand, at: nat)
    requires !src.Flags?
    ensures !AlwaysSameMove(Flags, src, at)
  {
    var f := if src.Imm? then src.value + 1 else 0;
    var s := State(_ => 1, _ => 1, f);
    assert AsmRead(s, src) != f;
    assert !SameMove(s, Flags, src, at, Reads(0, 0));
  }

  // to a memory cell
  lemma StoreDiffers(dst: Operand, src: Operand, at: nat)
    requires dst.Mem? && !DirectMove(dst, src)
    ensures !AlwaysSameMove(dst, src, at)
  {
    var m := Fresh(AsmRead(Probe(0, 1), src), 0, 1);
    ProbeValue(src, m, 1);
    var s := Probe(m, 1);
    var u, v := 0, m + 1;
    if !Direct(dst.index) {
      u := IndirectDiffers(dst.index, at, Word, m, 1);
    } else {
      v := IndirectDiffers(src, at, Word, m, 1);
    }
    var p := AsmRead(s, dst.index);
    var q := IrRead(s, ValueOf(dst.index, at, Word, u));
    assert !(IrMove(s, LiftedMove(dst, src, at, Reads(u, v))).mem(p) == AsmMove(s, dst, src).mem(p)
             && IrMove(s, LiftedMove(dst, src, at, Reads(u, v))).mem(q) == AsmMove(s, dst, src).mem(q));
    assert !SameMove(s, dst, src, at, Reads(u, v));
  }

  // to a register, from a memory cell
  lemma LoadDiffers(dst: Operand, src: Operand, at: nat)
    requires dst.Reg? && src.Mem? && !DirectMove(dst, src)
    ensures !AlwaysSameMove(dst, src, at)
  {
    if Direct(dst) {
      LoadFromElsewhere(dst, src, at);
    } else {
      LoadToElsewhere(dst, src, at);
    }
  }

  lemma LoadToElsewhere(dst: Operand, src: Operand, at: nat)
    requires dst.Reg? && src.Mem? && !Direct(dst)
    ensures !AlwaysSameMove(dst, src, at)
  {
    var s := Probe(1, 2);
    var p := AsmRead(s, dst.index);
    var raw := Reads(0, p + 1);
    var q := if dst.index.Flags? then 0 else p + 1;
    var after, after' := IrMove(s, LiftedMove(dst, src, at, raw)), AsmMove(s, dst, src);
    assert p != q && after.regs(q) == 1 && after'.regs(p) == 1;
    assert after.regs(p) == p && after'.regs(q) == q;
    assert !SameMove(s, dst, src, at, raw);
  }

  lemma LoadFromElsewhere(dst: Operand, src: Operand, at: nat)
    requires dst.Reg? && src.Mem? && Direct(dst) && !Direct(src.index)
    ensures !AlwaysSameMove(dst, src, at)
  {
    // memory cells that all differ, and none of which is 0
    var s := State(i => i, i => if i < 0 then i else i + 1, 1);
    var p := AsmRead(s, src.index);
    var raw := Reads(p + 1, 0);
    var q := IrRead(s, ValueOf(src.index, at, Word, p + 1));
    assert p != q && s.mem(p) != s.mem(q);
    var r := dst.index.value;
    assert IrMove(s, LiftedMove(dst, src, at, raw)).regs(r) == s.mem(q);
    assert AsmMove(s, dst, src).regs(r) == s.mem(p);
    assert !SameMove(s, dst, src, at, raw);
  }

  // to a register, from anything else
  lemma CopyDiffers(dst: Operand, src: Operand, at: nat)
    requires dst.Reg? && !src.Mem? && !DirectMove(dst, src) && !IdleMove(dst, src)
    ensures !AlwaysSameMove(dst, src, at)
  {
    if Direct(dst) {
      CopyFromElsewhere(dst, src, at);
    } else if dst.index.Flags? {
      CopyToFlagged(dst, src, at);
    } else {
      CopyToElsewhere(dst, src, at);
    }
  }

  lemma CopyFromElsewhere(dst: Operand, src: Operand, at: nat)
    requires dst.Reg? && !src.Mem? && Direct(dst) && !Direct(src)
    ensures !AlwaysSameMove(dst, src, at)
  {
    var u := IndirectDiffers(src, at, Byte, 1, 1);
    var r := dst.index.value;
    assert IrMove(Probe(1, 1), LiftedMove(dst, src, at, Reads(u, 0))).regs(r) != AsmMove(Probe(1, 1), dst, src).regs(r);
    assert !SameMove(Probe(1, 1), dst, src, at, Reads(u, 0));
  }

  // the lifted move writes register 0, the source move the one named by the flags
  lemma CopyToFlagged(dst: Operand, src: Operand, at: nat)
    requires dst == Reg(Flags) && !src.Mem? && src != dst
    ensures !AlwaysSameMove(dst, src, at)
  {
    var f := Fresh(if src.Imm? then src.value else 0, if src.Reg? && src.index.Imm? then src.index.value else 0, 0);
    var s := State(i => i + 1, _ => 1, f);
    var raw := Reads(5, 0);
    var after, after' := IrMove(s, LiftedMove(dst, src, at, raw)), AsmMove(s, dst, src);
    assert after.regs(0) != after'.regs(0) || after.regs(f) != after'.regs(f);
    assert !SameMove(s, dst, src, at, raw);
  }

  lemma CopyToElsewhere(dst: Operand, src: Operand, at: nat)
    requires dst.Reg? && !dst.index.Imm? && !dst.index.Flags? && !src.Mem?
    ensures !AlwaysSameMove(dst, src, at)
  {
    var s := Probe(1, 1);
    var p, value := AsmRead(s, dst.index), AsmRead(s, src);
    var value' := IrRead(s, ValueOf(src, at, Byte, 0));
    // another register, and not one that keeps its value
    var q := Fresh(p, value', 0);
    var raw := Reads(0, q);
    var after, after' := IrMove(s, LiftedMove(dst, src, at, raw)), AsmMove(s, dst, src);
    assert after.regs(q) == value' && after'.regs(q) == q;
    assert !SameMove(s, dst, src, at, raw);
  }

  lemma OtherMoveDiffers(dst: Operand, src: Operand, at: nat)
    requires !DirectMove(dst, src) && !IdleMove(dst, src)
    ensures !AlwaysSameMove(dst, src, at)
  {
    match dst
    case Mem(_) => StoreDiffers(dst, src, at);
    case Flags => FlagsLost(src, at);
    case Reg(_) => if src.Mem? { LoadDiffers(dst, src, at); } else { CopyDiffers(dst, src, at); }
  }

  /** A lifted move has the effect of the source move, from every state, exactly if it is
      direct or idle. */
  lemma MoveKeptIff(instr: Instruction, at: nat)
    requires WellShaped(instr) && IsMove(instr.opcode)
    ensures AlwaysSameEffect(instr, at) <==>
            DirectMove(instr.payload.arg0, instr.payload.arg1.value)
            || IdleMove(instr.payload.arg0, instr.payload.arg1.value)
  {
    var dst, src := instr.payload.arg0, instr.payload.arg1.value;
    if DirectMove(dst, src) || IdleMove(dst, src) {
      forall s: State, raw: AddressReads
        ensures SameEffect(s, instr, at, raw)
      {
        if DirectMove(dst, src) {
          DirectSameMove(s, dst, src, at, raw);
        } else {
          IdleSameMove(s, dst, src, at, raw);
        }
      }
    } else {
      OtherMoveDiffers(dst, src, at);
      var s, raw :| !SameMove(s, dst, src, at, raw);
      assert !SameEffect(s, instr, at, raw);
    }
  }

  // ------------------------------------------------------------------- runs

  /** An instruction pointer and a state. */
  datatype Config = Config(pc: int, state: State)

  /** Programs of moves that keep their effect and of jumps. The results of operations are
      not stored in a lifted program. */
  ghost predicate MovesAndJumps(program: seq<Instruction>)
    requires AllShaped(program)
  {
    forall i :: 0 <= i < |program| ==> IsKept(program[i])
  }

  predicate IsKept(instr: Instruction)
    requires WellShaped(instr)
  {
    if IsMove(instr.opcode) then
      DirectMove(instr.payload.arg0, instr.payload.arg1.value) || IdleMove(instr.payload.arg0, instr.payload.arg1.value)
    else instr.opcode == OpJmp || IsCondJump(instr.opcode)
  }

  /** The source program goes from one configuration to the next. */
  ghost predicate AsmExecutes(program: seq<Instruction>, c: Config, d: Config)
    requires AllShaped(program) && ImmediateJumps(program)
  {
    && AsmStep(program, c.pc, d.pc)
    && var instr := program[c.pc];
       if IsMove(instr.opcode) then SameState(d.state, AsmMove(c.state, instr.payload.arg0, instr.payload.arg1.value))
       else SameState(d.state, c.state)
  }

  /** The same for a program of copies, loads, stores and jumps. */
  ghost predicate IrExecutes(code: seq<AtomicInstr>, c: Config, d: Config) {
    && Step(code, c.pc, d.pc)
    && if code[c.pc].kind in {Copy, Load, Store} then SameState(d.state, IrMove(c.state, code[c.pc]))
       else IsJump(code[c.pc]) && SameState(d.state, c.state)
  }

  lemma KeptCallFree(program: seq<Instruction>)
    requires AllShaped(program) && MovesAndJumps(program)
    ensures CallFree(program, |program|)
  {
    forall i | 0 <= i < |program|
      ensures program[i].opcode != OpCall
    {
      assert IsKept(program[i]);
    }
  }

  lemma JumpStaysJump(instr: Instruction, at: nat, raw: AddressReads)
    requires WellShaped(instr) && (instr.opcode == OpJmp || IsCondJump(instr.opcode))
    ensures Lifted(instr, at, raw).Some? && IsJump(Lifted(instr, at, raw).value)
  {
  }

  lemma MoveStaysMove(s: State, t: State, instr: Instruction, at: nat, raw: AddressReads)
    requires WellShaped(instr) && IsMove(instr.opcode) && IsKept(instr)
    ensures Lifted(instr, at, raw).Some? && Lifted(instr, at, raw).value.kind in {Copy, Load, Store}
    ensures SameState(t, IrMove(s, Lifted(instr, at, raw).value))
            <==> SameState(t, AsmMove(s, instr.payload.arg0, instr.payload.arg1.value))
  {
    MoveKeptIff(instr, at);
    assert SameEffect(s, instr, at, raw);
  }

  /** The lifting of a program of moves and jumps makes the same moves from one
      configuration to the next. */
  lemma LiftingKeepsData(program: seq<Instruction>, raw: AddressReads, c: Config, d: Config)
    requires AllShaped(program) && ImmediateJumps(program) && MovesAndJumps(program)
    ensures IrExecutes(Lifting(program, raw), c, d) <==> AsmExecutes(program, c, d)
  {
    KeptCallFree(program);
    LiftingKeepsControlFlow(program, c.pc, d.pc, raw);
    if AsmStep(program, c.pc, d.pc) {
      LengthKeptIff(program, |program|, raw);
      var instr := program[c.pc];
      assert IsKept(instr);
      if IsMove(instr.opcode) {
        MoveStaysMove(c.state, d.state, instr, c.pc, raw);
      } else {
        JumpStaysJump(instr, c.pc, raw);
      }
    }
  }

  ghost predicate AsmHistory(program: seq<Instruction>, history: seq<Config>)
    requires AllShaped(program) && ImmediateJumps(program)
  {
    forall k :: 0 < k < |history| ==> AsmExecutes(program, history[k - 1], history[k])
  }

  ghost predicate IrHistory(code: seq<AtomicInstr>, history: seq<Config>) {
    forall k :: 0 < k < |history| ==> IrExecutes(code, history[k - 1], history[k])
  }

  /** Such a program and its lifting have the same histories of registers, memory and flags. */
  lemma LiftingKeepsHistories(program: seq<Instruction>, raw: AddressReads, history: seq<Config>)
    requires AllShaped(program) && ImmediateJumps(program) && MovesAndJumps(program)
    ensures IrHistory(Lifting(program, raw), history) <==> AsmHistory(program, history)
  {
    forall k | 0 < k < |history|
      ensures IrExecutes(Lifting(program, raw), history[k - 1], history[k])
              <==> AsmExecutes(program, history[k - 1], history[k])
    {
      LiftingKeepsData(program, raw, history[k - 1], history[k]);
    }
  }

  // ------------------------------------------------------------ annotations

  /** Both operands of a lifted instruction name the slot of the instruction as their
      definition and have no version yet; those of a copy are bytes, all others words. */
  lemma LiftedAnnotations(instr: Instruction, at: nat, raw: AddressReads)
    requires WellShaped(instr) && instr.opcode != OpCall
    ensures Lifted(instr, at, raw).Some?
    ensures var atom := Lifted(instr, at, raw).value;
            && atom.first.def == at && atom.first.version == 0
            && atom.first.size == (if atom.kind == Copy then Byte else Word)
            && (IsBinary(instr.opcode) ==>
                  atom.second.def == at && atom.second.version == 0 && atom.second.size == atom.first.size)
  {
  }
}
