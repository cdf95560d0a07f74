/** The token grammar of WeeperVM assembly, and that the parser accepts exactly it. */
module Grammar {
  import opened Asm
  import opened Tokens
  import opened Parser

  // --------------------------------------------------------------- operands

  /** The number of tokens of an operand. */
  function Size(operand: Operand): (n: nat)
    ensures n > 0
  {
    match operand
    case Imm(_) => 1
    case Reg(index) => 3 + Size(index)
    case Mem(index) => 3 + Size(index)
    case Flags => 1
  }

  /** The tokens from `pos` on spell the operand. */
  ghost predicate OperandReads(tokens: seq<Token>, pos: nat, operand: Operand)
    decreases operand, 0
  {
    && pos + Size(operand) <= |tokens|
    && match operand
       case Imm(value) => tokens[pos].kind == TkImmediate && tokens[pos].number == value
       case Reg(index) => tokens[pos].kind == TkRegister && BracketReads(tokens, pos + 1, index)
       case Mem(index) => tokens[pos].kind == TkMemory && BracketReads(tokens, pos + 1, index)
       case Flags => tokens[pos].kind == TkFlag
  }

  ghost predicate BracketReads(tokens: seq<Token>, pos: nat, index: Operand)
    requires pos + Size(index) + 2 <= |tokens|
    decreases index, 1
  {
    && tokens[pos].kind == TkLeftBracket
    && OperandReads(tokens, pos + 1, index)
    && tokens[pos + 1 + Size(index)].kind == TkRightBracket
  }

  lemma {:induction false} OperandAtIff(tokens: seq<Token>, pos: nat, operand: Operand, next: nat)
    ensures OperandAt(tokens, pos) == Ok(operand, next)
            <==> next == pos + Size(operand) && OperandReads(tokens, pos, operand)
    decreases operand, 0
  {
    match operand
    case Imm(_) =>
    case Reg(index) =>
      if pos < |tokens| {
        BracketedAtIff(tokens, pos, false, index, next);
      }
    case Mem(index) =>
      if pos < |tokens| {
        BracketedAtIff(tokens, pos, true, index, next);
      }
    case Flags =>
  }

  lemma {:induction false} BracketedAtIff(tokens: seq<Token>, pos: nat, memory: bool, index: Operand, next: nat)
    requires pos < |tokens|
    ensures BracketedAt(tokens, pos, memory) == Ok(if memory then Mem(index) else Reg(index), next)
            <==> next == pos + 3 + Size(index) <= |tokens| && BracketReads(tokens, pos + 1, index)
    decreases index, 1
  {
    OperandAtIff(tokens, pos + 2, index, pos + 2 + Size(index));
    var inner := OperandAt(tokens, pos + 2);
    if inner.Ok? {
      OperandAtIff(tokens, pos + 2, index, inner.next);
    }
  }

  // ----------------------------------------------------------- instructions

  function MnemonicToken(opcode: Opcode): TokenKind {
    match opcode
    case OpMov => MnMov
    case OpAdd => MnAdd
    case OpSub => MnSub
    case OpMul => MnMul
    case OpRem => MnRem
    case OpAnd => MnAnd
    case OpOr => MnOr
    case OpXor => MnXor
    case OpShl => MnShl
    case OpShr => MnShr
    case OpJnz => MnJnz
    case OpJa => MnJa
    case OpJe => MnJe
    case OpJl => MnJl
    case OpJmp => MnJmp
    case OpCmp => MnCmp
    case OpMovb => MnMovb
    case OpCall => MnCall
  }

  function CalleeToken(callee: Callee): TokenKind {
    if callee == Putchar then FuncPutchar else FuncRead
  }

  /** The operands in the order in which they are written: a jump on a condition value
      is written with its second stored operand first. */
  function Written(instr: Instruction): (operands: seq<Operand>)
    requires instr.payload.Operation?
    ensures 1 <= |operands| <= 2
  {
    match instr.payload.arg1
    case None => [instr.payload.arg0]
    case Some(arg1) => if instr.opcode == OpJnz then [arg1, instr.payload.arg0] else [instr.payload.arg0, arg1]
  }

  function ArgumentsSize(operands: seq<Operand>): nat
    requires 1 <= |operands| <= 2
  {
    if |operands| == 1 then Size(operands[0]) else Size(operands[0]) + 1 + Size(operands[1])
  }

  function PayloadSize(instr: Instruction): nat {
    match instr.payload
    case CallTo(_) => 3
    case Operation(_, _) => ArgumentsSize(Written(instr))
  }

  ghost predicate ArgumentsRead(tokens: seq<Token>, pos: nat, operands: seq<Operand>)
    requires 1 <= |operands| <= 2 && pos + ArgumentsSize(operands) <= |tokens|
  {
    && OperandReads(tokens, pos, operands[0])
    && (|operands| == 2 ==>
          && tokens[pos + Size(operands[0])].kind == TkComma
          && OperandReads(tokens, pos + Size(operands[0]) + 1, operands[1]))
  }

  ghost predicate CallReads(tokens: seq<Token>, pos: nat, callee: Callee)
    requires pos + 3 <= |tokens|
  {
    && tokens[pos].kind == CalleeToken(callee)
    && tokens[pos + 1].kind == TkLeftParen && tokens[pos + 2].kind == TkRightParen
  }

  /** The tokens from `pos` on spell the instruction. */
  ghost predicate InstructionReads(tokens: seq<Token>, pos: nat, instr: Instruction) {
    && WellShaped(instr)
    && pos + 1 + PayloadSize(instr) <= |tokens|
    && tokens[pos].kind == MnemonicToken(instr.opcode)
    && match instr.payload
       case CallTo(callee) => CallReads(tokens, pos + 1, callee)
       case Operation(_, _) => ArgumentsRead(tokens, pos + 1, Written(instr))
  }

  /** The dispatch tables know each mnemonic but `mul`. */
  lemma DispatchIff(kind: TokenKind, opcode: Opcode)
    ensures BinaryOpcode(kind) == Some(opcode) <==> IsBinary(opcode) && kind == MnemonicToken(opcode)
    ensures JumpOpcode(kind) == Some(opcode)
            <==> (opcode == OpJmp || IsCondJump(opcode)) && kind == MnemonicToken(opcode)
    ensures BinaryOpcode(kind).Some? ==> JumpOpcode(kind) == None && kind != MnCall
    ensures JumpOpcode(kind).Some? ==> kind != MnCall
  {
  }

  lemma {:induction false} OperandAtBoth(tokens: seq<Token>, pos: nat, a: Operand)
    ensures OperandReads(tokens, pos, a) ==> OperandAt(tokens, pos) == Ok(a, pos + Size(a))
    ensures OperandAt(tokens, pos).Ok? && OperandAt(tokens, pos).value == a ==>
              OperandAt(tokens, pos).next == pos + Size(a) && OperandReads(tokens, pos, a)
  {
    OperandAtIff(tokens, pos, a, pos + Size(a));
    if OperandAt(tokens, pos).Ok? {
      OperandAtIff(tokens, pos, a, OperandAt(tokens, pos).next);
    }
  }

  lemma PairParses(tokens: seq<Token>, pos: nat, a: Operand, b: Operand)
    requires pos + ArgumentsSize([a, b]) <= |tokens| && ArgumentsRead(tokens, pos, [a, b])
    ensures PairAt(tokens, pos) == Ok((a, b), pos + ArgumentsSize([a, b]))
  {
    OperandAtBoth(tokens, pos, a);
    OperandAtBoth(tokens, pos + Size(a) + 1, b);
  }

  lemma PairParsed(tokens: seq<Token>, pos: nat, a: Operand, b: Operand, next: nat)
    requires PairAt(tokens, pos) == Ok((a, b), next)
    ensures next == pos + ArgumentsSize([a, b]) <= |tokens| && ArgumentsRead(tokens, pos, [a, b])
  {
    OperandAtBoth(tokens, pos, a);
    OperandAtBoth(tokens, pos + Size(a) + 1, b);
  }

  lemma PairAtIff(tokens: seq<Token>, pos: nat, a: Operand, b: Operand, next: nat)
    ensures PairAt(tokens, pos) == Ok((a, b), next)
            <==> next == pos + ArgumentsSize([a, b]) <= |tokens| && ArgumentsRead(tokens, pos, [a, b])
  {
    if PairAt(tokens, pos) == Ok((a, b), next) {
      PairParsed(tokens, pos, a, b, next);
    } else if next == pos + ArgumentsSize([a, b]) <= |tokens| && ArgumentsRead(tokens, pos, [a, b]) {
      PairParses(tokens, pos, a, b);
    }
  }

  lemma {:induction false} JumpAtIff(tokens: seq<Token>, pos: nat, opcode: Opcode, offset: int, a: Operand, next: nat)
    requires pos < |tokens| && opcode != OpJnz
    ensures JumpAt(tokens, pos, opcode, offset) == Ok(Instruction(opcode, Operation(a, None), offset), next)
            <==> next == pos + 1 + Size(a) <= |tokens| && ArgumentsRead(tokens, pos + 1, [a])
  {
    OperandAtBoth(tokens, pos + 1, a);
  }

  lemma CallAtIff(tokens: seq<Token>, pos: nat, offset: int, callee: Callee, next: nat)
    requires pos < |tokens|
    ensures CallAt(tokens, pos, offset) == Ok(Instruction(OpCall, CallTo(callee), offset), next)
            <==> next == pos + 4 <= |tokens| && CallReads(tokens, pos + 1, callee)
  {
  }

  lemma OperationAtIff(tokens: seq<Token>, pos: nat, instr: Instruction, next: nat)
    requires WellShaped(instr) && instr.payload.Operation?
    requires pos < |tokens| && tokens[pos].kind == MnemonicToken(instr.opcode)
    ensures InstructionAt(tokens, pos, instr.offset) == Ok(instr, next)
            <==> next == pos + 1 + PayloadSize(instr) <= |tokens| && ArgumentsRead(tokens, pos + 1, Written(instr))
  {
    DispatchIff(tokens[pos].kind, instr.opcode);
    if instr.payload.arg1.None? {
      JumpAtIff(tokens, pos, instr.opcode, instr.offset, instr.payload.arg0, next);
    } else {
      PairAtIff(tokens, pos + 1, Written(instr)[0], Written(instr)[1], next);
    }
  }

  lemma CallInstructionAtIff(tokens: seq<Token>, pos: nat, instr: Instruction, next: nat)
    requires instr.opcode == OpCall && instr.payload.CallTo?
    requires pos < |tokens| && tokens[pos].kind == MnCall
    ensures InstructionAt(tokens, pos, instr.offset) == Ok(instr, next)
            <==> next == pos + 4 <= |tokens| && CallReads(tokens, pos + 1, instr.payload.callee)
  {
    CallAtIff(tokens, pos, instr.offset, instr.payload.callee, next);
  }

  /** What an instruction that was parsed looks like. */
  lemma ParsedShape(tokens: seq<Token>, pos: nat, offset: int)
    requires InstructionAt(tokens, pos, offset).Ok?
    ensures var instr := InstructionAt(tokens, pos, offset).value;
            && pos < |tokens| && WellShaped(instr) && instr.offset == offset
            && tokens[pos].kind == MnemonicToken(instr.opcode)
  {
    var instr := InstructionAt(tokens, pos, offset).value;
    DispatchIff(tokens[pos].kind, instr.opcode);
  }

  /** The parser accepts an instruction exactly if the tokens spell it. */
  lemma InstructionAtIff(tokens: seq<Token>, pos: nat, offset: int, instr: Instruction, next: nat)
    ensures InstructionAt(tokens, pos, offset) == Ok(instr, next)
            <==> instr.offset == offset && next == pos + 1 + PayloadSize(instr) && InstructionReads(tokens, pos, instr)
  {
    if InstructionAt(tokens, pos, offset) == Ok(instr, next) {
      ParsedShape(tokens, pos, offset);
    }
    if instr.offset == offset && pos < |tokens| && WellShaped(instr)
       && tokens[pos].kind == MnemonicToken(instr.opcode) {
      if instr.payload.CallTo? {
        CallInstructionAtIff(tokens, pos, instr, next);
      } else {
        OperationAtIff(tokens, pos, instr, next);
      }
    }
  }

  // --------------------------------------------------------------- programs

  function Length(instr: Instruction): nat {
    1 + PayloadSize(instr)
  }

  type SpelledBy = (nat, Instruction) -> bool

  /** `read` accepts exactly what `spells` says: an instruction of a given length, with the
      requested number. */
  ghost predicate Accepts(read: Reader, spells: SpelledBy, length: Instruction -> nat) {
    && (forall pos: nat, offset: nat :: read(pos, offset).Ok? ==>
          var instr := read(pos, offset).value;
          spells(pos, instr) && instr.offset == offset && read(pos, offset).next == pos + length(instr))
    && forall pos: nat, instr: Instruction :: spells(pos, instr) && instr.offset >= 0 ==>
         read(pos, instr.offset) == Ok(instr, pos + length(instr))
  }

  function ManyLength(length: Instruction -> nat, program: seq<Instruction>): nat {
    if program == [] then 0 else length(program[0]) + ManyLength(length, program[1..])
  }

  ghost predicate ManyRead(spells: SpelledBy, length: Instruction -> nat, pos: nat, program: seq<Instruction>,
        offset: nat)
    decreases |program|
  {
    program != [] ==>
      && spells(pos, program[0]) && program[0].offset == offset
      && ManyRead(spells, length, pos + length(program[0]), program[1..], offset + 1)
  }

  lemma {:induction false} ManyParses(read: Reader, spells: SpelledBy, length: Instruction -> nat,
                                      pos: nat, program: seq<Instruction>, offset: nat)
    requires Accepts(read, spells, length) && ManyRead(spells, length, pos, program, offset)
    ensures ManyAt(read, pos, offset, |program|) == Ok(program, pos + ManyLength(length, program))
    decreases |program|
  {
    if program == [] {
    } else {
      ManyParses(read, spells, length, pos + length(program[0]), program[1..], offset + 1);
      assert [program[0]] + program[1..] == program;
    }
  }

  lemma {:induction false} ManyParsed(read: Reader, spells: SpelledBy, length: Instruction -> nat,
                                      pos: nat, program: seq<Instruction>, offset: nat, n: nat, end: nat)
    requires Accepts(read, spells, length) && ManyAt(read, pos, offset, n) == Ok(program, end)
    ensures |program| == n && end == pos + ManyLength(length, program)
    ensures ManyRead(spells, length, pos, program, offset)
    decreases n
  {
    if n == 0 {
    } else {
      var first := read(pos, offset);
      ManyParsed(read, spells, length, first.next, program[1..], offset + 1, n - 1, end);
    }
  }

  /** If more instructions are expected than there are, parsing fails where the next one
      fails. */
  lemma {:induction false} ManyFails(read: Reader, spells: SpelledBy, length: Instruction -> nat,
                                     pos: nat, program: seq<Instruction>, offset: nat, n: nat,
                                     at: nat, line: nat, error: ParseError)
    requires Accepts(read, spells, length) && ManyRead(spells, length, pos, program, offset) && n > |program|
    requires at == pos + ManyLength(length, program) && line == offset + |program| && read(at, line) == Err(error)
    ensures ManyAt(read, pos, offset, n) == Err(error)
    decreases |program|
  {
    if program == [] {
    } else {
      ManyFails(read, spells, length, pos + length(program[0]), program[1..], offset + 1, n - 1, at, line, error);
    }
  }

  ghost function InstructionSpelling(tokens: seq<Token>): SpelledBy {
    (pos: nat, instr: Instruction) => InstructionReads(tokens, pos, instr)
  }

  lemma ReaderAccepts(tokens: seq<Token>)
    ensures Accepts(InstructionReader(tokens), InstructionSpelling(tokens), Length)
  {
    var read, spells := InstructionReader(tokens), InstructionSpelling(tokens);
    forall pos: nat, offset: nat | read(pos, offset).Ok?
      ensures var instr := read(pos, offset).value;
              spells(pos, instr) && instr.offset == offset && read(pos, offset).next == pos + Length(instr)
    {
      var parsed := read(pos, offset);
      InstructionAtIff(tokens, pos, offset, parsed.value, parsed.next);
    }
    forall pos: nat, instr: Instruction | spells(pos, instr) && instr.offset >= 0
      ensures read(pos, instr.offset) == Ok(instr, pos + Length(instr))
    {
      InstructionAtIff(tokens, pos, instr.offset, instr, pos + Length(instr));
    }
  }

  function ProgramLength(program: seq<Instruction>): nat {
    ManyLength(Length, program)
  }

  /** The tokens from the start spell the program, numbered from 0. */
  ghost predicate ProgramReads(tokens: seq<Token>, program: seq<Instruction>) {
    ManyRead(InstructionSpelling(tokens), Length, 0, program, 0)
  }

  /** The parser accepts a program exactly if the tokens spell it. */
  lemma ProgramAtIff(tokens: seq<Token>, n: nat, program: seq<Instruction>, end: nat)
    ensures ProgramAt(tokens, n) == Ok(program, end)
            <==> |program| == n && end == ProgramLength(program) && ProgramReads(tokens, program)
  {
    var read, spells := InstructionReader(tokens), InstructionSpelling(tokens);
    ReaderAccepts(tokens);
    if ProgramAt(tokens, n) == Ok(program, end) {
      ManyParsed(read, spells, Length, 0, program, 0, n, end);
    } else if ProgramReads(tokens, program) {
      ManyParses(read, spells, Length, 0, program, 0);
    }
  }

  /** If more instructions are expected than the tokens spell, the parser fails where the
      next one fails. */
  lemma ParserFailsBehind(tokens: seq<Token>, n: nat, program: seq<Instruction>, at: nat, error: ParseError)
    requires ProgramReads(tokens, program) && n > |program|
    requires at == ProgramLength(program) && InstructionAt(tokens, at, |program|) == Err(error)
    ensures ProgramAt(tokens, n) == Err(error)
  {
    ReaderAccepts(tokens);
    ManyFails(InstructionReader(tokens), InstructionSpelling(tokens), Length, 0, program, 0, n, at, |program|, error);
  }
}
