/** The tokens and the text of a program. */
module Rendering {
  import opened Asm
  import opened Tokens
  import opened Lexer
  import opened Spellings
  import opened Layout
  import opened Grammar

  // -------------------------------------------------------------- programs

  /** Immediates are the numbers that the lexer can read. */
  predicate Printable(operand: Operand) {
    match operand
    case Imm(value) => 0 <= value < INT_LIMIT
    case Reg(index) => Printable(index)
    case Mem(index) => Printable(index)
    case Flags => true
  }

  predicate PrintableInstruction(instr: Instruction) {
    && WellShaped(instr)
    && match instr.payload
       case CallTo(_) => true
       case Operation(arg0, arg1) => Printable(arg0) && (arg1.Some? ==> Printable(arg1.value))
  }

  /** Instructions are numbered from `offset`. */
  ghost predicate PrintableProgram(program: seq<Instruction>, offset: nat) {
    forall i :: 0 <= i < |program| ==> PrintableInstruction(program[i]) && program[i].offset == offset + i
  }

  // ---------------------------------------------------------------- tokens

  function OperandTokens(operand: Operand): seq<Token>
    decreases operand, 0
  {
    match operand
    case Imm(value) => [Token(TkImmediate, value)]
    case Reg(index) => [Token(TkRegister, 0)] + BracketTokens(index)
    case Mem(index) => [Token(TkMemory, 0)] + BracketTokens(index)
    case Flags => [Token(TkFlag, 0)]
  }

  function BracketTokens(index: Operand): seq<Token>
    decreases index, 1
  {
    [Token(TkLeftBracket, 0)] + (OperandTokens(index) + [Token(TkRightBracket, 0)])
  }

  function ArgumentTokens(operands: seq<Operand>): seq<Token>
    requires 1 <= |operands| <= 2
  {
    if |operands| == 1 then OperandTokens(operands[0])
    else OperandTokens(operands[0]) + ([Token(TkComma, 0)] + OperandTokens(operands[1]))
  }

  function CallTokens(callee: Callee): seq<Token> {
    [Token(CalleeToken(callee), 0)] + ([Token(TkLeftParen, 0)] + [Token(TkRightParen, 0)])
  }

  function PayloadTokens(instr: Instruction): seq<Token> {
    match instr.payload
    case CallTo(callee) => CallTokens(callee)
    case Operation(_, _) => ArgumentTokens(Written(instr))
  }

  function InstructionTokens(instr: Instruction): (tokens: seq<Token>)
    ensures |tokens| > 0
  {
    [Token(MnemonicToken(instr.opcode), 0)] + PayloadTokens(instr)
  }

  type TokenRendering = Instruction -> seq<Token>

  /** The renderings of all instructions, one behind the other. */
  function Flatten(render: TokenRendering, program: seq<Instruction>): seq<Token> {
    if program == [] then [] else render(program[0]) + Flatten(render, program[1..])
  }

  function ProgramTokens(program: seq<Instruction>): seq<Token> {
    Flatten(InstructionTokens, program)
  }

  // ------------------------------------------------- tokens in the buffer

  /** `part` stands in the buffer at position `pos`. */
  ghost predicate At(tokens: seq<Token>, pos: nat, part: seq<Token>) {
    pos + |part| <= |tokens| && tokens[pos..pos + |part|] == part
  }

  lemma AtSplit(tokens: seq<Token>, pos: nat, a: seq<Token>, b: seq<Token>)
    requires At(tokens, pos, a + b)
    ensures At(tokens, pos, a) && At(tokens, pos + |a|, b)
  {
    var both := tokens[pos..pos + |a + b|];
    assert tokens[pos..pos + |a|] == both[..|a|] == a;
    assert tokens[pos + |a|..pos + |a| + |b|] == both[|a|..] == b;
  }

  lemma AtOne(tokens: seq<Token>, pos: nat, token: Token)
    requires At(tokens, pos, [token])
    ensures pos < |tokens| && tokens[pos] == token
  {
    assert tokens[pos..pos + 1][0] == token;
  }

  lemma AtFirst(tokens: seq<Token>, pos: nat, token: Token, rest: seq<Token>)
    requires At(tokens, pos, [token] + rest)
    ensures pos < |tokens| && tokens[pos] == token && At(tokens, pos + 1, rest)
  {
    AtSplit(tokens, pos, [token], rest);
    AtOne(tokens, pos, token);
  }

  lemma AtSeparated(tokens: seq<Token>, pos: nat, a: seq<Token>, separator: Token, b: seq<Token>)
    requires At(tokens, pos, a + ([separator] + b))
    ensures At(tokens, pos, a) && At(tokens, pos + |a| + 1, b)
    ensures pos + |a| < |tokens| && tokens[pos + |a|] == separator
  {
    AtSplit(tokens, pos, a, [separator] + b);
    AtFirst(tokens, pos + |a|, separator, b);
  }

  lemma AtLast(tokens: seq<Token>, pos: nat, part: seq<Token>, token: Token)
    requires At(tokens, pos, part + [token])
    ensures At(tokens, pos, part) && pos + |part| < |tokens| && tokens[pos + |part|] == token
  {
    AtSplit(tokens, pos, part, [token]);
    AtOne(tokens, pos + |part|, token);
  }

  // ------------------------------------------------- the tokens are grammatical

  lemma {:induction false} OperandTokensRead(operand: Operand, tokens: seq<Token>, pos: nat)
    requires At(tokens, pos, OperandTokens(operand))
    ensures |OperandTokens(operand)| == Size(operand) && OperandReads(tokens, pos, operand)
    decreases operand, 0
  {
    match operand
    case Imm(value) => AtOne(tokens, pos, Token(TkImmediate, value));
    case Reg(index) => BracketTokensRead(index, tokens, pos, Token(TkRegister, 0));
    case Mem(index) => BracketTokensRead(index, tokens, pos, Token(TkMemory, 0));
    case Flags => AtOne(tokens, pos, Token(TkFlag, 0));
  }

  lemma {:induction false} BracketTokensRead(index: Operand, tokens: seq<Token>, pos: nat, head: Token)
    requires At(tokens, pos, [head] + BracketTokens(index))
    ensures |BracketTokens(index)| == Size(index) + 2 && pos + Size(index) + 3 <= |tokens|
    ensures tokens[pos] == head && BracketReads(tokens, pos + 1, index)
    decreases index, 1
  {
    var close := Token(TkRightBracket, 0);
    AtFirst(tokens, pos, head, BracketTokens(index));
    AtFirst(tokens, pos + 1, Token(TkLeftBracket, 0), OperandTokens(index) + [close]);
    AtLast(tokens, pos + 2, OperandTokens(index), close);
    OperandTokensRead(index, tokens, pos + 2);
  }

  lemma ArgumentTokensRead(operands: seq<Operand>, tokens: seq<Token>, pos: nat)
    requires 1 <= |operands| <= 2 && At(tokens, pos, ArgumentTokens(operands))
    ensures |ArgumentTokens(operands)| == ArgumentsSize(operands) && pos + ArgumentsSize(operands) <= |tokens|
    ensures ArgumentsRead(tokens, pos, operands)
  {
    if |operands| == 1 {
      OperandTokensRead(operands[0], tokens, pos);
    } else {
      PairTokensRead(operands[0], operands[1], tokens, pos);
    }
  }

  lemma {:induction false} PairTokensRead(a: Operand, b: Operand, tokens: seq<Token>, pos: nat)
    requires At(tokens, pos, OperandTokens(a) + ([Token(TkComma, 0)] + OperandTokens(b)))
    ensures |OperandTokens(a)| == Size(a) && OperandReads(tokens, pos, a)
    ensures pos + Size(a) < |tokens| && tokens[pos + Size(a)].kind == TkComma
    ensures |OperandTokens(b)| == Size(b) && OperandReads(tokens, pos + Size(a) + 1, b)
  {
    AtSeparated(tokens, pos, OperandTokens(a), Token(TkComma, 0), OperandTokens(b));
    OperandTokensRead(a, tokens, pos);
    OperandTokensRead(b, tokens, pos + Size(a) + 1);
  }

  lemma CallTokensRead(callee: Callee, tokens: seq<Token>, pos: nat)
    requires At(tokens, pos, CallTokens(callee))
    ensures pos + 3 <= |tokens| && CallReads(tokens, pos, callee)
  {
    AtFirst(tokens, pos, Token(CalleeToken(callee), 0), [Token(TkLeftParen, 0)] + [Token(TkRightParen, 0)]);
    AtFirst(tokens, pos + 1, Token(TkLeftParen, 0), [Token(TkRightParen, 0)]);
    AtOne(tokens, pos + 2, Token(TkRightParen, 0));
  }

  lemma InstructionTokensRead(instr: Instruction, tokens: seq<Token>, pos: nat)
    requires WellShaped(instr) && At(tokens, pos, InstructionTokens(instr))
    ensures |InstructionTokens(instr)| == Length(instr) && InstructionReads(tokens, pos, instr)
  {
    AtFirst(tokens, pos, Token(MnemonicToken(instr.opcode), 0), PayloadTokens(instr));
    match instr.payload
    case CallTo(callee) => CallTokensRead(callee, tokens, pos + 1);
    case Operation(_, _) => ArgumentTokensRead(Written(instr), tokens, pos + 1);
  }

  /** Wherever the rendering of the instruction stands, it spells the instruction. */
  ghost predicate Spelled(spells: SpelledBy, length: Instruction -> nat, render: TokenRendering, tokens: seq<Token>,
                          instr: Instruction)
  {
    forall pos: nat :: At(tokens, pos, render(instr)) ==> spells(pos, instr) && |render(instr)| == length(instr)
  }

  lemma {:induction false} FlattenReads(spells: SpelledBy, length: Instruction -> nat, render: TokenRendering,
                                        tokens: seq<Token>, pos: nat, program: seq<Instruction>, offset: nat)
    requires forall i :: 0 <= i < |program| ==>
               Spelled(spells, length, render, tokens, program[i]) && program[i].offset == offset + i
    requires At(tokens, pos, Flatten(render, program))
    ensures |Flatten(render, program)| == ManyLength(length, program)
    ensures ManyRead(spells, length, pos, program, offset)
    decreases |program|
  {
    if program == [] {
    } else {
      AtSplit(tokens, pos, render(program[0]), Flatten(render, program[1..]));
      assert Spelled(spells, length, render, tokens, program[0]);
      FlattenReads(spells, length, render, tokens, pos + length(program[0]), program[1..], offset + 1);
    }
  }

  lemma InstructionSpelled(instr: Instruction, tokens: seq<Token>)
    requires WellShaped(instr)
    ensures Spelled(InstructionSpelling(tokens), Length, InstructionTokens, tokens, instr)
  {
    forall pos: nat | At(tokens, pos, InstructionTokens(instr))
      ensures InstructionSpelling(tokens)(pos, instr) && |InstructionTokens(instr)| == Length(instr)
    {
      InstructionTokensRead(instr, tokens, pos);
    }
  }

  /** The tokens of a program spell it, whatever stands behind them. */
  lemma ProgramTokensRead(program: seq<Instruction>, found: seq<Token>, buffer: seq<Token>)
    requires PrintableProgram(program, 0) && found == ProgramTokens(program) && found <= buffer
    ensures |found| == ProgramLength(program) && ProgramReads(buffer, program)
  {
    assert buffer[0..0 + |found|] == found;
    forall i | 0 <= i < |program|
      ensures Spelled(InstructionSpelling(buffer), Length, InstructionTokens, buffer, program[i])
    {
      InstructionSpelled(program[i], buffer);
    }
    FlattenReads(InstructionSpelling(buffer), Length, InstructionTokens, buffer, 0, program, 0);
  }

  // ------------------------------------------------------------------ text

  function DigitChar(d: nat): (c: char)
    requires d < 10
    ensures IsDigit(c)
  {
    ('0' as int + d) as char
  }

  function Decimal(n: nat): (digits: string)
    ensures digits != [] && forall i :: 0 <= i < |digits| ==> IsDigit(digits[i])
  {
    if n < 10 then [DigitChar(n)] else Decimal(n / 10) + [DigitChar(n % 10)]
  }

  lemma {:induction false} DecimalReads(n: nat)
    ensures DecimalValue(Decimal(n)) == n
  {
    if n >= 10 {
      DecimalReads(n / 10);
      assert Decimal(n)[..|Decimal(n)| - 1] == Decimal(n / 10);
    } else {
      assert Decimal(n)[..0] == [];
    }
  }

  // ------------------------------------------------------------- rendering

  function RenderOperand(operand: Operand): string
    requires Printable(operand)
    decreases operand, 0
  {
    match operand
    case Imm(value) => Decimal(value)
    case Reg(index) => Spelling(TkRegister) + RenderBracketed(index)
    case Mem(index) => Spelling(TkMemory) + RenderBracketed(index)
    case Flags => Spelling(TkFlag)
  }

  function RenderBracketed(index: Operand): string
    requires Printable(index)
    decreases index, 1
  {
    "[" + (RenderOperand(index) + "]")
  }

  function RenderArguments(operands: seq<Operand>): string
    requires 1 <= |operands| <= 2 && forall i :: 0 <= i < |operands| ==> Printable(operands[i])
  {
    if |operands| == 1 then RenderOperand(operands[0])
    else RenderOperand(operands[0]) + ("," + (" " + RenderOperand(operands[1])))
  }

  function RenderPayload(instr: Instruction): string
    requires PrintableInstruction(instr)
  {
    match instr.payload
    case CallTo(callee) => Spelling(CalleeToken(callee)) + ("(" + ")")
    case Operation(_, _) => RenderArguments(Written(instr))
  }

  function RenderInstruction(instr: Instruction): string
    requires PrintableInstruction(instr)
  {
    Spelling(MnemonicToken(instr.opcode)) + (" " + RenderPayload(instr))
  }

  function Newlines(k: nat): string {
    seq(k, _ => '\n')
  }

  /** One instruction per line, with `k` newlines behind the last one. */
  function Render(program: seq<Instruction>, k: nat): string
    requires program != [] && forall i :: 0 <= i < |program| ==> PrintableInstruction(program[i])
  {
    if |program| == 1 then RenderInstruction(program[0]) + Newlines(k)
    else RenderInstruction(program[0]) + ("\n" + Render(program[1..], k))
  }
}
