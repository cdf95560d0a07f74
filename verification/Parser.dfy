/** The recursive-descent parser for WeeperVM assembly. */
module Parser {
  import opened Asm
  import opened Tokens

  datatype ParseError = SyntaxError | WrongOperand | NoMnemonic | UnknownFunction | NoMoreTokens

  datatype Parsed<+T> = Ok(value: T, next: nat) | Err(error: ParseError)

  datatype Outcome<+T> = Success(result: T) | Failure(reason: ParseError)

  // ------------------------------------------------------------- mnemonics

  /** The operations that the dispatch table knows; `mul` is not among them. */
  function BinaryOpcode(kind: TokenKind): (r: Option<Opcode>)
    ensures r.Some? ==> IsBinary(r.value)
  {
    match kind
    case MnMov => Some(OpMov)
    case MnMovb => Some(OpMovb)
    case MnCmp => Some(OpCmp)
    case MnAdd => Some(OpAdd)
    case MnSub => Some(OpSub)
    case MnXor => Some(OpXor)
    case MnAnd => Some(OpAnd)
    case MnShl => Some(OpShl)
    case MnShr => Some(OpShr)
    case MnOr => Some(OpOr)
    case MnRem => Some(OpRem)
    case _ => None
  }

  /** The jumps. The program stores the token number as the opcode, which works because
      the five jumps have the same numbers in both enumerations. */
  function JumpOpcode(kind: TokenKind): (r: Option<Opcode>)
    ensures r.Some? ==> r.value == OpJmp || IsCondJump(r.value)
  {
    match kind
    case MnJnz => Some(OpJnz)
    case MnJa => Some(OpJa)
    case MnJe => Some(OpJe)
    case MnJl => Some(OpJl)
    case MnJmp => Some(OpJmp)
    case _ => None
  }

  // --------------------------------------------------------- specification

  /** Expects a token of the given kind. */
  function ExpectAt(tokens: seq<Token>, pos: nat, kind: TokenKind): (r: Parsed<Token>)
    ensures r.Ok? ==> r.next == pos + 1 <= |tokens|
  {
    if pos >= |tokens| then Err(NoMoreTokens)
    else if tokens[pos].kind != kind then Err(SyntaxError)
    else Ok(tokens[pos], pos + 1)
  }

  function OperandAt(tokens: seq<Token>, pos: nat): (r: Parsed<Operand>)
    ensures r.Ok? ==> pos < r.next <= |tokens|
    decreases |tokens| - pos
  {
    if pos >= |tokens| then Err(NoMoreTokens)
    else match tokens[pos].kind
      case TkImmediate => Ok(Imm(tokens[pos].number), pos + 1)
      case TkRegister => BracketedAt(tokens, pos, false)
      case TkMemory => BracketedAt(tokens, pos, true)
      case TkFlag => Ok(Flags, pos + 1)
      case _ => Err(WrongOperand)
  }

  /** The bracketed index after `reg` or `mem`. */
  function BracketedAt(tokens: seq<Token>, pos: nat, memory: bool): (r: Parsed<Operand>)
    requires pos < |tokens|
    ensures r.Ok? ==> pos < r.next <= |tokens|
    decreases |tokens| - pos, 0
  {
    match ExpectAt(tokens, pos + 1, TkLeftBracket)
    case Err(e) => Err(e)
    case Ok(_, inside) =>
      match OperandAt(tokens, inside)
      case Err(e) => Err(e)
      case Ok(index, after) =>
        match ExpectAt(tokens, after, TkRightBracket)
        case Err(e) => Err(e)
        case Ok(_, next) => Ok(if memory then Mem(index) else Reg(index), next)
  }

  /** Two operands with a comma between them. */
  function PairAt(tokens: seq<Token>, pos: nat): (r: Parsed<(Operand, Operand)>)
    ensures r.Ok? ==> pos < r.next <= |tokens|
  {
    match OperandAt(tokens, pos)
    case Err(e) => Err(e)
    case Ok(first, comma) =>
      match ExpectAt(tokens, comma, TkComma)
      case Err(e) => Err(e)
      case Ok(_, after) =>
        match OperandAt(tokens, after)
        case Err(e) => Err(e)
        case Ok(second, next) => Ok((first, second), next)
  }

  function BinaryAt(tokens: seq<Token>, pos: nat, opcode: Opcode, offset: int): (r: Parsed<Instruction>)
    requires pos < |tokens|
    ensures r.Ok? ==> pos < r.next <= |tokens|
  {
    match PairAt(tokens, pos + 1)
    case Err(e) => Err(e)
    case Ok(args, next) => Ok(Instruction(opcode, Operation(args.0, Some(args.1)), offset), next)
  }

  /** A jump on a condition value is written value first, address second; the address
      is stored first. */
  function JumpAt(tokens: seq<Token>, pos: nat, opcode: Opcode, offset: int): (r: Parsed<Instruction>)
    requires pos < |tokens|
    ensures r.Ok? ==> pos < r.next <= |tokens|
  {
    if opcode == OpJnz then
      match PairAt(tokens, pos + 1)
      case Err(e) => Err(e)
      case Ok(args, next) => Ok(Instruction(opcode, Operation(args.1, Some(args.0)), offset), next)
    else
      match OperandAt(tokens, pos + 1)
      case Err(e) => Err(e)
      case Ok(address, next) => Ok(Instruction(opcode, Operation(address, None), offset), next)
  }

  function CallAt(tokens: seq<Token>, pos: nat, offset: int): (r: Parsed<Instruction>)
    requires pos < |tokens|
    ensures r.Ok? ==> pos < r.next <= |tokens|
  {
    if pos + 1 >= |tokens| then Err(NoMoreTokens)
    else if !(tokens[pos + 1].kind in {FuncPutchar, FuncRead}) then Err(UnknownFunction)
    else
      var callee := if tokens[pos + 1].kind == FuncPutchar then Putchar else Read;
      match ExpectAt(tokens, pos + 2, TkLeftParen)
      case Err(e) => Err(e)
      case Ok(_, right) =>
        match ExpectAt(tokens, right, TkRightParen)
        case Err(e) => Err(e)
        case Ok(_, next) => Ok(Instruction(OpCall, CallTo(callee), offset), next)
  }

  function InstructionAt(tokens: seq<Token>, pos: nat, offset: int): (r: Parsed<Instruction>)
    ensures r.Ok? ==> pos < r.next <= |tokens|
  {
    if pos >= |tokens| then Err(NoMoreTokens)
    else
      var kind := tokens[pos].kind;
      match BinaryOpcode(kind)
      case Some(opcode) => BinaryAt(tokens, pos, opcode, offset)
      case None =>
        match JumpOpcode(kind)
        case Some(opcode) => JumpAt(tokens, pos, opcode, offset)
        case None => if kind == MnCall then CallAt(tokens, pos, offset) else Err(NoMnemonic)
  }

  type Reader = (nat, nat) -> Parsed<Instruction>

  /** `n` instructions one behind the other, numbered from `offset`; `read` reads the one
      at a position, with a number. */
  function ManyAt(read: Reader, pos: nat, offset: nat, n: nat): (r: Parsed<seq<Instruction>>)
    ensures r.Ok? ==> |r.value| == n
    decreases n
  {
    if n == 0 then Ok([], pos)
    else
      match read(pos, offset)
      case Err(e) => Err(e)
      case Ok(first, next) =>
        match ManyAt(read, next, offset + 1, n - 1)
        case Err(e) => Err(e)
        case Ok(rest, end) => Ok([first] + rest, end)
  }

  function InstructionReader(tokens: seq<Token>): Reader {
    (pos: nat, offset: nat) => InstructionAt(tokens, pos, offset)
  }

  /** A program of `n` instructions, numbered from 0. */
  function ProgramAt(tokens: seq<Token>, n: nat): (r: Parsed<seq<Instruction>>)
    ensures r.Ok? ==> |r.value| == n
  {
    ManyAt(InstructionReader(tokens), 0, 0, n)
  }

  // ---------------------------------------------------------------- methods

  /** The effect of a parsing method: it yields the specified value and moves the cursor
      behind what it read, or it fails with the specified error. */
  ghost predicate Yields<T>(outcome: Outcome<T>, cursor: nat, expected: Parsed<T>) {
    match expected
    case Ok(value, next) => outcome == Success(value) && cursor == next
    case Err(e) => outcome == Failure(e)
  }

  method ExpectToken(list: TokenList, kind: TokenKind) returns (outcome: Outcome<Token>)
    requires list.Valid()
    modifies list`tokenIndex
    ensures Yields(outcome, list.tokenIndex, ExpectAt(list.tokens[..], old(list.tokenIndex), kind))
  {
    if list.tokenIndex >= list.nbTokens {
      return Failure(NoMoreTokens);
    }
    var token := list.tokens[list.tokenIndex];
    if token.kind != kind {
      return Failure(SyntaxError);
    }
    list.tokenIndex := list.tokenIndex + 1;
    return Success(token);
  }

  method ParseOperand(list: TokenList) returns (outcome: Outcome<Operand>)
    requires list.Valid()
    modifies list`tokenIndex
    ensures Yields(outcome, list.tokenIndex, OperandAt(list.tokens[..], old(list.tokenIndex)))
    decreases list.nbTokens - list.tokenIndex, 1
  {
    if list.tokenIndex >= list.nbTokens {
      return Failure(NoMoreTokens);
    }
    var token := list.tokens[list.tokenIndex];
    if token.kind == TkImmediate {
      list.tokenIndex := list.tokenIndex + 1;
      return Success(Imm(token.number));
    } else if token.kind == TkRegister {
      outcome := ParseBracketed(list, false);
    } else if token.kind == TkMemory {
      outcome := ParseBracketed(list, true);
    } else if token.kind == TkFlag {
      list.tokenIndex := list.tokenIndex + 1;
      return Success(Flags);
    } else {
      return Failure(WrongOperand);
    }
  }

  /** The bracketed index of a register or memory operand. */
  method ParseBracketed(list: TokenList, memory: bool) returns (outcome: Outcome<Operand>)
    requires list.Valid() && list.tokenIndex < list.nbTokens
    modifies list`tokenIndex
    ensures Yields(outcome, list.tokenIndex, BracketedAt(list.tokens[..], old(list.tokenIndex), memory))
    decreases list.nbTokens - list.tokenIndex, 0
  {
    list.tokenIndex := list.tokenIndex + 1;
    var bracket := ExpectToken(list, TkLeftBracket);
    if bracket.Failure? {
      return Failure(bracket.reason);
    }
    var index := ParseOperand(list);
    if index.Failure? {
      return index;
    }
    bracket := ExpectToken(list, TkRightBracket);
    if bracket.Failure? {
      return Failure(bracket.reason);
    }
    return Success(if memory then Mem(index.result) else Reg(index.result));
  }

  method ParseOp(list: TokenList, opcode: Opcode, offset: int) returns (outcome: Outcome<Instruction>)
    requires list.Valid() && list.tokenIndex < list.nbTokens
    modifies list`tokenIndex
    ensures Yields(outcome, list.tokenIndex, BinaryAt(list.tokens[..], old(list.tokenIndex), opcode, offset))
  {
    list.tokenIndex := list.tokenIndex + 1;
    var arg0 := ParseOperand(list);
    if arg0.Failure? {
      return Failure(arg0.reason);
    }
    var comma := ExpectToken(list, TkComma);
    if comma.Failure? {
      return Failure(comma.reason);
    }
    var arg1 := ParseOperand(list);
    if arg1.Failure? {
      return Failure(arg1.reason);
    }
    return Success(Instruction(opcode, Operation(arg0.result, Some(arg1.result)), offset));
  }

  method ParseJmp(list: TokenList, opcode: Opcode, offset: int) returns (outcome: Outcome<Instruction>)
    requires list.Valid() && list.tokenIndex < list.nbTokens
    modifies list`tokenIndex
    ensures Yields(outcome, list.tokenIndex, JumpAt(list.tokens[..], old(list.tokenIndex), opcode, offset))
  {
    list.tokenIndex := list.tokenIndex + 1;
    var address := ParseOperand(list);
    if address.Failure? {
      return Failure(address.reason);
    }
    if opcode == OpJnz {
      var comma := ExpectToken(list, TkComma);
      if comma.Failure? {
        return Failure(comma.reason);
      }
      var arg0 := ParseOperand(list);
      if arg0.Failure? {
        return Failure(arg0.reason);
      }
      return Success(Instruction(opcode, Operation(arg0.result, Some(address.result)), offset));
    }
    return Success(Instruction(opcode, Operation(address.result, None), offset));
  }

  method ParseCall(list: TokenList, offset: int) returns (outcome: Outcome<Instruction>)
    requires list.Valid() && list.tokenIndex < list.nbTokens
    modifies list`tokenIndex
    ensures Yields(outcome, list.tokenIndex, CallAt(list.tokens[..], old(list.tokenIndex), offset))
  {
    list.tokenIndex := list.tokenIndex + 1;
    if list.tokenIndex >= list.nbTokens {
      return Failure(NoMoreTokens);
    }
    var token := list.tokens[list.tokenIndex];
    if token.kind != FuncPutchar && token.kind != FuncRead {
      return Failure(UnknownFunction);
    }
    list.tokenIndex := list.tokenIndex + 1;
    var paren := ExpectToken(list, TkLeftParen);
    if paren.Failure? {
      return Failure(paren.reason);
    }
    paren := ExpectToken(list, TkRightParen);
    if paren.Failure? {
      return Failure(paren.reason);
    }
    return Success(Instruction(OpCall, CallTo(if token.kind == FuncPutchar then Putchar else Read), offset));
  }

  method ParseInstruction(list: TokenList, offset: int) returns (outcome: Outcome<Instruction>)
    requires list.Valid()
    modifies list`tokenIndex
    ensures Yields(outcome, list.tokenIndex, InstructionAt(list.tokens[..], old(list.tokenIndex), offset))
  {
    if list.tokenIndex >= list.nbTokens {
      return Failure(NoMoreTokens);
    }
    var kind := list.tokens[list.tokenIndex].kind;
    var binary := BinaryOpcode(kind);
    var jump := JumpOpcode(kind);
    if binary.Some? {
      outcome := ParseOp(list, binary.value, offset);
    } else if jump.Some? {
      outcome := ParseJmp(list, jump.value, offset);
    } else if kind == MnCall {
      outcome := ParseCall(list, offset);
    } else {
      outcome := Failure(NoMnemonic);
    }
  }

  /** The instructions parsed so far, followed by the rest. */
  ghost function After(done: seq<Instruction>, rest: Parsed<seq<Instruction>>): Parsed<seq<Instruction>> {
    match rest
    case Err(e) => Err(e)
    case Ok(tail, end) => Ok(done + tail, end)
  }

  lemma AfterNothing(rest: Parsed<seq<Instruction>>)
    ensures After([], rest) == rest
  {
    if rest.Ok? {
      assert [] + rest.value == rest.value;
    }
  }

  lemma {:induction false} AfterOne(read: Reader, done: seq<Instruction>, pos: nat, offset: nat, n: nat)
    requires n > 0
    ensures After(done, ManyAt(read, pos, offset, n)) ==
            match read(pos, offset)
            case Err(e) => Err(e)
            case Ok(first, next) => After(done + [first], ManyAt(read, next, offset + 1, n - 1))
  {
    match read(pos, offset)
    case Err(e) =>
    case Ok(first, next) =>
      var tail := ManyAt(read, next, offset + 1, n - 1);
      if tail.Ok? {
        assert done + ([first] + tail.value) == done + [first] + tail.value;
      }
  }

  /** The parsing loop before instruction `offset`, at position `pos`: what remains
      decides the outcome for the whole program. */
  ghost predicate Parsing(whole: Parsed<seq<Instruction>>, read: Reader, n: nat, done: seq<Instruction>,
                          pos: nat, offset: nat)
  {
    offset <= n && whole == After(done, ManyAt(read, pos, offset, n - offset))
  }

  lemma ParsingRound(whole: Parsed<seq<Instruction>>, read: Reader, n: nat, done: seq<Instruction>,
                     pos: nat, offset: nat)
    requires Parsing(whole, read, n, done, pos, offset) && offset < n
    ensures match read(pos, offset)
            case Err(e) => whole == Err(e)
            case Ok(first, next) => Parsing(whole, read, n, done + [first], next, offset + 1)
  {
    AfterOne(read, done, pos, offset, n - offset);
  }

  lemma ParsingStart(tokens: seq<Token>, n: nat)
    ensures Parsing(ProgramAt(tokens, n), InstructionReader(tokens), n, [], 0, 0)
  {
    AfterNothing(ProgramAt(tokens, n));
  }

  lemma ParsingEnd(whole: Parsed<seq<Instruction>>, read: Reader, n: nat, done: seq<Instruction>, pos: nat)
    requires Parsing(whole, read, n, done, pos, n)
    ensures whole == Ok(done, pos)
  {
    assert done + [] == done;
  }

  method ParseNext(list: TokenList, offset: nat, ghost read: Reader) returns (outcome: Outcome<Instruction>)
    requires list.Valid() && read == InstructionReader(list.tokens[..])
    modifies list`tokenIndex
    ensures Yields(outcome, list.tokenIndex, read(old(list.tokenIndex), offset))
  {
    outcome := ParseInstruction(list, offset);
  }

  /** Parses as many instructions as the lexer counted lines. */
  method ParseAsm(list: TokenList, nbInstructions: nat) returns (outcome: Outcome<seq<Instruction>>)
    requires list.Valid()
    modifies list`tokenIndex
    ensures Yields(outcome, list.tokenIndex, ProgramAt(list.tokens[..], nbInstructions))
  {
    list.tokenIndex := 0;
    var instructions: seq<Instruction> := [];
    ghost var tokens, pos := list.tokens[..], 0;
    ghost var read, whole := InstructionReader(tokens), ProgramAt(tokens, nbInstructions);
    ParsingStart(tokens, nbInstructions);
    for offset := 0 to nbInstructions
      invariant list.tokens[..] == tokens && list.tokenIndex == pos
      invariant Parsing(whole, read, nbInstructions, instructions, pos, offset)
    {
      ParsingRound(whole, read, nbInstructions, instructions, pos, offset);
      var instruction := ParseNext(list, offset, read);
      if instruction.Failure? {
        return Failure(instruction.reason);
      }
      instructions := instructions + [instruction.result];
      pos := list.tokenIndex;
    }
    ParsingEnd(whole, read, nbInstructions, instructions, pos);
    return Success(instructions);
  }
}
