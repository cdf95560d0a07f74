/** Rendering a program as text, then lexing and parsing the text, gives the program
    back. */
module RoundTrip {
  import opened Asm
  import opened Tokens
  import opened Grammar
  import opened Parser
  import opened Lexer
  import opened Spellings
  import opened Layout
  import opened Rendering

  // ---------------------------------------------------------- lexing pieces

  /** No word and no number continues into `rest`. */
  predicate Stops(rest: string) {
    rest == [] || !IsWordChar(rest[0])
  }

  // ----------------------------------------------- what a lexer has to know

  type Lexing = string -> Lexed

  /** In front of `rest`, the text `piece` gives exactly `tokens`. */
  ghost predicate Gives(lex: Lexing, piece: string, tokens: seq<Token>, rest: string) {
    lex(piece + rest) == Prepend(tokens, lex(rest))
  }

  /** A lexer for keywords, numbers, symbols, blanks and newlines. */
  ghost predicate LexesPieces(lex: Lexing) {
    && (forall kind: TokenKind, rest: string :: HasKeyword(kind) && Stops(rest) ==>
          Gives(lex, Spelling(kind), [Token(kind, 0)], rest))
    && (forall value: nat, rest: string :: value < INT_LIMIT && Stops(rest) ==>
          Gives(lex, Decimal(value), [Token(TkImmediate, value)], rest))
    && (forall c: char, rest: string :: Symbol(c).Some? ==> Gives(lex, [c], [Token(Symbol(c).value, 0)], rest))
    && (forall rest: string :: lex(" " + rest) == lex(rest))
    && (forall rest: string :: lex("\n" + rest) == Newline(lex(rest)))
    && lex("") == Lexed([], 0)
  }

  function TheLexer(): Lexing {
    (text: string) => LexFrom(text)
  }

  lemma FoundGives(piece: string, token: Token, rest: string)
    requires piece != [] && piece[0] != '\0' && piece[0] != '\n'
    requires ScanAt(piece + rest) == Found(token, |piece|)
    ensures Gives(TheLexer(), piece, [token], rest)
  {
    assert (piece + rest)[|piece|..] == rest;
  }

  lemma KeywordGives(kind: TokenKind, rest: string)
    requires HasKeyword(kind) && Stops(rest)
    ensures Gives(TheLexer(), Spelling(kind), [Token(kind, 0)], rest)
  {
    KeywordSpelling(kind);
    PieceScans(Spelling(kind), Token(kind, 0), rest);
    FoundGives(Spelling(kind), Token(kind, 0), rest);
  }

  lemma {:induction false} DecimalGives(value: nat, rest: string)
    requires value < INT_LIMIT && Stops(rest)
    ensures Gives(TheLexer(), Decimal(value), [Token(TkImmediate, value)], rest)
  {
    DecimalReads(value);
    PieceScans(Decimal(value), Token(TkImmediate, value), rest);
    FoundGives(Decimal(value), Token(TkImmediate, value), rest);
  }

  lemma SymbolGives(c: char, rest: string)
    requires Symbol(c).Some?
    ensures Gives(TheLexer(), [c], [Token(Symbol(c).value, 0)], rest)
  {
    FoundGives([c], Token(Symbol(c).value, 0), rest);
  }

  lemma BlankLexes(rest: string)
    ensures TheLexer()(" " + rest) == TheLexer()(rest)
  {
    assert (" " + rest)[1..] == rest;
  }

  lemma NewlineLexes(rest: string)
    ensures TheLexer()("\n" + rest) == Newline(TheLexer()(rest))
  {
    assert ("\n" + rest)[1..] == rest;
  }

  lemma TheLexerLexesPieces()
    ensures LexesPieces(TheLexer())
  {
    var lex := TheLexer();
    forall kind: TokenKind, rest: string | HasKeyword(kind) && Stops(rest)
      ensures Gives(lex, Spelling(kind), [Token(kind, 0)], rest)
    {
      KeywordGives(kind, rest);
    }
    forall value: nat, rest: string | value < INT_LIMIT && Stops(rest)
      ensures Gives(lex, Decimal(value), [Token(TkImmediate, value)], rest)
    {
      DecimalGives(value, rest);
    }
    forall c: char, rest: string | Symbol(c).Some?
      ensures Gives(lex, [c], [Token(Symbol(c).value, 0)], rest)
    {
      SymbolGives(c, rest);
    }
    forall rest: string
      ensures lex(" " + rest) == lex(rest) && lex("\n" + rest) == Newline(lex(rest))
    {
      BlankLexes(rest);
      NewlineLexes(rest);
    }
  }

  // -------------------------------------------------------- lexing the text

  lemma GivesJoin(lex: Lexing, a: string, s: seq<Token>, b: string, t: seq<Token>, rest: string)
    requires Gives(lex, a, s, b + rest) && Gives(lex, b, t, rest)
    ensures Gives(lex, a + b, s + t, rest)
  {
    assert a + b + rest == a + (b + rest);
    if lex(rest).Lexed? {
      assert s + (t + lex(rest).tokens) == s + t + lex(rest).tokens;
    }
  }

  lemma GivesWord(lex: Lexing, kind: TokenKind, rest: string)
    requires LexesPieces(lex) && HasKeyword(kind) && Stops(rest)
    ensures Gives(lex, Spelling(kind), [Token(kind, 0)], rest)
  {
  }

  lemma {:induction false} GivesNumber(lex: Lexing, value: nat, rest: string)
    requires LexesPieces(lex) && value < INT_LIMIT && Stops(rest)
    ensures Gives(lex, Decimal(value), [Token(TkImmediate, value)], rest)
  {
  }

  lemma GivesSymbol(lex: Lexing, c: char, rest: string)
    requires LexesPieces(lex) && Symbol(c).Some?
    ensures Gives(lex, [c], [Token(Symbol(c).value, 0)], rest)
  {
  }

  lemma GivesAfterBlank(lex: Lexing, piece: string, tokens: seq<Token>, rest: string)
    requires LexesPieces(lex) && Gives(lex, piece, tokens, rest)
    ensures Gives(lex, " " + piece, tokens, rest)
  {
    assert " " + piece + rest == " " + (piece + rest);
  }

  lemma {:induction false} GivesOperand(lex: Lexing, operand: Operand, rest: string)
    requires LexesPieces(lex) && Printable(operand) && Stops(rest)
    ensures Gives(lex, RenderOperand(operand), OperandTokens(operand), rest)
    decreases operand, 0
  {
    match operand
    case Imm(value) => GivesNumber(lex, value, rest);
    case Reg(index) => GivesBracketed(lex, TkRegister, index, rest);
    case Mem(index) => GivesBracketed(lex, TkMemory, index, rest);
    case Flags => GivesWord(lex, TkFlag, rest);
  }

  lemma {:induction false} GivesBracketed(lex: Lexing, head: TokenKind, index: Operand, rest: string)
    requires LexesPieces(lex) && Printable(index) && Stops(rest) && HasKeyword(head)
    ensures Gives(lex, Spelling(head) + RenderBracketed(index), [Token(head, 0)] + BracketTokens(index), rest)
    decreases index, 1
  {
    GivesOperand(lex, index, "]" + rest);
    GivesBrackets(lex, RenderOperand(index), OperandTokens(index), rest);
    GivesWord(lex, head, RenderBracketed(index) + rest);
    GivesJoin(lex, Spelling(head), [Token(head, 0)], RenderBracketed(index), BracketTokens(index), rest);
  }

  lemma GivesBrackets(lex: Lexing, inner: string, tokens: seq<Token>, rest: string)
    requires LexesPieces(lex) && Gives(lex, inner, tokens, "]" + rest)
    ensures Gives(lex, "[" + (inner + "]"), [Token(TkLeftBracket, 0)] + (tokens + [Token(TkRightBracket, 0)]), rest)
  {
    var open, close := [Token(TkLeftBracket, 0)], [Token(TkRightBracket, 0)];
    GivesSymbol(lex, ']', rest);
    GivesJoin(lex, inner, tokens, "]", close, rest);
    GivesSymbol(lex, '[', inner + "]" + rest);
    GivesJoin(lex, "[", open, inner + "]", tokens + close, rest);
  }

  lemma GivesPair(lex: Lexing, a: string, s: seq<Token>, b: string, t: seq<Token>, rest: string)
    requires LexesPieces(lex) && Gives(lex, a, s, "," + (" " + b) + rest) && Gives(lex, b, t, rest)
    ensures Gives(lex, a + ("," + (" " + b)), s + ([Token(TkComma, 0)] + t), rest)
  {
    GivesAfterBlank(lex, b, t, rest);
    GivesSymbol(lex, ',', " " + b + rest);
    GivesJoin(lex, ",", [Token(TkComma, 0)], " " + b, t, rest);
    GivesJoin(lex, a, s, "," + (" " + b), [Token(TkComma, 0)] + t, rest);
  }

  lemma GivesArguments(lex: Lexing, operands: seq<Operand>, rest: string)
    requires LexesPieces(lex) && Stops(rest)
    requires 1 <= |operands| <= 2 && forall i :: 0 <= i < |operands| ==> Printable(operands[i])
    ensures Gives(lex, RenderArguments(operands), ArgumentTokens(operands), rest)
  {
    if |operands| == 1 {
      GivesOperand(lex, operands[0], rest);
    } else {
      var second := RenderOperand(operands[1]);
      GivesOperand(lex, operands[1], rest);
      GivesOperand(lex, operands[0], "," + (" " + second) + rest);
      GivesPair(lex, RenderOperand(operands[0]), OperandTokens(operands[0]), second, OperandTokens(operands[1]), rest);
    }
  }

  lemma GivesCall(lex: Lexing, callee: Callee, rest: string)
    requires LexesPieces(lex) && Stops(rest)
    ensures Gives(lex, Spelling(CalleeToken(callee)) + ("(" + ")"), CallTokens(callee), rest)
  {
    var name := CalleeToken(callee);
    GivesSymbol(lex, ')', rest);
    GivesSymbol(lex, '(', ")" + rest);
    GivesJoin(lex, "(", [Token(TkLeftParen, 0)], ")", [Token(TkRightParen, 0)], rest);
    GivesWord(lex, name, "(" + ")" + rest);
    GivesJoin(lex, Spelling(name), [Token(name, 0)], "(" + ")", [Token(TkLeftParen, 0)] + [Token(TkRightParen, 0)],
              rest);
  }

  lemma GivesPayload(lex: Lexing, instr: Instruction, rest: string)
    requires LexesPieces(lex) && PrintableInstruction(instr) && Stops(rest)
    ensures Gives(lex, RenderPayload(instr), PayloadTokens(instr), rest)
  {
    match instr.payload
    case CallTo(callee) => GivesCall(lex, callee, rest);
    case Operation(_, _) => GivesArguments(lex, Written(instr), rest);
  }

  /** A keyword, a blank, and what stands behind it. */
  lemma GivesWordFirst(lex: Lexing, kind: TokenKind, piece: string, tokens: seq<Token>, rest: string)
    requires LexesPieces(lex) && HasKeyword(kind) && Gives(lex, piece, tokens, rest)
    ensures Gives(lex, Spelling(kind) + (" " + piece), [Token(kind, 0)] + tokens, rest)
  {
    GivesAfterBlank(lex, piece, tokens, rest);
    GivesWord(lex, kind, " " + piece + rest);
    GivesJoin(lex, Spelling(kind), [Token(kind, 0)], " " + piece, tokens, rest);
  }

  lemma GivesInstruction(lex: Lexing, instr: Instruction, rest: string)
    requires LexesPieces(lex) && PrintableInstruction(instr) && Stops(rest)
    ensures Gives(lex, RenderInstruction(instr), InstructionTokens(instr), rest)
  {
    GivesPayload(lex, instr, rest);
    GivesWordFirst(lex, MnemonicToken(instr.opcode), RenderPayload(instr), PayloadTokens(instr), rest);
  }

  lemma {:induction false} GivesNewlines(lex: Lexing, k: nat)
    requires LexesPieces(lex)
    ensures lex(Newlines(k)) == Lexed([], k)
  {
    if k == 0 {
      assert Newlines(0) == "";
    } else {
      assert Newlines(k) == "\n" + Newlines(k - 1);
      GivesNewlines(lex, k - 1);
    }
  }

  lemma {:induction false} GivesProgram(lex: Lexing, program: seq<Instruction>, k: nat)
    requires LexesPieces(lex)
    requires program != [] && forall i :: 0 <= i < |program| ==> PrintableInstruction(program[i])
    ensures lex(Render(program, k)) == Lexed(ProgramTokens(program), |program| - 1 + k)
    decreases |program|
  {
    if |program| == 1 {
      GivesInstruction(lex, program[0], Newlines(k));
      GivesNewlines(lex, k);
      assert ProgramTokens(program[1..]) == [];
    } else {
      GivesInstruction(lex, program[0], "\n" + Render(program[1..], k));
      GivesProgram(lex, program[1..], k);
    }
  }

  /** The text of a program, with `k` newlines behind it, gives its tokens; every line
      break and trailing newline is counted. */
  lemma {:induction false} LexProgram(program: seq<Instruction>, k: nat)
    requires program != [] && forall i :: 0 <= i < |program| ==> PrintableInstruction(program[i])
    ensures LexFrom(Render(program, k)) == Lexed(ProgramTokens(program), |program| - 1 + k)
  {
    TheLexerLexesPieces();
    GivesProgram(TheLexer(), program, k);
  }

  // ------------------------------------------------------------- round trip

  /** Parsing the tokens of a program, with as many instructions as it has, gives the
      program back, whatever the buffer holds behind the tokens. */
  lemma TokensParse(program: seq<Instruction>, found: seq<Token>, buffer: seq<Token>)
    requires PrintableProgram(program, 0) && found == ProgramTokens(program) && found <= buffer
    ensures ProgramAt(buffer, |program|) == Ok(program, |found|)
  {
    ProgramTokensRead(program, found, buffer);
    ProgramAtIff(buffer, |program|, program, |found|);
  }

  /** Two zero slots read as a `mov` without operands. */
  lemma ZeroSlots(buffer: seq<Token>, at: nat, line: int)
    requires at + 1 < |buffer| && buffer[at] == buffer[at + 1] == ZERO_TOKEN
    ensures InstructionAt(buffer, at, line) == Err(WrongOperand)
  {
  }

  /** If more instructions were counted and two zero slots follow, parsing fails there. */
  lemma TokensFail(program: seq<Instruction>, found: seq<Token>, buffer: seq<Token>, n: nat)
    requires PrintableProgram(program, 0) && found == ProgramTokens(program) && found <= buffer && n > |program|
    requires ZeroAt(buffer, |found|)
    ensures ProgramAt(buffer, n) == Err(WrongOperand)
  {
    ProgramTokensRead(program, found, buffer);
    ZeroSlots(buffer, |found|, |program|);
    ParserFailsBehind(buffer, n, program, |found|, WrongOperand);
  }

  /** Lexing the text of a program and parsing as many instructions as were counted
      gives the program back, whatever the token buffer holds behind the tokens. */
  lemma {:induction false} TextRoundTrip(program: seq<Instruction>, lexed: Lexed, buffer: seq<Token>)
    requires program != [] && PrintableProgram(program, 0) && lexed == LexFrom(Render(program, 0))
    requires lexed.Lexed? ==> lexed.tokens <= buffer
    ensures lexed.Lexed? && lexed.newlines + 1 == |program|
    ensures ProgramAt(buffer, lexed.newlines + 1) == Ok(program, |lexed.tokens|)
  {
    LexProgram(program, 0);
    TokensParse(program, lexed.tokens, buffer);
  }

  ghost predicate ComesBack(program: seq<Instruction>, buffer: seq<Token>, n: nat) {
    exists next: nat :: ProgramAt(buffer, n) == Ok(program, next)
  }

  ghost predicate ZeroAt(buffer: seq<Token>, at: nat) {
    at + 1 < |buffer| && buffer[at] == buffer[at + 1] == ZERO_TOKEN
  }

  /** With `k` instructions more counted than there are, the program comes back if and
      only if `k` is 0. If two zero slots of the buffer follow the tokens, parsing fails on
      the first missing line. */
  lemma CountDecides(program: seq<Instruction>, k: nat, found: seq<Token>, buffer: seq<Token>, n: nat)
    requires PrintableProgram(program, 0) && found == ProgramTokens(program) && found <= buffer
    requires n == |program| + k
    ensures ComesBack(program, buffer, n) <==> k == 0
    ensures k > 0 && ZeroAt(buffer, |found|) ==> ProgramAt(buffer, n) == Err(WrongOperand)
  {
    var parsed := ProgramAt(buffer, n);
    assert parsed.Ok? ==> |parsed.value| == n;
    if k == 0 {
      TokensParse(program, found, buffer);
    } else if ZeroAt(buffer, |found|) {
      TokensFail(program, found, buffer, n);
    }
  }

  /** What the text of a program with `k` newlines behind it gives: its tokens, and `k`
      instructions more than it has. */
  lemma {:induction false} LexCounts(program: seq<Instruction>, k: nat, found: seq<Token>, n: nat)
    requires program != [] && PrintableProgram(program, 0) && n > 0
    requires LexFrom(Render(program, k)) == Lexed(found, n - 1)
    ensures found == ProgramTokens(program) && n == |program| + k
  {
    LexProgram(program, k);
  }

  /** Each trailing newline is counted as an instruction, so the program comes back if and
      only if there are none; with two zero slots behind the tokens parsing fails. */
  lemma {:induction false} TrailingNewlines(program: seq<Instruction>, k: nat, found: seq<Token>, n: nat,
                                            buffer: seq<Token>)
    requires program != [] && PrintableProgram(program, 0) && n > 0
    requires LexFrom(Render(program, k)) == Lexed(found, n - 1) && found <= buffer
    ensures ComesBack(program, buffer, n) <==> k == 0
    ensures k > 0 && ZeroAt(buffer, |found|) ==> ProgramAt(buffer, n) == Err(WrongOperand)
  {
    LexCounts(program, k, found, n);
    CountDecides(program, k, found, buffer, n);
  }
}
