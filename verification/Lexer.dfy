/** The lexer for WeeperVM assembly. */
module Lexer {
  import opened Asm
  import opened Tokens

  // ---------------------------------------------------- character classes

  predicate IsDigit(c: char) {
    '0' <= c <= '9'
  }

  predicate IsAlpha(c: char) {
    'a' <= c <= 'z' || 'A' <= c <= 'Z'
  }

  predicate IsWordChar(c: char) {
    IsAlpha(c) || IsDigit(c) || c == '_'
  }

  /** The position after the digits that start at `i`. */
  function DigitEnd(text: string, i: nat): (end: nat)
    requires i <= |text|
    ensures i <= end <= |text| && forall k :: i <= k < end ==> IsDigit(text[k])
    ensures i < |text| && IsDigit(text[i]) ==> i < end
    ensures end < |text| ==> !IsDigit(text[end])
    decreases |text| - i
  {
    if i == |text| || !IsDigit(text[i]) then i else DigitEnd(text, i + 1)
  }

  /** The position after the word characters that start at `i`. */
  function WordEnd(text: string, i: nat): (end: nat)
    requires i <= |text|
    ensures i <= end <= |text| && forall k :: i <= k < end ==> IsWordChar(text[k])
    ensures i < |text| && IsWordChar(text[i]) ==> i < end
    ensures end < |text| ==> !IsWordChar(text[end])
    decreases |text| - i
  {
    if i == |text| || !IsWordChar(text[i]) then i else WordEnd(text, i + 1)
  }

  // --------------------------------------------------------------- tokens

  function Symbol(c: char): Option<TokenKind> {
    if c == ',' then Some(TkComma)
    else if c == '(' then Some(TkLeftParen)
    else if c == ')' then Some(TkRightParen)
    else if c == '[' then Some(TkLeftBracket)
    else if c == ']' then Some(TkRightBracket)
    else None
  }

  function Keyword(word: string): Option<TokenKind> {
    if word == "mov" then Some(MnMov)
    else if word == "add" then Some(MnAdd)
    else if word == "sub" then Some(MnSub)
    else if word == "mul" then Some(MnMul)
    else if word == "mod" then Some(MnRem)
    else if word == "and" then Some(MnAnd)
    else if word == "or" then Some(MnOr)
    else if word == "xor" then Some(MnXor)
    else if word == "shl" then Some(MnShl)
    else if word == "shr" then Some(MnShr)
    else if word == "ja" then Some(MnJa)
    else if word == "je" then Some(MnJe)
    else if word == "jl" then Some(MnJl)
    else if word == "jmp" then Some(MnJmp)
    else if word == "jif" then Some(MnJnz)
    else if word == "cmp" then Some(MnCmp)
    else if word == "movb" then Some(MnMovb)
    else if word == "call" then Some(MnCall)
    else if word == "reg" then Some(TkRegister)
    else if word == "mem" then Some(TkMemory)
    else if word == "flags" then Some(TkFlag)
    else if word == "putchar" then Some(FuncPutchar)
    else if word == "read" then Some(FuncRead)
    else None
  }

  const INT_LIMIT := 0x8000_0000

  function DecimalValue(digits: string): (value: nat)
    requires forall i :: 0 <= i < |digits| ==> IsDigit(digits[i])
  {
    if digits == [] then 0
    else
      assert IsDigit(digits[|digits| - 1]);
      10 * DecimalValue(digits[..|digits| - 1]) + (digits[|digits| - 1] as int - '0' as int)
  }

  // -------------------------------------------------------- specification

  /** The tokens of a text and its number of newlines; a text is rejected for a word that
      is no keyword, or for a number that no int can hold (where the conversion of the C
      library is undefined). */
  datatype Lexed = Lexed(tokens: seq<Token>, newlines: nat) | Rejected

  function Prepend(tokens: seq<Token>, rest: Lexed): Lexed {
    match rest
    case Lexed(more, newlines) => Lexed(tokens + more, newlines)
    case Rejected => Rejected
  }

  function Newline(rest: Lexed): Lexed {
    match rest
    case Lexed(more, newlines) => Lexed(more, newlines + 1)
    case Rejected => Rejected
  }

  /** One round of the scanning loop: how far it moves, and the token it adds, if any.
      Characters that start no token are skipped. */
  datatype Scan = Skip(length: nat) | Found(token: Token, length: nat) | Reject

  /** `n` characters of the class, and no more of them behind. */
  ghost predicate Longest(text: string, n: nat, inClass: char -> bool) {
    0 < n <= |text| && (forall k :: 0 <= k < n ==> inClass(text[k])) && (n < |text| ==> !inClass(text[n]))
  }

  /** All digits that follow; a number that no int can hold is rejected. */
  function ScanNumber(text: string): (r: Scan)
    requires text != [] && IsDigit(text[0])
    ensures !r.Skip? && Longest(text, DigitEnd(text, 0), IsDigit)
    ensures r.Reject? <==> DecimalValue(text[..DigitEnd(text, 0)]) >= INT_LIMIT
    ensures r.Found? ==> Longest(text, r.length, IsDigit)
    ensures r.Found? ==> r.token == Token(TkImmediate, DecimalValue(text[..r.length])) && r.token.number < INT_LIMIT
  {
    var value := DecimalValue(text[..DigitEnd(text, 0)]);
    if value < INT_LIMIT then Found(Token(TkImmediate, value), DigitEnd(text, 0)) else Reject
  }

  /** The longest word; a word that is no keyword is rejected. */
  function ScanWord(text: string): (r: Scan)
    requires text != [] && IsAlpha(text[0])
    ensures !r.Skip? && Longest(text, WordEnd(text, 0), IsWordChar)
    ensures r.Reject? <==> Keyword(text[..WordEnd(text, 0)]) == None
    ensures r.Found? ==> Longest(text, r.length, IsWordChar)
    ensures r.Found? ==> Keyword(text[..r.length]) == Some(r.token.kind)
  {
    match Keyword(text[..WordEnd(text, 0)])
    case Some(kind) => Found(Token(kind, 0), WordEnd(text, 0))
    case None => Reject
  }

  function ScanAt(text: string): (r: Scan)
    requires text != []
    ensures !r.Reject? ==> 0 < r.length <= |text|
  {
    if text[0] == '\n' || text[0] == ' ' || text[0] == '\t' then Skip(1)
    else match Symbol(text[0])
      case Some(kind) => Found(Token(kind, 0), 1)
      case None =>
        if IsDigit(text[0]) then ScanNumber(text)
        else if IsAlpha(text[0]) then ScanWord(text)
        else Skip(1)
  }

  /** The text ends at its end or at a NUL character. */
  function LexFrom(text: string): Lexed
    decreases |text|
  {
    if text == [] || text[0] == '\0' then Lexed([], 0)
    else match ScanAt(text)
      case Reject => Rejected
      case Found(token, n) => Prepend([token], LexFrom(text[n..]))
      case Skip(n) => if text[0] == '\n' then Newline(LexFrom(text[n..])) else LexFrom(text[n..])
  }

  // ---------------------------------------------------------------- methods

  /** Appends a token, doubling the buffer if it is full. */
  method AddToken(list: TokenList, token: Token)
    requires list.Valid() && list.tokenIndex <= list.nbTokens
    modifies list, list.tokens
    ensures list.Valid() && list.tokenIndex <= list.nbTokens
    ensures list.tokens == old(list.tokens) || fresh(list.tokens)
    ensures list.tokenIndex == old(list.tokenIndex) + 1
    ensures list.tokens[..list.tokenIndex] == old(list.tokens[..list.tokenIndex]) + [token]
    ensures list.nbTokens == if old(list.tokenIndex) < old(list.nbTokens) then old(list.nbTokens)
                             else 2 * old(list.nbTokens)
    ensures old(list.ZeroedBehind()) && old(list.nbTokens) >= INITIAL_TOKENS ==> list.ZeroedBehind()
  {
    ghost var before := list.tokens[..list.tokenIndex];
    if list.tokenIndex >= list.nbTokens {
      list.nbTokens := list.nbTokens * 2;
      var grown := new Token[list.nbTokens];
      for i := 0 to list.tokenIndex
        modifies grown
        invariant grown[..i] == before[..i]
      {
        grown[i] := list.tokens[i];
      }
      list.tokens := grown;
      assert list.tokens[..list.tokenIndex] == before;
    }
    list.tokens[list.tokenIndex] := token;
    list.tokenIndex := list.tokenIndex + 1;
  }

  /** What the whole text gives when `tokens` and `newlines` were found so far. */
  ghost function Continue(tokens: seq<Token>, newlines: nat, rest: Lexed): Lexed {
    match rest
    case Lexed(more, newlines') => Lexed(tokens + more, newlines + newlines')
    case Rejected => Rejected
  }

  lemma ContinueNothing(rest: Lexed)
    ensures Continue([], 0, rest) == rest
  {
  }

  lemma ContinueEnd(tokens: seq<Token>, newlines: nat)
    ensures Continue(tokens, newlines, Lexed([], 0)) == Lexed(tokens, newlines)
  {
  }

  /** What the text gives from position `pos` on. */
  ghost function LexAt(text: string, pos: nat): Lexed
    requires pos <= |text|
  {
    LexFrom(text[pos..])
  }

  lemma LexAtEnd(text: string, pos: nat)
    requires pos <= |text| && (pos == |text| || text[pos] == '\0')
    ensures LexAt(text, pos) == Lexed([], 0)
  {
  }

  lemma {:induction false} LexAtStart(text: string)
    ensures LexAt(text, 0) == LexFrom(text)
  {
  }

  /** How what the text gives from `pos` on depends on what it gives after one round. */
  ghost predicate Round(scan: Scan, newline: bool, rest: Lexed, rest': Lexed) {
    match scan
    case Reject => rest == Rejected
    case Found(token, _) => !newline && rest == Prepend([token], rest')
    case Skip(_) => rest == if newline then Newline(rest') else rest'
  }

  lemma ContinueRound(tokens: seq<Token>, newlines: nat, scan: Scan, newline: bool, rest: Lexed, rest': Lexed)
    requires Round(scan, newline, rest, rest') && !scan.Reject?
    ensures Continue(tokens, newlines, rest) ==
            Continue(if scan.Found? then tokens + [scan.token] else tokens,
                     if newline then newlines + 1 else newlines, rest')
  {
  }

  lemma RoundAt(text: string, pos: nat, scan: Scan) returns (rest': Lexed)
    requires pos < |text| && text[pos] != '\0' && scan == ScanAt(text[pos..])
    ensures Round(scan, text[pos] == '\n', LexAt(text, pos), rest')
    ensures !scan.Reject? ==> rest' == LexAt(text, pos + scan.length)
  {
    var suffix := text[pos..];
    if scan.Reject? {
      rest' := Rejected;
    } else {
      rest' := LexFrom(suffix[scan.length..]);
      assert suffix[scan.length..] == text[pos + scan.length..];
    }
  }

  /** Reads what starts at `pos`. */
  method ScanNext(text: string, pos: nat, ghost rest: Lexed) returns (scan: Scan, next: nat, ghost rest': Lexed)
    requires pos < |text| && text[pos] != '\0' && rest == LexAt(text, pos)
    ensures Round(scan, text[pos] == '\n', rest, rest')
    ensures !scan.Reject? ==> pos < next <= |text| && rest' == LexAt(text, next)
  {
    scan := ScanAt(text[pos..]);
    rest' := RoundAt(text, pos, scan);
    next := if scan.Reject? then pos else pos + scan.length;
  }

  /** One round of the scanning loop: reads what starts at `pos` and adds its token, if
      it is one. */
  method ScanOne(list: TokenList, text: string, pos: nat, ghost rest: Lexed)
    returns (next: nat, ok: bool, ghost scan: Scan, ghost rest': Lexed)
    requires list.Valid() && list.tokenIndex <= list.nbTokens
    requires pos < |text| && text[pos] != '\0' && rest == LexAt(text, pos)
    modifies list, list.tokens
    ensures list.Valid() && list.tokenIndex <= list.nbTokens
    ensures list.nbTokens >= old(list.nbTokens)
    ensures list.tokenIndex >= old(list.tokenIndex)
    ensures list.nbTokens > old(list.nbTokens) ==> list.tokenIndex > old(list.nbTokens)
    ensures old(list.ZeroedBehind()) && old(list.nbTokens) >= INITIAL_TOKENS ==> list.ZeroedBehind()
    ensures list.tokens == old(list.tokens) || fresh(list.tokens)
    ensures Round(scan, text[pos] == '\n', rest, rest') && (ok <==> !scan.Reject?)
    ensures ok ==> pos < next <= |text| && rest' == LexAt(text, next)
    ensures list.tokens[..list.tokenIndex] ==
            if scan.Found? then old(list.tokens[..list.tokenIndex]) + [scan.token]
                  else old(list.tokens[..list.tokenIndex])
  {
    var found;
    found, next, rest' := ScanNext(text, pos, rest);
    scan, ok := found, !found.Reject?;
    if found.Found? {
      AddToken(list, found.token);
    }
  }

  /** Scans a text; counts one instruction more than there are newlines. */
  method Lex(text: string) returns (list: TokenList, nbInstructions: nat, ok: bool)
    ensures fresh(list) && fresh(list.tokens) && list.Valid() && list.tokenIndex <= list.nbTokens
    ensures list.nbTokens >= INITIAL_TOKENS && list.ZeroedBehind()
    ensures list.tokenIndex <= INITIAL_TOKENS ==> list.nbTokens == INITIAL_TOKENS
    ensures nbInstructions > 0
    ensures LexFrom(text) ==
            if ok then Lexed(list.tokens[..list.tokenIndex], nbInstructions - 1) else Rejected
  {
    list := new TokenList();
    nbInstructions := 1;
    ok := true;
    var pos := 0;
    ghost var whole := LexFrom(text);
    LexAtStart(text);
    ghost var rest, tokens: seq<Token>, newlines: nat := whole, [], 0;
    ContinueNothing(whole);
    while pos < |text| && text[pos] != '\0'
      invariant ok && pos <= |text| && nbInstructions == newlines + 1
      invariant fresh(list) && fresh(list.tokens) && list.Valid() && list.tokenIndex <= list.nbTokens
      invariant list.nbTokens >= INITIAL_TOKENS && list.ZeroedBehind()
      invariant list.tokenIndex <= INITIAL_TOKENS ==> list.nbTokens == INITIAL_TOKENS
      invariant tokens == list.tokens[..list.tokenIndex]
      invariant rest == LexAt(text, pos)
      invariant whole == Continue(tokens, newlines, rest)
      decreases |text| - pos
    {
      var next;
      ghost var scan, rest';
      next, ok, scan, rest' := ScanOne(list, text, pos, rest);
      if !ok {
        return;
      }
      ContinueRound(tokens, newlines, scan, text[pos] == '\n', rest, rest');
      tokens := if scan.Found? then tokens + [scan.token] else tokens;
      newlines := if text[pos] == '\n' then newlines + 1 else newlines;
      if text[pos] == '\n' {
        nbInstructions := nbInstructions + 1;
      }
      pos, rest := next, rest';
    }
    LexAtEnd(text, pos);
    ContinueEnd(tokens, newlines);
  }
}
