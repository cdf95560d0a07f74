/** How tokens are spelled: an account of keywords, symbols and numbers that does not use
    the lexer, and the proof that the lexer agrees with it on every text. */
module Spellings {
  import opened Asm
  import opened Tokens
  import opened Lexer

  /** The text of each kind of token that has a fixed text. */
  function Spelling(kind: TokenKind): string {
    match kind
    case MnMov => "mov"
    case MnAdd => "add"
    case MnSub => "sub"
    case MnMul => "mul"
    case MnRem => "mod"
    case MnAnd => "and"
    case MnOr => "or"
    case MnXor => "xor"
    case MnShl => "shl"
    case MnShr => "shr"
    case MnJnz => "jif"
    case MnJa => "ja"
    case MnJe => "je"
    case MnJl => "jl"
    case MnJmp => "jmp"
    case MnCondJmp => ""
    case MnCmp => "cmp"
    case MnMovb => "movb"
    case MnCall => "call"
    case TkComma => ","
    case TkLeftParen => "("
    case TkRightParen => ")"
    case TkLeftBracket => "["
    case TkRightBracket => "]"
    case FuncPutchar => "putchar"
    case FuncRead => "read"
    case TkImmediate => ""
    case TkRegister => "reg"
    case TkMemory => "mem"
    case TkFlag => "flags"
  }

  predicate HasSymbol(kind: TokenKind) {
    kind in {TkComma, TkLeftParen, TkRightParen, TkLeftBracket, TkRightBracket}
  }

  predicate HasKeyword(kind: TokenKind) {
    !HasSymbol(kind) && kind != TkImmediate && kind != MnCondJmp
  }

  // --------------------------------------------------------------- keywords

  predicate IsWord(text: string) {
    text != [] && IsAlpha(text[0]) && forall i :: 0 <= i < |text| ==> IsWordChar(text[i])
  }

  predicate IsOperation(kind: TokenKind) {
    kind in {MnMov, MnAdd, MnSub, MnMul, MnRem, MnAnd, MnOr, MnXor, MnShl, MnShr}
  }

  predicate IsJumpLike(kind: TokenKind) {
    kind in {MnJnz, MnJa, MnJe, MnJl, MnJmp, MnCmp, MnMovb}
  }

  lemma OperationSpelling(kind: TokenKind)
    requires IsOperation(kind)
    ensures Keyword(Spelling(kind)) == Some(kind) && IsWord(Spelling(kind))
  {
  }

  lemma JumpSpelling(kind: TokenKind)
    requires IsJumpLike(kind)
    ensures Keyword(Spelling(kind)) == Some(kind) && IsWord(Spelling(kind))
  {
  }

  lemma KeywordSpelling(kind: TokenKind)
    requires HasKeyword(kind)
    ensures Keyword(Spelling(kind)) == Some(kind) && IsWord(Spelling(kind))
  {
    if IsOperation(kind) {
      OperationSpelling(kind);
    } else if IsJumpLike(kind) {
      JumpSpelling(kind);
    }
  }

  lemma OperationIsSpelling(word: string)
    requires Keyword(word).Some? && IsOperation(Keyword(word).value)
    ensures word == Spelling(Keyword(word).value)
  {
  }

  lemma JumpIsSpelling(word: string)
    requires Keyword(word).Some? && IsJumpLike(Keyword(word).value)
    ensures word == Spelling(Keyword(word).value)
  {
  }

  lemma OtherIsSpelling(word: string)
    requires Keyword(word).Some? && !IsOperation(Keyword(word).value) && !IsJumpLike(Keyword(word).value)
    ensures HasKeyword(Keyword(word).value) && word == Spelling(Keyword(word).value)
  {
  }

  lemma KeywordIsSpelling(word: string)
    requires Keyword(word).Some?
    ensures HasKeyword(Keyword(word).value) && word == Spelling(Keyword(word).value)
  {
    if IsOperation(Keyword(word).value) {
      OperationIsSpelling(word);
    } else if IsJumpLike(Keyword(word).value) {
      JumpIsSpelling(word);
    } else {
      OtherIsSpelling(word);
    }
  }

  /** A word is the keyword of that kind exactly if it is spelled like it; so no other word
      is a keyword. */
  lemma KeywordIff(word: string, kind: TokenKind)
    ensures Keyword(word) == Some(kind) <==> HasKeyword(kind) && word == Spelling(kind)
  {
    if Keyword(word) == Some(kind) {
      KeywordIsSpelling(word);
    }
    if HasKeyword(kind) && word == Spelling(kind) {
      KeywordSpelling(kind);
    }
  }

  ghost predicate NoKeyword(word: string) {
    forall kind: TokenKind :: HasKeyword(kind) ==> word != Spelling(kind)
  }

  /** The longest word at the front of the text gives the keyword that is spelled like it,
      and is rejected exactly if there is none. */
  lemma WordScannedIff(text: string, n: nat)
    requires text != [] && IsAlpha(text[0]) && Longest(text, n, IsWordChar)
    ensures ScanWord(text).Reject? <==> NoKeyword(text[..n])
    ensures forall kind: TokenKind :: ScanWord(text) == Found(Token(kind, 0), n)
                                      <==> HasKeyword(kind) && text[..n] == Spelling(kind)
  {
    var word := text[..n];
    assert WordEnd(text, 0) == n;
    forall kind: TokenKind
      ensures Keyword(word) == Some(kind) <==> HasKeyword(kind) && word == Spelling(kind)
    {
      KeywordIff(word, kind);
    }
  }

  // ------------------------------------------------------------- characters

  const LOWER := "abcdefghijklmnopqrstuvwxyz"

  const UPPER := "ABCDEFGHIJKLMNOPQRSTUVWXYZ"

  const DIGITS := "0123456789"

  lemma SymbolIff(c: char, kind: TokenKind)
    ensures Symbol(c) == Some(kind) <==> HasSymbol(kind) && [c] == Spelling(kind)
  {
  }

  /** Digits, letters and the characters of words are the expected ones and no others. */
  lemma CharacterClasses(c: char)
    ensures IsDigit(c) <==> c in DIGITS
    ensures IsAlpha(c) <==> c in LOWER || c in UPPER
    ensures IsWordChar(c) <==> c in LOWER || c in UPPER || c in DIGITS || c == '_'
  {
    LowerAre(c);
    UpperAre(c);
    DigitsAre(c);
  }

  lemma DigitsAre(c: char)
    ensures IsDigit(c) <==> c in DIGITS
  {
    if IsDigit(c) {
      assert DIGITS[c as int - '0' as int] == c;
    }
  }

  lemma LowerAre(c: char)
    ensures 'a' <= c <= 'z' <==> c in LOWER
  {
    if 'a' <= c <= 'z' {
      assert LOWER[c as int - 'a' as int] == c;
    }
  }

  lemma UpperAre(c: char)
    ensures 'A' <= c <= 'Z' <==> c in UPPER
  {
    if 'A' <= c <= 'Z' {
      assert UPPER[c as int - 'A' as int] == c;
    }
  }

  // ---------------------------------------------------------------- numbers

  predicate IsNumber(text: string) {
    text != [] && forall i :: 0 <= i < |text| ==> IsDigit(text[i])
  }

  function PowerOfTen(n: nat): nat {
    if n == 0 then 1 else 10 * PowerOfTen(n - 1)
  }

  /** Digits written behind a number multiply it and are added; a digit counts what its
      place in the row of the digits says. */
  lemma {:induction false} DecimalJoins(s: string, t: string)
    requires forall i :: 0 <= i < |s| ==> IsDigit(s[i])
    requires forall i :: 0 <= i < |t| ==> IsDigit(t[i])
    ensures forall i :: 0 <= i < |s + t| ==> IsDigit((s + t)[i])
    ensures DecimalValue(s + t) == DecimalValue(s) * PowerOfTen(|t|) + DecimalValue(t)
    decreases |t|
  {
    if t == [] {
      assert s + t == s;
    } else {
      var front, last := t[..|t| - 1], t[|t| - 1];
      DecimalJoins(s, front);
      assert (s + t)[..|s + t| - 1] == s + front;
      assert (s + t)[|s + t| - 1] == last;
      ShiftedSum(DecimalValue(s), PowerOfTen(|front|), DecimalValue(front), last as int - '0' as int);
    }
  }

  lemma ShiftedSum(a: nat, power: nat, b: nat, d: int)
    ensures 10 * (a * power + b) + d == a * (10 * power) + (10 * b + d)
  {
  }

  lemma DecimalDigit(c: char, d: nat)
    requires d < 10 && c == DIGITS[d]
    ensures IsNumber([c]) && DecimalValue([c]) == d
  {
    assert [c][..0] == [];
  }
}
