/** The tokens of WeeperVM assembly and the buffer that holds them. */
module Tokens {

  /** Token kinds; the mnemonics come first, in the order of their numbers. */
  datatype TokenKind =
    | MnMov | MnAdd | MnSub | MnMul | MnRem | MnAnd | MnOr | MnXor | MnShl | MnShr
    | MnJnz | MnJa | MnJe | MnJl | MnJmp | MnCondJmp | MnCmp | MnMovb | MnCall
    | TkComma | TkLeftParen | TkRightParen | TkLeftBracket | TkRightBracket
    | FuncPutchar | FuncRead
    | TkImmediate | TkRegister | TkMemory | TkFlag

  /** A token; only immediates use the number. */
  datatype Token = Token(kind: TokenKind, number: int)

  /** What a zero-initialised slot reads as. */
  const ZERO_TOKEN := Token(MnMov, 0)

  const INITIAL_TOKENS := 256

  /** The token buffer: `nbTokens` slots, and a cursor that the lexer uses as the next
      free slot and the parser as the next token to read. */
  class TokenList {
    var tokens: array<Token>
    var nbTokens: nat
    var tokenIndex: nat

    ghost predicate Valid()
      reads this
    {
      nbTokens == tokens.Length && nbTokens > 0
    }

    /** As long as the buffer did not grow, the slots from the cursor on are zero. */
    ghost predicate ZeroedBehind()
      requires Valid()
      reads this, tokens
    {
      nbTokens == INITIAL_TOKENS ==> forall k :: tokenIndex <= k < nbTokens ==> tokens[k] == ZERO_TOKEN
    }

    constructor ()
      ensures Valid() && fresh(tokens) && nbTokens == INITIAL_TOKENS && tokenIndex == 0 && ZeroedBehind()
    {
      tokens := new Token[INITIAL_TOKENS](i => ZERO_TOKEN);
      nbTokens := INITIAL_TOKENS;
      tokenIndex := 0;
    }
  }
}
