/** Which texts give which tokens: the lexer reads exactly the texts that consist of pieces
    with any separators between them. */
module Layout {
  import opened Asm
  import opened Tokens
  import opened Lexer
  import opened Spellings

  /** A character that starts no token and is skipped, or the text of a token. */
  datatype Chunk = Separator(c: char) | Piece(text: string, token: Token)

  /** Blanks, tabs, newlines, and all characters that the lexer does not know. */
  predicate IsSeparator(c: char) {
    c != '\0' && Symbol(c) == None && !IsDigit(c) && !IsAlpha(c)
  }

  /** The text of the token: a number that an int can hold, or the one spelling of a
      symbol or keyword. */
  predicate IsPiece(text: string, token: Token) {
    if token.kind == TkImmediate then IsNumber(text) && token.number == DecimalValue(text) < 2147483648
    else (HasSymbol(token.kind) || HasKeyword(token.kind)) && text == Spelling(token.kind) && token.number == 0
  }

  /** What stands behind does not continue the number or the word. */
  predicate Ends(text: string, rest: string)
    requires text != []
  {
    rest != [] ==> (IsDigit(text[0]) ==> !IsDigit(rest[0])) && (IsAlpha(text[0]) ==> !IsWordChar(rest[0]))
  }

  function ChunkText(chunk: Chunk): string {
    match chunk
    case Separator(c) => [c]
    case Piece(text, _) => text
  }

  function Spread(chunks: seq<Chunk>, tail: string): string {
    if chunks == [] then tail else ChunkText(chunks[0]) + Spread(chunks[1..], tail)
  }

  function TokensOf(chunks: seq<Chunk>): seq<Token> {
    if chunks == [] then []
    else
      match chunks[0]
      case Separator(_) => TokensOf(chunks[1..])
      case Piece(_, token) => [token] + TokensOf(chunks[1..])
  }

  function NewlinesOf(chunks: seq<Chunk>): nat {
    if chunks == [] then 0
    else NewlinesOf(chunks[1..]) + if chunks[0] == Separator('\n') then 1 else 0
  }

  predicate ChunkFits(chunk: Chunk, rest: string) {
    match chunk
    case Separator(c) => IsSeparator(c)
    case Piece(text, token) => IsPiece(text, token) && Ends(text, rest)
  }

  /** The text ends at its end or at a NUL character. */
  predicate IsEnd(tail: string) {
    tail == [] || tail[0] == '\0'
  }

  predicate WellSpread(chunks: seq<Chunk>, tail: string) {
    if chunks == [] then IsEnd(tail)
    else ChunkFits(chunks[0], Spread(chunks[1..], tail)) && WellSpread(chunks[1..], tail)
  }

  // ------------------------------------------------------------- one round

  lemma {:induction false} NumberEnds(text: string, rest: string)
    requires IsNumber(text) && (rest != [] ==> !IsDigit(rest[0]))
    ensures DigitEnd(text + rest, 0) == |text|
  {
    var all := text + rest;
    assert forall i :: 0 <= i < |text| ==> IsDigit(all[i]);
    assert rest != [] ==> all[|text|] == rest[0];
  }

  lemma {:induction false} WordEnds(text: string, rest: string)
    requires IsWord(text) && (rest != [] ==> !IsWordChar(rest[0]))
    ensures WordEnd(text + rest, 0) == |text|
  {
    var all := text + rest;
    assert forall i :: 0 <= i < |text| ==> IsWordChar(all[i]);
    assert rest != [] ==> all[|text|] == rest[0];
  }

  lemma DigitScans(text: string)
    requires text != [] && IsDigit(text[0])
    ensures ScanAt(text) == ScanNumber(text)
  {
    assert Symbol(text[0]) == None;
  }

  lemma LetterScans(text: string)
    requires text != [] && IsAlpha(text[0])
    ensures ScanAt(text) == ScanWord(text)
  {
    assert Symbol(text[0]) == None && !IsDigit(text[0]);
  }

  /** What the lexer takes for the text of the token. */
  predicate IsRead(text: string, token: Token) {
    || (|text| == 1 && Symbol(text[0]) == Some(token.kind) && token.number == 0)
    || (IsNumber(text) && DecimalValue(text) < INT_LIMIT && token == Token(TkImmediate, DecimalValue(text)))
    || (IsWord(text) && Keyword(text) == Some(token.kind) && token.number == 0)
  }

  lemma SymbolRead(text: string, token: Token)
    requires HasSymbol(token.kind)
    ensures IsRead(text, token) <==> IsPiece(text, token)
  {
    KeywordIff(text, token.kind);
    if |text| == 1 {
      SymbolIff(text[0], token.kind);
      assert text == [text[0]];
    }
  }

  lemma KeywordRead(text: string, token: Token)
    requires HasKeyword(token.kind)
    ensures IsRead(text, token) <==> IsPiece(text, token)
  {
    KeywordIff(text, token.kind);
    KeywordSpelling(token.kind);
    if |text| == 1 {
      SymbolIff(text[0], token.kind);
    }
  }

  /** It takes exactly the text of the token. */
  lemma ReadIff(text: string, token: Token)
    ensures IsRead(text, token) <==> IsPiece(text, token)
  {
    if HasSymbol(token.kind) {
      SymbolRead(text, token);
    } else if HasKeyword(token.kind) {
      KeywordRead(text, token);
    } else {
      KeywordIff(text, token.kind);
      if |text| == 1 {
        SymbolIff(text[0], token.kind);
      }
    }
  }

  lemma PieceScans(text: string, token: Token, rest: string)
    requires IsPiece(text, token) && Ends(text, rest)
    ensures ScanAt(text + rest) == Found(token, |text|)
  {
    ReadIff(text, token);
    ReadScans(text, token, rest);
  }

  lemma ReadScans(text: string, token: Token, rest: string)
    requires IsRead(text, token) && Ends(text, rest)
    ensures ScanAt(text + rest) == Found(token, |text|)
  {
    var all := text + rest;
    assert all[0] == text[0] && all[..|text|] == text;
    if IsNumber(text) {
      NumberEnds(text, rest);
      DigitScans(all);
    } else if IsWord(text) {
      WordEnds(text, rest);
      LetterScans(all);
    }
  }

  lemma FoundIsRead(text: string, token: Token, n: nat)
    requires text != [] && ScanAt(text) == Found(token, n)
    ensures 0 < n <= |text| && IsRead(text[..n], token) && Ends(text[..n], text[n..])
  {
    var piece := text[..n];
    assert piece[0] == text[0];
    if IsDigit(text[0]) {
      DigitScans(text);
    } else if IsAlpha(text[0]) {
      LetterScans(text);
    }
  }

  lemma SkipIsSeparator(text: string, n: nat)
    requires text != [] && text[0] != '\0' && ScanAt(text) == Skip(n)
    ensures n == 1 && IsSeparator(text[0])
  {
  }

  lemma SeparatorScans(c: char, rest: string)
    requires IsSeparator(c)
    ensures ScanAt([c] + rest) == Skip(1)
  {
  }

  // ------------------------------------------------------------- the lexer

  lemma {:induction false} LexFound(text: string, token: Token, n: nat)
    requires text != [] && text[0] != '\0' && ScanAt(text) == Found(token, n)
    ensures LexFrom(text) == Prepend([token], LexFrom(text[n..]))
  {
  }

  lemma {:induction false} LexSkip(text: string)
    requires text != [] && text[0] != '\0' && ScanAt(text) == Skip(1)
    ensures LexFrom(text) == if text[0] == '\n' then Newline(LexFrom(text[1..])) else LexFrom(text[1..])
  {
  }

  lemma PieceStarts(text: string, token: Token)
    requires IsPiece(text, token)
    ensures text != [] && text[0] != '\0' && text[0] != '\n'
  {
    ReadIff(text, token);
  }

  lemma {:induction false} SpreadLexes(chunks: seq<Chunk>, tail: string)
    requires WellSpread(chunks, tail)
    ensures LexFrom(Spread(chunks, tail)) == Lexed(TokensOf(chunks), NewlinesOf(chunks))
    decreases |chunks|
  {
    if chunks == [] {
    } else {
      var rest := Spread(chunks[1..], tail);
      SpreadLexes(chunks[1..], tail);
      match chunks[0]
      case Separator(c) =>
        SeparatorScans(c, rest);
        LexSkip([c] + rest);
        assert ([c] + rest)[1..] == rest;
      case Piece(text, token) =>
        PieceStarts(text, token);
        PieceScans(text, token, rest);
        LexFound(text + rest, token, |text|);
        assert (text + rest)[|text|..] == rest;
    }
  }

  lemma {:induction false} LexedIsSpread(text: string) returns (chunks: seq<Chunk>, tail: string)
    requires LexFrom(text).Lexed?
    ensures WellSpread(chunks, tail) && text == Spread(chunks, tail)
    decreases |text|
  {
    if IsEnd(text) {
      chunks, tail := [], text;
    } else {
      var chunk, rest := FirstChunk(text);
      var more;
      more, tail := LexedIsSpread(rest);
      chunks := [chunk] + more;
      assert chunks[1..] == more;
    }
  }

  lemma FirstChunk(text: string) returns (chunk: Chunk, rest: string)
    requires !IsEnd(text) && LexFrom(text).Lexed?
    ensures |rest| < |text| && text == ChunkText(chunk) + rest
    ensures ChunkFits(chunk, rest) && LexFrom(rest).Lexed?
  {
    match ScanAt(text)
    case Found(token, n) =>
      chunk, rest := FoundChunk(text, token, n);
    case Skip(n) =>
      chunk, rest := SkippedChunk(text, n);
  }

  lemma FoundChunk(text: string, token: Token, n: nat) returns (chunk: Chunk, rest: string)
    requires !IsEnd(text) && LexFrom(text).Lexed? && ScanAt(text) == Found(token, n)
    ensures |rest| < |text| && text == ChunkText(chunk) + rest
    ensures ChunkFits(chunk, rest) && LexFrom(rest).Lexed?
  {
    FoundIsRead(text, token, n);
    ReadIff(text[..n], token);
    LexFound(text, token, n);
    chunk, rest := Piece(text[..n], token), text[n..];
  }

  lemma SkippedChunk(text: string, n: nat) returns (chunk: Chunk, rest: string)
    requires !IsEnd(text) && LexFrom(text).Lexed? && ScanAt(text) == Skip(n)
    ensures |rest| < |text| && text == ChunkText(chunk) + rest
    ensures ChunkFits(chunk, rest) && LexFrom(rest).Lexed?
  {
    SkipIsSeparator(text, n);
    LexSkip(text);
    chunk, rest := Separator(text[0]), text[1..];
  }

  /** The text is laid out as the tokens, with that many newlines between them. */
  ghost predicate LaysOut(text: string, tokens: seq<Token>, newlines: nat) {
    exists chunks: seq<Chunk>, tail: string ::
      WellSpread(chunks, tail) && text == Spread(chunks, tail)
      && tokens == TokensOf(chunks) && newlines == NewlinesOf(chunks)
  }

  /** The lexer gives the tokens and the number of newlines exactly for the texts that are
      laid out as them; it rejects the other texts. */
  lemma {:induction false} LexIff(text: string, tokens: seq<Token>, newlines: nat)
    ensures LexFrom(text) == Lexed(tokens, newlines) <==> LaysOut(text, tokens, newlines)
  {
    if LexFrom(text) == Lexed(tokens, newlines) {
      var chunks, tail := LexedIsSpread(text);
      SpreadLexes(chunks, tail);
    }
    if LaysOut(text, tokens, newlines) {
      var chunks: seq<Chunk>, tail: string :| WellSpread(chunks, tail) && text == Spread(chunks, tail)
                                              && tokens == TokensOf(chunks) && newlines == NewlinesOf(chunks);
      SpreadLexes(chunks, tail);
    }
  }
}
