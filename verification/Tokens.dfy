/**
  The tokens of a source text, as a function of it: where each token ends and what
  it is, found by scanning bytes.
*/
module Tokens {
  import opened Wire
  import opened Utf8

  datatype TokenKind =
    | ErrorIllegalChar | ErrorUnterminatedStringLiteral | ErrorUnterminatedComment
    | LParen | RParen | LBracket | RBracket | LBrace | RBrace | LAngle | RAngle | Semi | Comma | Dot | Minus | Plus
    | Amp | Qstn | Equals | Response
    | Name
    | Import | Module | Struct | Union | Interface | Enum | Const | True | False | Default
    | IntConstDec | IntConstHex | FloatConst | Ordinal | StringLiteral
    | SingleLineComment | MultiLineComment | EmptyLine

  predicate IsError(kind: TokenKind) {
    kind.ErrorIllegalChar? || kind.ErrorUnterminatedStringLiteral? || kind.ErrorUnterminatedComment?
  }

  datatype Token = Token(kind: TokenKind, text: seq<byte>, position: Position)

  // ---- Characters ----

  function Code(c: char): nat { c as int }

  predicate Is(rune: nat, c: char) { rune == Code(c) }

  function Ascii(s: string): seq<byte> {
    seq(|s|, i requires 0 <= i < |s| => Code(s[i]) % 256)
  }

  predicate IsSkippable(c: nat) { Is(c, ' ') || Is(c, '\t') || Is(c, '\r') || Is(c, '\n') }

  predicate IsAlpha(c: nat) { Code('a') <= c <= Code('z') || Code('A') <= c <= Code('Z') }

  predicate IsDigit(c: nat) { Code('0') <= c <= Code('9') }

  predicate IsHexDigit(c: nat) { IsDigit(c) || Code('a') <= c <= Code('f') || Code('A') <= c <= Code('F') }

  predicate IsNameStart(c: nat) { IsAlpha(c) || Is(c, '_') }

  predicate IsNameRune(c: nat) { IsAlpha(c) || IsDigit(c) || Is(c, '_') }

  function SingleCharToken(c: nat): Option<TokenKind> {
    if Is(c, '(') then Some(LParen) else if Is(c, ')') then Some(RParen)
    else if Is(c, '[') then Some(LBracket) else if Is(c, ']') then Some(RBracket)
    else if Is(c, '{') then Some(LBrace) else if Is(c, '}') then Some(RBrace)
    else if Is(c, '<') then Some(LAngle) else if Is(c, '>') then Some(RAngle)
    else if Is(c, ';') then Some(Semi) else if Is(c, ',') then Some(Comma)
    else if Is(c, '.') then Some(Dot) else if Is(c, '-') then Some(Minus)
    else if Is(c, '+') then Some(Plus) else if Is(c, '&') then Some(Amp)
    else if Is(c, '?') then Some(Qstn) else None
  }

  function Keyword(text: seq<byte>): Option<TokenKind> {
    if text == Ascii("import") then Some(Import) else if text == Ascii("module") then Some(Module)
    else if text == Ascii("struct") then Some(Struct) else if text == Ascii("union") then Some(Union)
    else if text == Ascii("interface") then Some(Interface) else if text == Ascii("enum") then Some(Enum)
    else if text == Ascii("const") then Some(Const) else if text == Ascii("true") then Some(True)
    else if text == Ascii("false") then Some(False) else if text == Ascii("default") then Some(Default)
    else None
  }

  predicate IsE(c: nat) { Is(c, 'e') || Is(c, 'E') }

  // ---- Runs of bytes ----

  /** The byte at `i`; at the end of the source, a rune that is no byte. */
  function Next(source: seq<byte>, i: nat): nat { if i < |source| then source[i] else RUNE_ERROR }

  /** The end of the longest run of digits. */
  function DigitsEnd(source: seq<byte>, i: nat): (r: nat)
    requires i <= |source|
    ensures i <= r <= |source|
    decreases |source| - i
  {
    if i < |source| && IsDigit(source[i]) then DigitsEnd(source, i + 1) else i
  }

  function HexEnd(source: seq<byte>, i: nat): (r: nat)
    requires i <= |source|
    ensures i <= r <= |source|
    decreases |source| - i
  {
    if i < |source| && IsHexDigit(source[i]) then HexEnd(source, i + 1) else i
  }

  function NameEnd(source: seq<byte>, i: nat): (r: nat)
    requires i <= |source|
    ensures i <= r <= |source|
    decreases |source| - i
  {
    if i < |source| && IsNameRune(source[i]) then NameEnd(source, i + 1) else i
  }

  /** The end of the line. */
  function LineEnd(source: seq<byte>, i: nat): (r: nat)
    requires i <= |source|
    ensures i <= r <= |source|
    decreases |source| - i
  {
    if i < |source| && source[i] != NEWLINE then LineEnd(source, i + 1) else i
  }

  // ---- Tokens ----

  /** A kind of token, and where it ends. */
  datatype Lexeme = Lexeme(kind: TokenKind, end: nat)

  /** From the exponent sign on. */
  function ScanExponent(source: seq<byte>, i: nat): (r: Lexeme)
    requires i < |source|
    ensures i < r.end <= |source|
  {
    var signed := Is(Next(source, i + 1), '+') || Is(Next(source, i + 1), '-');
    Lexeme(FloatConst, DigitsEnd(source, if signed then i + 2 else i + 1))
  }

  /** From the decimal point on. */
  function ScanFraction(source: seq<byte>, i: nat): (r: Lexeme)
    requires i < |source|
    ensures i < r.end <= |source|
  {
    var j := DigitsEnd(source, i + 1);
    if IsE(Next(source, j)) then ScanExponent(source, j) else Lexeme(FloatConst, j)
  }

  /** From the first digit on, which is not zero. */
  function ScanDec(source: seq<byte>, i: nat): (r: Lexeme)
    requires i < |source| && IsDigit(source[i])
    ensures i < r.end <= |source|
  {
    var j := DigitsEnd(source, i);
    if IsE(Next(source, j)) then ScanExponent(source, j)
    else if Is(Next(source, j), '.') then ScanFraction(source, j)
    else Lexeme(IntConstDec, j)
  }

  /** A number that begins with zero: digits do not go on behind the zero. */
  function ScanZero(source: seq<byte>, i: nat): (r: Lexeme)
    requires i < |source|
    ensures i < r.end <= |source|
  {
    var c := Next(source, i + 1);
    if Is(c, 'x') || Is(c, 'X') then Lexeme(IntConstHex, HexEnd(source, i + 2))
    else if Is(c, '.') then ScanFraction(source, i + 1)
    else if IsE(c) then ScanExponent(source, i + 1)
    else Lexeme(IntConstDec, i + 1)
  }

  /** Inside a string literal. A backslash takes whatever follows with it. */
  function ScanString(source: seq<byte>, i: nat): (r: Lexeme)
    requires i <= |source|
    ensures i <= r.end <= |source|
    decreases |source| - i
  {
    if i == |source| || source[i] == NEWLINE then Lexeme(ErrorUnterminatedStringLiteral, i)
    else if Is(source[i], '"') then Lexeme(StringLiteral, i + 1)
    else if Is(source[i], '\\') && i + 1 < |source| then ScanString(source, i + 2)
    else ScanString(source, i + 1)
  }

  /** Inside a multi-line comment. A star takes with it what follows, unless that
      is the slash that ends the comment. */
  function CommentEnd(source: seq<byte>, i: nat): (r: Option<nat>)
    requires i <= |source|
    ensures r.Some? ==> i + 2 <= r.value <= |source|
    decreases |source| - i
  {
    if i == |source| then None
    else if !Is(source[i], '*') then CommentEnd(source, i + 1)
    else if i + 1 == |source| then None
    else if Is(source[i + 1], '/') then Some(i + 2)
    else CommentEnd(source, i + 2)
  }

  function ScanComment(source: seq<byte>, i: nat): (r: Lexeme)
    requires i <= |source|
    ensures i <= r.end <= |source|
  {
    var end := CommentEnd(source, i);
    if end.Some? then Lexeme(MultiLineComment, end.value) else Lexeme(ErrorUnterminatedComment, |source|)
  }

  function ScanName(source: seq<byte>, i: nat): (r: Lexeme)
    requires i < |source|
    ensures i < r.end <= |source|
  {
    var end := NameEnd(source, i + 1);
    var keyword := Keyword(source[i..end]);
    Lexeme(if keyword.Some? then keyword.value else Name, end)
  }

  function ScanSlash(source: seq<byte>, i: nat): (r: Lexeme)
    requires i < |source|
    ensures i < r.end <= |source|
  {
    if Is(Next(source, i + 1), '/') then Lexeme(SingleLineComment, LineEnd(source, i + 2))
    else if Is(Next(source, i + 1), '*') then ScanComment(source, i + 2)
    else Lexeme(ErrorIllegalChar, i + 1)
  }

  /** The token that begins at `i`. */
  function TokenAt(source: seq<byte>, i: nat): (r: Lexeme)
    requires i < |source|
    ensures i < r.end <= |source|
  {
    var c := source[i];
    if SingleCharToken(c).Some? then Lexeme(SingleCharToken(c).value, i + 1)
    else if Is(c, '=') then (if Is(Next(source, i + 1), '>') then Lexeme(Response, i + 2) else Lexeme(Equals, i + 1))
    else if IsNameStart(c) then ScanName(source, i)
    else if Is(c, '@') then Lexeme(Ordinal, DigitsEnd(source, i + 1))
    else if IsDigit(c) then (if Is(c, '0') then ScanZero(source, i) else ScanDec(source, i))
    else if Is(c, '"') then ScanString(source, i + 1)
    else if Is(c, '/') then ScanSlash(source, i)
    else Lexeme(ErrorIllegalChar, i + Decode(source[i..]).width)
  }

  // ---- The token stream ----

  /** The first rune, from `k` on, that does not begin before byte `end`. */
  function RuneFrom(source: seq<byte>, k: nat, end: nat): (r: nat)
    requires end <= |source|
    ensures k <= r && Offset(source, r) >= end
    decreases |source| - Offset(source, k)
  {
    if Offset(source, k) >= end then k
    else
      OffsetStep(source, k);
      RuneFrom(source, k + 1, end)
  }

  /** Where a rune begins at byte `end`, it is that rune. */
  lemma {:induction false} RuneFound(source: seq<byte>, k: nat, j: nat)
    requires k <= j && (k == j || Offset(source, j - 1) < Offset(source, j))
    ensures RuneFrom(source, k, Offset(source, j)) == j
    decreases j - k
  {
    hide Offset;
    if k < j {
      OffsetGrows(source, k, j - 1);
      RuneFound(source, k + 1, j);
    }
  }

  /** A line break at the beginning of its line. */
  predicate IsEmptyLine(source: seq<byte>, k: nat) {
    RuneAt(source, k) == NEWLINE && PositionOf(source, k).linePos == 0
  }

  function TokenOf(source: seq<byte>, k: nat): Token
    requires Offset(source, k) < |source|
  {
    var a := Offset(source, k);
    Token(TokenAt(source, a).kind, source[a..TokenAt(source, a).end], PositionOf(source, k))
  }

  /** The tokens from rune `k` on. Blanks are skipped, with a token for every empty
      line; an error ends the stream. */
  function TokensFrom(source: seq<byte>, k: nat): seq<Token>
    decreases |source| - Offset(source, k)
  {
    var a := Offset(source, k);
    if a == |source| then []
    else if IsSkippable(source[a]) then
      (if IsEmptyLine(source, k) then [Token(EmptyLine, [], PositionOf(source, k))] else []) + TokensFrom(source, k + 1)
    else
      [TokenOf(source, k)]
      + if IsError(TokenAt(source, a).kind) then [] else TokensFrom(source, RuneFrom(source, k, TokenAt(source, a).end))
  }

  // ---- Bytes inside a rune change nothing ----

  ghost predicate NoAscii(source: seq<byte>, i: nat, j: nat) {
    i <= j <= |source| && forall x | i <= x < j :: source[x] >= 0x80
  }

  lemma {:induction false} SkipInLine(source: seq<byte>, i: nat, j: nat)
    requires NoAscii(source, i, j)
    ensures LineEnd(source, i) == LineEnd(source, j)
    decreases j - i
  {
    if i < j {
      SkipInLine(source, i + 1, j);
    }
  }

  lemma {:induction false} SkipInString(source: seq<byte>, i: nat, j: nat)
    requires NoAscii(source, i, j)
    ensures ScanString(source, i) == ScanString(source, j)
    decreases j - i
  {
    if i < j {
      SkipInString(source, i + 1, j);
    }
  }

  lemma {:induction false} SkipInComment(source: seq<byte>, i: nat, j: nat)
    requires NoAscii(source, i, j)
    ensures CommentEnd(source, i) == CommentEnd(source, j)
    decreases j - i
  {
    if i < j {
      SkipInComment(source, i + 1, j);
    }
  }
}
