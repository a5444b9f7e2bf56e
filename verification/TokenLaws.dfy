/**
  What the tokens of a source text are like: they tile it, they stand where their
  positions say, they look like their kinds, and comments and string literals end
  where they should, or exactly how they do not.
*/
module TokenLaws {
  import opened Wire
  import opened Utf8
  import opened Tokens

  // ---- Runes and bytes ----

  lemma PositionBytes(source: seq<byte>, k: nat)
    ensures PositionOf(source, k).sourcePosBytes == Offset(source, k) <= |source|
    ensures PositionOf(source, k).sourcePos == k
  {
  }

  /** A rune of one byte is that byte; a longer one has no ASCII byte. */
  lemma RuneBytes(source: seq<byte>, p: nat)
    requires p < |source|
    ensures var r := Decode(source[p..]);
      && (r.value < 0x80 ==> r.width == 1 && source[p] == r.value) && (r.value >= 0x80 ==> NoAscii(source, p, p + r.width))
      && NoAscii(source, p + 1, p + r.width)
  {
    hide Decode;
    var s := source[p..];
    assert s[0] == source[p];
    forall y | p + 1 <= y < p + Decode(s).width ensures source[y] >= 0x80 {
      NoAsciiInside(s, y - p);
      assert s[y - p] == source[y];
    }
  }

  lemma PunctuationIsAscii(c: nat)
    ensures SingleCharToken(c).Some? ==> c < 0x80 && !IsSkippable(c)
  {
  }

  lemma PunctuationIsNoError(c: nat)
    ensures SingleCharToken(c).Some? ==> !IsError(SingleCharToken(c).value)
  {
  }

  lemma NoPunctuation(b: byte, c: nat)
    requires SingleCharToken(c).None? && (c < 0x80 || b < 0x80 ==> b == c)
    ensures SingleCharToken(b).None?
  {
    PunctuationIsAscii(b);
  }

  lemma KeywordIsNoError(text: seq<byte>)
    ensures Keyword(text).Some? ==> !IsError(Keyword(text).value)
  {
    hide Ascii;
  }

  // ---- Scanning, step by step ----

  lemma DigitsStep(source: seq<byte>, i: nat)
    requires i <= |source|
    ensures DigitsEnd(source, i) == if i < |source| && IsDigit(source[i]) then DigitsEnd(source, i + 1) else i
  {
  }

  lemma HexStep(source: seq<byte>, i: nat)
    requires i <= |source|
    ensures HexEnd(source, i) == if i < |source| && IsHexDigit(source[i]) then HexEnd(source, i + 1) else i
  {
  }

  lemma NameStep(source: seq<byte>, i: nat)
    requires i <= |source|
    ensures NameEnd(source, i) == if i < |source| && IsNameRune(source[i]) then NameEnd(source, i + 1) else i
  {
  }

  lemma StringStep(source: seq<byte>, i: nat)
    requires i <= |source|
    ensures ScanString(source, i) ==
      if i == |source| || source[i] == NEWLINE then Lexeme(ErrorUnterminatedStringLiteral, i)
      else if Is(source[i], '"') then Lexeme(StringLiteral, i + 1)
      else if Is(source[i], '\\') && i + 1 < |source| then ScanString(source, i + 2)
      else ScanString(source, i + 1)
  {
  }

  // ---- The stream, step by step ----

  lemma NoneAtEnd(source: seq<byte>, k: nat)
    requires Offset(source, k) == |source|
    ensures TokensFrom(source, k) == []
  {
  }

  lemma StreamStep(source: seq<byte>, k: nat, j: nat)
    requires k <= j && (j == 0 || Offset(source, j - 1) < Offset(source, j))
    requires Offset(source, k) < |source| && !IsSkippable(source[Offset(source, k)])
    requires TokenAt(source, Offset(source, k)).end == Offset(source, j)
    ensures TokensFrom(source, k) ==
      [TokenOf(source, k)] + if IsError(TokenOf(source, k).kind) then [] else TokensFrom(source, j)
  {
    hide Offset, TokenAt, PositionOf;
    RuneFound(source, k, j);
  }

  lemma BlankStep(source: seq<byte>, k: nat)
    requires Offset(source, k) < |source| && IsSkippable(source[Offset(source, k)])
    ensures TokensFrom(source, k) ==
      (if IsEmptyLine(source, k) then [Token(EmptyLine, [], PositionOf(source, k))] else []) + TokensFrom(source, k + 1)
    ensures RuneAt(source, k) == source[Offset(source, k)]
  {
    hide PositionOf, IsEmptyLine, Offset;
    RuneBytes(source, Offset(source, k));
  }

  lemma Regroup(tokens: seq<Token>, t: seq<Token>, rest: seq<Token>)
    ensures tokens + (t + rest) == (tokens + t) + rest
    ensures tokens + ([] + rest) == tokens + rest
  {
  }

  // ---- What tokens look like ----

  predicate AllDigits(text: seq<byte>) { forall i | 0 <= i < |text| :: IsDigit(text[i]) }

  predicate AllHexDigits(text: seq<byte>) { forall i | 0 <= i < |text| :: IsHexDigit(text[i]) }

  predicate IsIdentifier(text: seq<byte>) {
    text != [] && IsNameStart(text[0]) && forall i | 0 <= i < |text| :: IsNameRune(text[i])
  }

  predicate Starts(text: seq<byte>, c: char) { text != [] && Is(text[0], c) }

  predicate Starts2(text: seq<byte>, c: char, d: char) { |text| >= 2 && Is(text[0], c) && Is(text[1], d) }

  /** Digits without a leading zero, or zero alone. */
  predicate IsWhole(text: seq<byte>) { text != [] && AllDigits(text) && (Is(text[0], '0') ==> |text| == 1) }

  predicate IsFraction(text: seq<byte>) { text == [] || (Starts(text, '.') && AllDigits(text[1..])) }

  predicate IsExponent(text: seq<byte>) {
    || text == []
    || (IsE(text[0]) && (AllDigits(text[1..]) || (|text| >= 2 && (Is(text[1], '+') || Is(text[1], '-')) && AllDigits(text[2..]))))
  }

  /** A whole number followed by a fraction, an exponent or both. */
  ghost predicate IsFloat(text: seq<byte>) {
    exists a, b :: 0 <= a <= b <= |text| && a < |text| && IsWhole(text[..a]) && IsFraction(text[a..b]) && IsExponent(text[b..])
  }

  /** The text of the tokens that have only one. */
  function Spelling(kind: TokenKind): Option<string> {
    match kind
    case LParen => Some("(")
    case RParen => Some(")")
    case LBracket => Some("[")
    case RBracket => Some("]")
    case LBrace => Some("{")
    case RBrace => Some("}")
    case LAngle => Some("<")
    case RAngle => Some(">")
    case Semi => Some(";")
    case Comma => Some(",")
    case Dot => Some(".")
    case Minus => Some("-")
    case Plus => Some("+")
    case Amp => Some("&")
    case Qstn => Some("?")
    case Equals => Some("=")
    case Response => Some("=>")
    case Import => Some("import")
    case Module => Some("module")
    case Struct => Some("struct")
    case Union => Some("union")
    case Interface => Some("interface")
    case Enum => Some("enum")
    case Const => Some("const")
    case True => Some("true")
    case False => Some("false")
    case Default => Some("default")
    case _ => None
  }

  ghost predicate Spelled(kind: TokenKind, text: seq<byte>) { Spelling(kind).Some? && text == Ascii(Spelling(kind).value) }

  predicate IsHexNumber(text: seq<byte>) { (Starts2(text, '0', 'x') || Starts2(text, '0', 'X')) && AllHexDigits(text[2..]) }

  predicate IsOrdinal(text: seq<byte>) { Starts(text, '@') && AllDigits(text[1..]) }

  predicate IsLineComment(text: seq<byte>) { Starts2(text, '/', '/') && forall i | 0 <= i < |text| :: !Is(text[i], '\n') }

  ghost predicate Shaped(kind: TokenKind, text: seq<byte>) {
    match kind
    case EmptyLine => text == []
    case Name => IsIdentifier(text) && forall k :: !Spelled(k, text)
    case Ordinal => IsOrdinal(text)
    case IntConstDec => IsWhole(text)
    case IntConstHex => IsHexNumber(text)
    case FloatConst => IsFloat(text)
    case StringLiteral => |text| >= 2 && Is(text[0], '"') && Is(text[|text| - 1], '"')
    case SingleLineComment => IsLineComment(text)
    case MultiLineComment => |text| >= 4 && Starts2(text, '/', '*') && Starts2(text[|text| - 2..], '*', '/')
    case ErrorIllegalChar => text != []
    case ErrorUnterminatedStringLiteral => Starts(text, '"')
    case ErrorUnterminatedComment => Starts2(text, '/', '*')
    case _ => Spelled(kind, text)
  }

  /** The longest run: all digits, and none behind. */
  lemma {:induction false} DigitsRun(source: seq<byte>, i: nat)
    requires i <= |source|
    ensures AllDigits(source[i..DigitsEnd(source, i)]) && !IsDigit(Next(source, DigitsEnd(source, i)))
    decreases |source| - i
  {
    if i < |source| && IsDigit(source[i]) {
      DigitsRun(source, i + 1);
      assert source[i..DigitsEnd(source, i)] == [source[i]] + source[i + 1..DigitsEnd(source, i)];
    }
  }

  lemma {:induction false} HexRun(source: seq<byte>, i: nat)
    requires i <= |source|
    ensures AllHexDigits(source[i..HexEnd(source, i)]) && !IsHexDigit(Next(source, HexEnd(source, i)))
    decreases |source| - i
  {
    if i < |source| && IsHexDigit(source[i]) {
      HexRun(source, i + 1);
      assert source[i..HexEnd(source, i)] == [source[i]] + source[i + 1..HexEnd(source, i)];
    }
  }

  lemma {:induction false} NameRun(source: seq<byte>, i: nat)
    requires i <= |source|
    ensures !IsNameRune(Next(source, NameEnd(source, i))) && forall x | i <= x < NameEnd(source, i) :: IsNameRune(source[x])
    decreases |source| - i
  {
    if i < |source| && IsNameRune(source[i]) {
      NameRun(source, i + 1);
    }
  }

  lemma {:induction false} LineRun(source: seq<byte>, i: nat)
    requires i <= |source|
    ensures var r := LineEnd(source, i); (r < |source| ==> source[r] == NEWLINE) && forall x | i <= x < r :: source[x] != NEWLINE
    decreases |source| - i
  {
    if i < |source| && source[i] != NEWLINE {
      LineRun(source, i + 1);
    }
  }

  lemma {:induction false} StringRun(source: seq<byte>, i: nat)
    requires i <= |source|
    ensures var r := ScanString(source, i);
      || (r.kind.StringLiteral? && i < r.end && Is(source[r.end - 1], '"'))
      || (r.kind.ErrorUnterminatedStringLiteral? && (r.end < |source| ==> source[r.end] == NEWLINE))
    decreases |source| - i
  {
    if i < |source| {
      StringRun(source, i + 1);
      if i + 1 < |source| {
        StringRun(source, i + 2);
      }
    }
  }

  lemma {:induction false} CommentRun(source: seq<byte>, i: nat)
    requires i <= |source|
    ensures var r := CommentEnd(source, i); r.Some? ==> Is(source[r.value - 2], '*') && Is(source[r.value - 1], '/')
    decreases |source| - i
  {
    if i < |source| {
      CommentRun(source, i + 1);
      if i + 1 < |source| {
        CommentRun(source, i + 2);
      }
    }
  }

  lemma ExponentShape(source: seq<byte>, i: nat)
    requires i < |source| && IsE(source[i])
    ensures var r := ScanExponent(source, i); r.kind.FloatConst? && IsExponent(source[i..r.end])
  {
    hide DigitsEnd, AllDigits;
    var text := source[i..ScanExponent(source, i).end];
    DigitsRun(source, i + 1);
    assert text[1..] == source[i + 1..ScanExponent(source, i).end];
    if i + 1 < |source| {
      DigitsRun(source, i + 2);
      assert |text| >= 2 ==> text[2..] == source[i + 2..ScanExponent(source, i).end];
    }
  }

  /** From the end of the whole part on. */
  lemma FloatShape(source: seq<byte>, a: nat, i: nat)
    requires a < i < |source| && IsWhole(source[a..i]) && (IsE(source[i]) || Is(source[i], '.'))
    ensures var r := if IsE(source[i]) then ScanExponent(source, i) else ScanFraction(source, i);
      r.kind.FloatConst? && IsFloat(source[a..r.end])
  {
    hide IsWhole, IsFraction, IsExponent, DigitsEnd, ScanExponent;
    var end := if IsE(source[i]) then ScanExponent(source, i).end else ScanFraction(source, i).end;
    var text := source[a..end];
    NoPart();
    assert text[..i - a] == source[a..i];
    if IsE(source[i]) {
      ExponentShape(source, i);
      assert text[i - a..i - a] == [] && text[i - a..] == source[i..end];
    } else {
      var j := DigitsEnd(source, i + 1);
      FractionShape(source, i);
      assert text[i - a..j - a] == source[i..j] && text[j - a..] == source[j..end];
      if IsE(Next(source, j)) {
        ExponentShape(source, j);
      }
    }
  }

  lemma NoPart()
    ensures IsFraction([]) && IsExponent([])
  {
  }

  lemma FractionShape(source: seq<byte>, i: nat)
    requires i < |source| && Is(source[i], '.')
    ensures IsFraction(source[i..DigitsEnd(source, i + 1)])
  {
    hide DigitsEnd;
    DigitsRun(source, i + 1);
    assert source[i..DigitsEnd(source, i + 1)][1..] == source[i + 1..DigitsEnd(source, i + 1)];
  }

  lemma NumberShape(source: seq<byte>, i: nat)
    requires i < |source| && IsDigit(source[i])
    ensures var r := if Is(source[i], '0') then ScanZero(source, i) else ScanDec(source, i); Shaped(r.kind, source[i..r.end])
  {
    hide DigitsEnd, HexEnd, IsFloat, ScanExponent, ScanFraction;
    if Is(source[i], '0') {
      assert source[i..i + 1] == [source[i]];
      var c := Next(source, i + 1);
      if Is(c, 'x') || Is(c, 'X') {
        HexRun(source, i + 2);
        var r := HexEnd(source, i + 2);
        assert source[i..r][2..] == source[i + 2..r];
      } else if Is(c, '.') || IsE(c) {
        FloatShape(source, i, i + 1);
      }
    } else {
      DigitsRun(source, i);
      DigitsStep(source, i);
      var j := DigitsEnd(source, i);
      assert source[i..j][0] == source[i];
      if IsE(Next(source, j)) || Is(Next(source, j), '.') {
        FloatShape(source, i, j);
      }
    }
  }

  lemma NameShape(source: seq<byte>, i: nat)
    requires i < |source| && IsNameStart(source[i])
    ensures var r := ScanName(source, i); Shaped(r.kind, source[i..r.end]) && !IsError(r.kind) && IsIdentifier(source[i..r.end])
  {
    hide NameEnd, Keyword, Spelled;
    NameRun(source, i + 1);
    var text := source[i..NameEnd(source, i + 1)];
    KeywordShape(text);
    if Keyword(text).None? {
      forall k ensures !Spelled(k, text) {
        NotSpelled(k, text);
      }
    }
  }

  lemma KeywordShape(text: seq<byte>)
    ensures Keyword(text).Some? ==> Shaped(Keyword(text).value, text) && !IsError(Keyword(text).value)
  {
    hide Ascii;
  }

  /** The identifiers among the spelled tokens are the keywords. */
  lemma NotSpelled(kind: TokenKind, text: seq<byte>)
    requires IsIdentifier(text) && Keyword(text).None?
    ensures !Spelled(kind, text)
  {
    hide Ascii, IsIdentifier;
    if Spelled(kind, text) && !(kind.Import? || kind.Module? || kind.Struct? || kind.Union? || kind.Interface? || kind.Enum? || kind.Const?
         || kind.True? || kind.False? || kind.Default?) {
      MarkIsNoName(kind, text);
    }
  }

  predicate IsMark(kind: TokenKind) {
    kind.LParen? || kind.RParen? || kind.LBracket? || kind.RBracket? || kind.LBrace? || kind.RBrace? || kind.LAngle? || kind.RAngle? || kind.Semi?
    || kind.Comma? || kind.Dot? || kind.Minus? || kind.Plus? || kind.Amp? || kind.Qstn? || kind.Equals? || kind.Response?
  }

  lemma MarkIsNoName(kind: TokenKind, text: seq<byte>)
    requires IsMark(kind) && Spelled(kind, text)
    ensures text != [] && !IsNameStart(text[0]) && !IsIdentifier(text)
  {
  }

  lemma SlashShape(source: seq<byte>, i: nat)
    requires i < |source| && Is(source[i], '/')
    ensures var r := ScanSlash(source, i); Shaped(r.kind, source[i..r.end])
  {
    hide LineEnd, CommentEnd;
    if Is(Next(source, i + 1), '/') {
      LineRun(source, i + 2);
    } else if Is(Next(source, i + 1), '*') {
      CommentRun(source, i + 2);
      var end := ScanComment(source, i + 2).end;
      var text := source[i..end];
      assert CommentEnd(source, i + 2).Some? ==> text[|text| - 2..] == [source[end - 2], source[end - 1]];
    }
  }

  lemma PunctuationShape(c: byte)
    ensures SingleCharToken(c).Some? ==> Shaped(SingleCharToken(c).value, [c])
  {
    hide Keyword;
  }

  lemma EqualsShape(text: seq<byte>)
    ensures text == [Code('=')] ==> Shaped(Equals, text)
    ensures text == [Code('='), Code('>')] ==> Shaped(Response, text)
  {
  }

  /** Every token looks like its kind. */
  lemma TokenShape(source: seq<byte>, i: nat)
    requires i < |source|
    ensures var r := TokenAt(source, i); Shaped(r.kind, source[i..r.end])
  {
    hide Decode, DigitsEnd, NameEnd, ScanString, ScanName, ScanZero, ScanDec, ScanSlash, Keyword, SingleCharToken;
    var c, r := source[i], TokenAt(source, i);
    assert source[i..i + 1] == [c];
    PunctuationShape(c);
    if SingleCharToken(c).Some? {
    } else if Is(c, '=') {
      EqualsShape(source[i..r.end]);
    } else if IsNameStart(c) {
      NameShape(source, i);
    } else if Is(c, '@') {
      DigitsRun(source, i + 1);
      assert source[i..r.end][1..] == source[i + 1..r.end];
    } else if IsDigit(c) {
      NumberShape(source, i);
    } else if Is(c, '"') {
      StringRun(source, i + 1);
    } else if Is(c, '/') {
      SlashShape(source, i);
    }
  }

  // ---- Tokens end where runes end ----

  /** No rune goes on over this place. */
  predicate Soft(source: seq<byte>, e: nat) { e >= |source| || source[e] < 0x80 || (0 < e && source[e - 1] < 0x80) }

  lemma {:induction false} DigitsSoft(source: seq<byte>, i: nat)
    requires 0 < i <= |source| && source[i - 1] < 0x80
    ensures Soft(source, DigitsEnd(source, i))
    decreases |source| - i
  {
    if i < |source| && IsDigit(source[i]) {
      DigitsSoft(source, i + 1);
    }
  }

  lemma {:induction false} HexSoft(source: seq<byte>, i: nat)
    requires 0 < i <= |source| && source[i - 1] < 0x80
    ensures Soft(source, HexEnd(source, i))
    decreases |source| - i
  {
    if i < |source| && IsHexDigit(source[i]) {
      HexSoft(source, i + 1);
    }
  }

  lemma {:induction false} NameSoft(source: seq<byte>, i: nat)
    requires 0 < i <= |source| && source[i - 1] < 0x80
    ensures Soft(source, NameEnd(source, i))
    decreases |source| - i
  {
    if i < |source| && IsNameRune(source[i]) {
      NameSoft(source, i + 1);
    }
  }

  lemma ExponentSoft(source: seq<byte>, i: nat)
    requires i < |source| && source[i] < 0x80
    ensures Soft(source, ScanExponent(source, i).end)
  {
    hide DigitsEnd, Soft;
    DigitsSoft(source, i + 1);
    if i + 1 < |source| && source[i + 1] < 0x80 {
      DigitsSoft(source, i + 2);
    }
  }

  lemma FractionSoft(source: seq<byte>, i: nat)
    requires i < |source| && source[i] < 0x80
    ensures Soft(source, ScanFraction(source, i).end)
  {
    hide DigitsEnd, ScanExponent, Soft;
    DigitsSoft(source, i + 1);
    var j := DigitsEnd(source, i + 1);
    if IsE(Next(source, j)) {
      ExponentSoft(source, j);
    }
  }

  lemma NumberSoft(source: seq<byte>, i: nat)
    requires i < |source| && IsDigit(source[i])
    ensures Soft(source, (if Is(source[i], '0') then ScanZero(source, i) else ScanDec(source, i)).end)
  {
    hide DigitsEnd, HexEnd, ScanExponent, ScanFraction;
    DigitsStep(source, i);
    DigitsSoft(source, i + 1);
    var j := if Is(source[i], '0') then i + 1 else DigitsEnd(source, i);
    if j < |source| && source[j] < 0x80 {
      ExponentSoft(source, j);
      FractionSoft(source, j);
      HexSoft(source, j + 1);
    }
  }

  lemma TokenSoft(source: seq<byte>, i: nat)
    requires i < |source| && source[i] < 0x80
    ensures Soft(source, TokenAt(source, i).end)
  {
    hide Decode, DigitsEnd, NameEnd, LineEnd, CommentEnd, ScanString, ScanZero, ScanDec, Keyword, SingleCharToken;
    var c := source[i];
    assert source[i..][0] == c;
    NameSoft(source, i + 1);
    DigitsSoft(source, i + 1);
    StringRun(source, i + 1);
    if IsDigit(c) {
      NumberSoft(source, i);
    }
    if i + 1 < |source| {
      LineRun(source, i + 2);
      CommentRun(source, i + 2);
    }
  }

  /** A place that no rune goes over is where a rune begins. */
  lemma {:induction false} RuneBegins(source: seq<byte>, k: nat, e: nat)
    requires Offset(source, k) <= e <= |source| && Soft(source, e)
    ensures Offset(source, RuneFrom(source, k, e)) == e
    decreases |source| - Offset(source, k)
  {
    hide Offset, Decode, Soft;
    var o := Offset(source, k);
    if o < e {
      OffsetStep(source, k);
      NotInside(source, o, e);
      RuneBegins(source, k + 1, e);
    }
  }

  lemma NotInside(source: seq<byte>, o: nat, e: nat)
    requires o < e <= |source| && Soft(source, e)
    ensures o + Decode(source[o..]).width <= e
  {
    hide Decode;
    RuneBytes(source, o);
  }

  lemma TokenOnRunes(source: seq<byte>, k: nat)
    requires Offset(source, k) < |source|
    ensures Offset(source, RuneFrom(source, k, TokenAt(source, Offset(source, k)).end)) == TokenAt(source, Offset(source, k)).end
  {
    hide Offset, Decode, TokenAt, Soft;
    var a := Offset(source, k);
    if source[a] < 0x80 {
      TokenSoft(source, a);
      RuneBegins(source, k, TokenAt(source, a).end);
    } else {
      OtherRune(source, a);
      OffsetStep(source, k);
      RuneFound(source, k, k + 1);
    }
  }

  lemma OtherRune(source: seq<byte>, i: nat)
    requires i < |source| && source[i] >= 0x80
    ensures TokenAt(source, i) == Lexeme(ErrorIllegalChar, i + Decode(source[i..]).width)
  {
    hide Decode;
  }

  // ---- Tiling ----

  /** Nothing but blanks in [a, b). */
  ghost predicate Blank(source: seq<byte>, a: nat, b: nat) {
    a <= b <= |source| && forall i | a <= i < b :: IsSkippable(source[i])
  }

  /** The tokens and the blanks between them make up the source from `a` to
      `end`. */
  ghost predicate Tiles(source: seq<byte>, tokens: seq<Token>, a: nat, end: nat)
    decreases |tokens|
  {
    if tokens == [] then Blank(source, a, end)
    else
      var t, b := tokens[0], tokens[0].position.sourcePosBytes;
      Blank(source, a, b) && b + |t.text| <= |source| && source[b..b + |t.text|] == t.text && Tiles(source, tokens[1..], b + |t.text|, end)
  }

  lemma BlankFirst(source: seq<byte>, tokens: seq<Token>, a: nat, end: nat)
    requires a < |source| && IsSkippable(source[a]) && Tiles(source, tokens, a + 1, end)
    ensures Tiles(source, tokens, a, end)
  {
  }

  lemma TokenFirst(source: seq<byte>, t: Token, tokens: seq<Token>, end: nat)
    requires t.position.sourcePosBytes + |t.text| <= |source|
    requires source[t.position.sourcePosBytes..t.position.sourcePosBytes + |t.text|] == t.text
    requires Tiles(source, tokens, t.position.sourcePosBytes + |t.text|, end)
    ensures Tiles(source, [t] + tokens, t.position.sourcePosBytes, end)
  {
    assert ([t] + tokens)[1..] == tokens;
  }

  /** A token is where its position says, and looks like its kind. */
  ghost predicate Proper(source: seq<byte>, tokens: seq<Token>) {
    forall i | 0 <= i < |tokens| ::
      tokens[i].position == PositionOf(source, tokens[i].position.sourcePos) && Shaped(tokens[i].kind, tokens[i].text)
  }

  ghost predicate Clean(tokens: seq<Token>) {
    forall i | 0 <= i < |tokens| :: !IsError(tokens[i].kind)
  }

  /** No token but the last is an error. */
  ghost predicate CleanToLast(tokens: seq<Token>) {
    forall i | 0 <= i < |tokens| - 1 :: !IsError(tokens[i].kind)
  }

  /** The end of the source, or of the error at the end of the stream. */
  function StreamEnd(source: seq<byte>, tokens: seq<Token>): nat {
    if tokens == [] then |source|
    else
      var t := tokens[|tokens| - 1];
      if IsError(t.kind) then t.position.sourcePosBytes + |t.text| else |source|
  }

  ghost predicate Lawful(source: seq<byte>, tokens: seq<Token>, a: nat) {
    Tiles(source, tokens, a, StreamEnd(source, tokens)) && Proper(source, tokens) && CleanToLast(tokens)
  }

  lemma OneMore(source: seq<byte>, t: Token, rest: seq<Token>)
    requires Lawful(source, rest, t.position.sourcePosBytes + |t.text|) && !IsError(t.kind)
    requires t.position == PositionOf(source, t.position.sourcePos) && Shaped(t.kind, t.text)
    requires t.position.sourcePosBytes + |t.text| <= |source|
    requires source[t.position.sourcePosBytes..t.position.sourcePosBytes + |t.text|] == t.text
    ensures Lawful(source, [t] + rest, t.position.sourcePosBytes)
  {
    hide Shaped, PositionOf, Tiles;
    var ts := [t] + rest;
    assert rest != [] ==> ts[|ts| - 1] == rest[|rest| - 1];
    TokenFirst(source, t, rest, StreamEnd(source, rest));
    assert forall i | 0 < i < |ts| :: ts[i] == rest[i - 1];
  }

  lemma LastError(source: seq<byte>, t: Token)
    requires IsError(t.kind) && t.position == PositionOf(source, t.position.sourcePos) && Shaped(t.kind, t.text)
    requires t.position.sourcePosBytes + |t.text| <= |source|
    requires source[t.position.sourcePosBytes..t.position.sourcePosBytes + |t.text|] == t.text
    ensures Lawful(source, [t], t.position.sourcePosBytes)
  {
    hide Shaped, PositionOf, Tiles;
    NoTokens(source, t.position.sourcePosBytes + |t.text|);
    TokenFirst(source, t, [], t.position.sourcePosBytes + |t.text|);
    assert [t] + [] == [t];
  }

  lemma NoTokens(source: seq<byte>, a: nat)
    requires a <= |source|
    ensures Tiles(source, [], a, a)
  {
  }

  lemma BlankMore(source: seq<byte>, tokens: seq<Token>, a: nat)
    requires a < |source| && IsSkippable(source[a]) && Lawful(source, tokens, a + 1)
    ensures Lawful(source, tokens, a)
  {
    hide Tiles, Proper, CleanToLast;
    BlankFirst(source, tokens, a, StreamEnd(source, tokens));
  }

  /** The tokens of a source text and the blanks between them make it up, from its
      beginning to its end or to the end of an error. Every token is where its
      position says, counted in runes, bytes and lines, and looks like its kind. No
      token but the last is an error. */
  lemma {:induction false} StreamLaws(source: seq<byte>, k: nat)
    ensures Lawful(source, TokensFrom(source, k), Offset(source, k))
    decreases |source| - Offset(source, k)
  {
    hide Offset, Decode, TokenAt, PositionOf, Shaped, Lawful, TokensFrom, RuneFrom;
    var a := Offset(source, k);
    PositionBytes(source, k);
    if a == |source| {
      NoneAtEnd(source, k);
      EmptyLawful(source);
    } else if IsSkippable(source[a]) {
      StreamLaws(source, k + 1) by {
        OffsetStep(source, k);
      }
      BlankStep(source, k);
      BlankWidth(source, k);
      BlankMore(source, TokensFrom(source, k + 1), a);
      var t := Token(EmptyLine, [], PositionOf(source, k));
      NoBlank(t);
      assert source[a..a] == [];
      if IsEmptyLine(source, k) {
        OneMore(source, t, TokensFrom(source, k + 1));
      } else {
        assert [] + TokensFrom(source, k + 1) == TokensFrom(source, k + 1);
      }
    } else {
      var t, end := TokenOf(source, k), TokenAt(source, a).end;
      TokenShape(source, a);
      TokenOnRunes(source, k);
      TokenThen(source, k);
      if IsError(t.kind) {
        LastError(source, t);
      } else {
        StreamLaws(source, RuneFrom(source, k, end));
        OneMore(source, t, TokensFrom(source, RuneFrom(source, k, end)));
      }
    }
  }

  lemma TokenThen(source: seq<byte>, k: nat)
    requires Offset(source, k) < |source| && !IsSkippable(source[Offset(source, k)])
    ensures var rest := TokensFrom(source, RuneFrom(source, k, TokenAt(source, Offset(source, k)).end));
      TokensFrom(source, k) == if IsError(TokenOf(source, k).kind) then [TokenOf(source, k)] else [TokenOf(source, k)] + rest
  {
    hide Offset, TokenAt, PositionOf, RuneFrom;
  }

  lemma BlankWidth(source: seq<byte>, k: nat)
    requires Offset(source, k) < |source| && IsSkippable(source[Offset(source, k)])
    ensures Offset(source, k + 1) == Offset(source, k) + 1
  {
    hide Decode, Offset;
    OffsetStep(source, k);
    RuneBytes(source, Offset(source, k));
    assert source[Offset(source, k)..][0] == source[Offset(source, k)];
  }

  lemma NoBlank(t: Token)
    requires t.kind == EmptyLine && t.text == []
    ensures Shaped(t.kind, t.text) && !IsError(t.kind)
  {
  }

  lemma EmptyLawful(source: seq<byte>)
    ensures Lawful(source, [], |source|)
  {
  }
}
