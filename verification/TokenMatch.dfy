/**
  Tokens are as long as they can be: what the lexer takes is the longest text that is
  a token at all, and it gives up only where no text is. Empty lines have a token
  each.
*/
module TokenMatch {
  import opened Wire
  import opened Utf8
  import opened Tokens
  import opened TokenLaws

  /** The text is a token. */
  ghost predicate Legal(text: seq<byte>) {
    exists kind :: IsToken(kind, text)
  }

  ghost predicate IsToken(kind: TokenKind, text: seq<byte>) { !IsError(kind) && !kind.EmptyLine? && Shaped(kind, text) }

  ghost predicate IsNumber(text: seq<byte>) { IsWhole(text) || IsHexNumber(text) || IsFloat(text) }

  // ---- What begins how ----

  predicate Lower(s: string) { s != "" && forall i | 0 <= i < |s| :: 'a' <= s[i] <= 'z' }

  lemma LowerIsName(s: string)
    requires Lower(s)
    ensures IsIdentifier(Ascii(s))
  {
  }

  lemma KeywordIsLower(kind: TokenKind)
    requires Spelling(kind).Some? && !IsMark(kind)
    ensures Lower(Spelling(kind).value)
  {
  }

  lemma KeywordIsName(kind: TokenKind, text: seq<byte>)
    requires Spelled(kind, text) && !IsMark(kind)
    ensures IsIdentifier(text)
  {
    hide Ascii, IsIdentifier, Lower, Spelling;
    KeywordIsLower(kind);
    LowerIsName(Spelling(kind).value);
  }

  /** A mark of one character. */
  predicate Mark(c: nat) {
    c < 0x80 && SingleCharToken(c).Some? && !IsDigit(c) && !Is(c, '@') && !Is(c, '/') && !Is(c, '"') && !Is(c, '=')
  }

  lemma MarkSpelling(kind: TokenKind)
    requires IsMark(kind) && !kind.Equals? && !kind.Response?
    ensures |Spelling(kind).value| == 1 && Mark(Code(Spelling(kind).value[0]))
  {
  }

  lemma MarkText(kind: TokenKind, text: seq<byte>)
    requires Spelled(kind, text) && IsMark(kind)
    ensures text != []
    ensures if kind.Equals? then text == [Code('=')] else if kind.Response? then text == [Code('='), Code('>')] else |text| == 1 && Mark(text[0])
  {
    hide Mark, SingleCharToken;
    if !kind.Equals? && !kind.Response? {
      MarkSpelling(kind);
    }
  }

  lemma FloatBegins(text: seq<byte>)
    requires IsFloat(text)
    ensures text != [] && IsDigit(text[0])
  {
    var a, b :| 0 <= a <= b <= |text| && a < |text| && IsWhole(text[..a]) && IsFraction(text[a..b]) && IsExponent(text[b..]);
    assert text[..a][0] == text[0];
  }

  /** The first byte says what a token can be. */
  ghost predicate Begins(text: seq<byte>) {
    text != [] && var c := text[0];
    if IsNameStart(c) then IsIdentifier(text)
    else if IsDigit(c) then IsNumber(text)
    else if Is(c, '@') then IsOrdinal(text)
    else if Is(c, '/') then IsLineComment(text) || Starts2(text, '/', '*')
    else if Is(c, '=') then text == [c] || text == [c, Code('>')]
    else if Is(c, '"') then |text| >= 2
    else |text| == 1 && SingleCharToken(c).Some?
  }

  lemma TokenBegins(kind: TokenKind, text: seq<byte>)
    requires IsToken(kind, text)
    ensures Begins(text)
  {
    hide IsFloat, Spelled, SingleCharToken, AllDigits, AllHexDigits;
    match kind
    case FloatConst => FloatBegins(text);
    case Name =>
    case Ordinal =>
    case IntConstDec => WholeBegins(text);
    case IntConstHex =>
    case StringLiteral =>
    case SingleLineComment =>
    case MultiLineComment =>
    case _ =>
      if IsMark(kind) {
        MarkText(kind, text);
        MarkIsNoName(kind, text);
      } else {
        KeywordIsName(kind, text);
      }
  }

  lemma WholeBegins(text: seq<byte>)
    requires IsWhole(text)
    ensures IsDigit(text[0])
  {
  }

  // ---- Runs cannot be longer ----

  lemma NoLongerDigits(source: seq<byte>, i: nat, e: nat)
    requires i <= |source| && DigitsEnd(source, i) < e <= |source|
    ensures !AllDigits(source[i..e])
  {
    hide DigitsEnd;
    DigitsRun(source, i);
    var r := DigitsEnd(source, i);
    assert source[i..e][r - i] == source[r];
  }

  lemma NoLongerHex(source: seq<byte>, i: nat, e: nat)
    requires i <= |source| && HexEnd(source, i) < e <= |source|
    ensures !AllHexDigits(source[i..e])
  {
    hide HexEnd;
    HexRun(source, i);
    var r := HexEnd(source, i);
    assert source[i..e][r - i] == source[r];
  }

  lemma NoLongerName(source: seq<byte>, i: nat, e: nat)
    requires i < |source| && NameEnd(source, i + 1) < e <= |source|
    ensures !IsIdentifier(source[i..e])
  {
    hide NameEnd;
    NameRun(source, i + 1);
    var r := NameEnd(source, i + 1);
    assert source[i..e][r - i] == source[r];
  }

  lemma NoLongerLine(source: seq<byte>, i: nat, e: nat)
    requires i + 2 <= |source| && LineEnd(source, i + 2) < e <= |source|
    ensures !IsLineComment(source[i..e])
  {
    hide LineEnd;
    LineRun(source, i + 2);
    var r := LineEnd(source, i + 2);
    assert source[i..e][r - i] == source[r];
  }

  // ---- Numbers ----

  lemma NoLongerExponent(source: seq<byte>, k: nat, e: nat)
    requires k < |source| && IsE(source[k]) && ScanExponent(source, k).end < e <= |source|
    ensures !IsExponent(source[k..e])
  {
    hide DigitsEnd, AllDigits;
    var t := source[k..e];
    assert t[1..] == source[k + 1..e];
    var signed := Is(Next(source, k + 1), '+') || Is(Next(source, k + 1), '-');
    if signed {
      assert t[2..] == source[k + 2..e];
      NoLongerDigits(source, k + 2, e);
      SignIsNoDigit(t[1..]);
    } else {
      NoLongerDigits(source, k + 1, e);
    }
  }

  lemma SignIsNoDigit(t: seq<byte>)
    ensures t != [] && (Is(t[0], '+') || Is(t[0], '-')) ==> !AllDigits(t)
  {
  }

  /** A fraction, an exponent or both. */
  ghost predicate IsTail(t: seq<byte>) {
    exists b :: 0 <= b <= |t| && IsFraction(t[..b]) && IsExponent(t[b..])
  }

  lemma NoLongerTail(source: seq<byte>, j: nat, e: nat)
    requires j < |source| && (IsE(source[j]) || Is(source[j], '.')) && e <= |source|
    requires (if IsE(source[j]) then ScanExponent(source, j) else ScanFraction(source, j)).end < e
    ensures !IsTail(source[j..e])
  {
    hide IsFraction, IsExponent, ScanExponent, ScanFraction;
    var t := source[j..e];
    forall b | 0 <= b <= |t| ensures !(IsFraction(t[..b]) && IsExponent(t[b..])) {
      if IsE(source[j]) {
        NoLongerExponent(source, j, e);
        OnlyExponent(t, b);
        assert t[0..] == t;
      } else {
        AfterFraction(source, j, e, b);
      }
    }
  }

  lemma OnlyExponent(t: seq<byte>, b: nat)
    requires b <= |t| && t != [] && IsE(t[0])
    ensures IsFraction(t[..b]) ==> b == 0
  {
    hide AllDigits;
    if b > 0 {
      assert t[..b][0] == t[0];
    }
  }

  lemma AfterFraction(source: seq<byte>, j: nat, e: nat, b: nat)
    requires j < |source| && Is(source[j], '.') && ScanFraction(source, j).end < e <= |source| && b <= e - j
    ensures !(IsFraction(source[j..e][..b]) && IsExponent(source[j..e][b..]))
  {
    hide DigitsEnd, ScanExponent, AllDigits;
    var t, k := source[j..e], DigitsEnd(source, j + 1);
    DigitsRun(source, j + 1);
    if IsFraction(t[..b]) && IsExponent(t[b..]) {
      PointIsNoE(t);
      assert t[..b][1..] == source[j + 1..j + b];
      if j + b > k {
        NoLongerDigits(source, j + 1, j + b);
      } else {
        assert t[b..][0] == source[j + b];
        if j + b < k {
          InRun(source, j + 1, j + b);
        } else {
          assert t[b..] == source[k..e];
          NoLongerExponent(source, k, e);
        }
      }
    }
  }

  lemma PointIsNoE(t: seq<byte>)
    requires t != [] && Is(t[0], '.')
    ensures !IsExponent(t) && IsExponent(t[0..]) == IsExponent(t)
  {
    assert t[0..] == t;
  }

  lemma InRun(source: seq<byte>, i: nat, x: nat)
    requires i <= |source| && i <= x < DigitsEnd(source, i)
    ensures IsDigit(source[x])
  {
    hide DigitsEnd;
    DigitsRun(source, i);
    assert source[i..DigitsEnd(source, i)][x - i] == source[x];
  }

  /** A float has its whole part, and the tail behind it. */
  lemma FloatParts(text: seq<byte>) returns (a: nat)
    requires IsFloat(text)
    ensures 0 < a < |text| && IsWhole(text[..a]) && IsTail(text[a..]) && (Is(text[a], '.') || IsE(text[a]))
  {
    hide AllDigits;
    var x, y :| 0 <= x <= y <= |text| && x < |text| && IsWhole(text[..x]) && IsFraction(text[x..y]) && IsExponent(text[y..]);
    a := x;
    var t, b := text[a..], y - x;
    assert t[..b] == text[x..y] && t[b..] == text[y..];
    if b > 0 {
      assert t[..b][0] == text[a];
    } else {
      assert t[b..][0] == text[a];
    }
  }

  /** The whole part of a float that begins at `i` ends with the digits there, or with
      the leading zero. */
  lemma WholeEnds(source: seq<byte>, i: nat, e: nat, a: nat)
    requires i < e <= |source| && 0 < a < e - i && IsWhole(source[i..e][..a]) && !IsDigit(source[i + a])
    ensures IsDigit(source[i]) && a == if Is(source[i], '0') then 1 else DigitsEnd(source, i) - i
  {
    hide DigitsEnd;
    var w := source[i..e][..a];
    assert w == source[i..i + a] && w[0] == source[i];
    DigitsRun(source, i);
    var r := DigitsEnd(source, i);
    if i + a > r {
      NoLongerDigits(source, i, i + a);
    } else if i + a < r {
      InRun(source, i, i + a);
    }
  }

  lemma NoLongerFloat(source: seq<byte>, i: nat, e: nat)
    requires i < |source| && IsDigit(source[i]) && e <= |source|
    requires (if Is(source[i], '0') then ScanZero(source, i) else ScanDec(source, i)).end < e
    ensures !IsFloat(source[i..e])
  {
    hide DigitsEnd, HexEnd, IsWhole, IsTail, IsFloat, ScanExponent, ScanFraction;
    if IsFloat(source[i..e]) {
      var text := source[i..e];
      var a := FloatParts(text);
      assert text[a] == source[i + a];
      WholeEnds(source, i, e, a);
      var j := i + a;
      assert text[a..] == source[j..e];
      NoLongerTail(source, j, e);
    }
  }

  lemma NoLongerWhole(source: seq<byte>, i: nat, e: nat)
    requires i < |source| && IsDigit(source[i]) && e <= |source|
    requires (if Is(source[i], '0') then ScanZero(source, i) else ScanDec(source, i)).end < e
    ensures !IsWhole(source[i..e])
  {
    hide DigitsEnd, HexEnd, AllDigits;
    if !Is(source[i], '0') {
      NoLongerDigits(source, i, e);
    }
  }

  lemma NoLongerHexNumber(source: seq<byte>, i: nat, e: nat)
    requires i < |source| && IsDigit(source[i]) && e <= |source|
    requires (if Is(source[i], '0') then ScanZero(source, i) else ScanDec(source, i)).end < e
    ensures !IsHexNumber(source[i..e])
  {
    hide DigitsEnd, HexEnd, AllHexDigits, ScanExponent, ScanFraction;
    var text := source[i..e];
    if Starts2(text, '0', 'x') || Starts2(text, '0', 'X') {
      assert text[1] == source[i + 1];
      assert text[2..] == source[i + 2..e];
      NoLongerHex(source, i + 2, e);
    }
  }

  // ---- The longest match ----

  /** A place where a token begins that is neither a string literal nor a multi-line
      comment. */
  predicate Plain(source: seq<byte>, i: nat) {
    i < |source| && !IsSkippable(source[i]) && !Is(source[i], '"') && !(Is(source[i], '/') && Is(Next(source, i + 1), '*'))
  }

  lemma NothingLonger(source: seq<byte>, i: nat, e: nat)
    requires Plain(source, i) && i < e <= |source| && (TokenAt(source, i).end < e || IsError(TokenAt(source, i).kind))
    ensures !Begins(source[i..e])
  {
    hide DigitsEnd, HexEnd, NameEnd, LineEnd, IsFloat, IsWhole, IsHexNumber, IsIdentifier, IsLineComment, AllDigits, ScanZero, ScanDec, Decode,
      SingleCharToken, Keyword;
    var text, c := source[i..e], source[i];
    assert text[0] == c;
    MarkOrNot(c);
    if SingleCharToken(c).Some? {
      PunctuationIsNoError(c);
    } else if IsNameStart(c) {
      NameShape(source, i);
      NoLongerName(source, i, e);
    } else if IsDigit(c) {
      NumberIsNoError(source, i);
      NoLongerWhole(source, i, e);
      NoLongerHexNumber(source, i, e);
      NoLongerFloat(source, i, e);
    } else if Is(c, '@') {
      assert text[1..] == source[i + 1..e];
      NoLongerDigits(source, i + 1, e);
    } else if Is(c, '/') {
      if Is(Next(source, i + 1), '/') {
        NoLongerLine(source, i, e);
      } else {
        assert |text| >= 2 ==> text[1] == source[i + 1];
        LineBegins(text);
      }
    }
  }

  lemma LineBegins(text: seq<byte>)
    ensures IsLineComment(text) ==> Starts2(text, '/', '/')
  {
  }

  lemma MarkOrNot(c: byte)
    ensures SingleCharToken(c).Some? ==> !IsNameStart(c) && !IsDigit(c) && !Is(c, '@') && !Is(c, '/') && !Is(c, '=') && !Is(c, '"')
  {
  }

  lemma NumberIsNoError(source: seq<byte>, i: nat)
    requires i < |source| && IsDigit(source[i])
    ensures !IsError((if Is(source[i], '0') then ScanZero(source, i) else ScanDec(source, i)).kind)
  {
    hide DigitsEnd, HexEnd;
  }

  /** From byte `i` on, this kind and end are the longest text that is a token, or an
      error where none is. */
  ghost predicate Longest(source: seq<byte>, i: nat, kind: TokenKind, end: nat)
    requires i <= end <= |source|
  {
    if exists e :: i < e <= |source| && Legal(source[i..e]) then
      IsToken(kind, source[i..end]) && forall e | end < e <= |source| :: !Legal(source[i..e])
    else kind == ErrorIllegalChar
  }

  lemma LongestMatch(source: seq<byte>, i: nat)
    requires Plain(source, i)
    ensures Longest(source, i, TokenAt(source, i).kind, TokenAt(source, i).end)
  {
    hide TokenAt, IsToken, Begins;
    var r := TokenAt(source, i);
    TokenKinds(source, i);
    forall e | i < e <= |source| && (r.end < e || IsError(r.kind)) ensures !Legal(source[i..e]) {
      NothingLonger(source, i, e);
      if Legal(source[i..e]) {
        var kind :| IsToken(kind, source[i..e]);
        TokenBegins(kind, source[i..e]);
      }
    }
  }

  lemma TokenKinds(source: seq<byte>, i: nat)
    requires Plain(source, i)
    ensures var r := TokenAt(source, i); if IsError(r.kind) then r.kind == ErrorIllegalChar else IsToken(r.kind, source[i..r.end])
  {
    hide Shaped, Decode, DigitsEnd, HexEnd, NameEnd, LineEnd, CommentEnd, ScanZero, ScanDec, ScanName, Keyword, SingleCharToken, ScanString;
    TokenShape(source, i);
    var c := source[i];
    PunctuationIsNoError(c);
    if IsDigit(c) {
      NumberIsNoError(source, i);
    }
    if IsNameStart(c) {
      NameShape(source, i);
    }
    NoEmptyLine(source, i);
  }

  lemma NoEmptyLine(source: seq<byte>, i: nat)
    requires i < |source|
    ensures !TokenAt(source, i).kind.EmptyLine?
  {
    TokenShape(source, i);
  }

  // ---- One kind for each text ----

  /** Length and first letter tell the keywords apart. */
  lemma KeywordFound(kind: TokenKind, text: seq<byte>)
    requires Spelled(kind, text) && !IsMark(kind)
    ensures Keyword(text) == Some(kind)
  {
    hide Ascii;
    AsciiHead("import");
    AsciiHead("module");
    AsciiHead("struct");
    AsciiHead("union");
    AsciiHead("interface");
    AsciiHead("enum");
    AsciiHead("const");
    AsciiHead("true");
    AsciiHead("false");
    AsciiHead("default");
  }

  lemma AsciiHead(s: string)
    requires s != ""
    ensures |Ascii(s)| == |s| && Ascii(s)[0] == Code(s[0]) % 256
  {
  }

  lemma MarkFound(kind: TokenKind, text: seq<byte>)
    requires Spelled(kind, text) && IsMark(kind) && !kind.Equals? && !kind.Response?
    ensures |text| == 1 && SingleCharToken(text[0]) == Some(kind)
  {
  }

  lemma SpelledOnce(kind: TokenKind, other: TokenKind, text: seq<byte>)
    requires Spelled(kind, text) && Spelled(other, text)
    ensures kind == other
  {
    hide Spelled, Keyword, SingleCharToken;
    SpelledFound(kind, text);
    SpelledFound(other, text);
  }

  lemma SpelledFound(kind: TokenKind, text: seq<byte>)
    requires Spelled(kind, text)
    ensures if !IsMark(kind) then IsIdentifier(text) && Keyword(text) == Some(kind)
            else if kind.Equals? then text == [Code('=')]
            else if kind.Response? then text == [Code('='), Code('>')]
            else |text| == 1 && SingleCharToken(text[0]) == Some(kind) && Mark(text[0])
    ensures IsMark(kind) ==> !IsIdentifier(text)
  {
    hide Spelled, Keyword, SingleCharToken, Mark, IsIdentifier;
    if !IsMark(kind) {
      KeywordFound(kind, text);
      KeywordIsName(kind, text);
    } else {
      MarkText(kind, text);
      MarkIsNoName(kind, text);
      if !kind.Equals? && !kind.Response? {
        MarkFound(kind, text);
      }
    }
  }

  datatype Class = Words | Numbers | Ordinals | LineComments | Comments | Strings | Marks

  function ClassOf(kind: TokenKind): Class {
    if kind.Name? || (Spelling(kind).Some? && !IsMark(kind)) then Words
    else if kind.IntConstDec? || kind.IntConstHex? || kind.FloatConst? then Numbers
    else if kind.Ordinal? then Ordinals
    else if kind.SingleLineComment? then LineComments
    else if kind.MultiLineComment? then Comments
    else if kind.StringLiteral? then Strings
    else Marks
  }

  function ClassOfText(text: seq<byte>): Class
    requires text != []
  {
    var c := text[0];
    if IsNameStart(c) then Words
    else if IsDigit(c) then Numbers
    else if Is(c, '@') then Ordinals
    else if Starts2(text, '/', '/') then LineComments
    else if Starts2(text, '/', '*') then Comments
    else if Is(c, '"') then Strings
    else Marks
  }

  lemma ClassFound(kind: TokenKind, text: seq<byte>)
    requires IsToken(kind, text)
    ensures text != [] && ClassOf(kind) == ClassOfText(text)
  {
    hide IsFloat, Spelled, AllDigits, AllHexDigits, SingleCharToken, Keyword, Spelling;
    SpellingMeans(kind);
    match kind
    case FloatConst => FloatBegins(text);
    case IntConstDec => WholeBegins(text);
    case Name =>
    case Ordinal =>
    case IntConstHex =>
    case StringLiteral =>
    case SingleLineComment =>
    case MultiLineComment =>
    case _ =>
      SpelledFound(kind, text);
      if IsMark(kind) {
        MarkIsNoName(kind, text);
      }
  }

  /** Tokens with many texts. */
  predicate Free(kind: TokenKind) {
    kind.Name? || kind.Ordinal? || kind.IntConstDec? || kind.IntConstHex? || kind.FloatConst? || kind.StringLiteral?
    || kind.SingleLineComment? || kind.MultiLineComment?
  }

  lemma SpellingMeans(kind: TokenKind)
    ensures IsMark(kind) ==> Spelling(kind).Some?
    ensures Spelling(kind).None? <==> IsError(kind) || kind.EmptyLine? || Free(kind)
  {
  }

  lemma OneNumber(text: seq<byte>)
    ensures !(IsWhole(text) && IsFloat(text)) && !(IsWhole(text) && IsHexNumber(text)) && !(IsHexNumber(text) && IsFloat(text))
  {
    if IsFloat(text) {
      var a := FloatParts(text);
      var w := text[..a];
      if a > 1 {
        assert w[1] == text[1];
      }
    }
  }

  /** A text is a token of at most one kind. */
  lemma KindOnce(kind: TokenKind, other: TokenKind, text: seq<byte>)
    requires IsToken(kind, text) && IsToken(other, text)
    ensures kind == other
  {
    hide IsFloat, IsWhole, IsHexNumber, Spelled, Spelling, ClassOfText;
    ClassFound(kind, text);
    ClassFound(other, text);
    SpellingMeans(kind);
    SpellingMeans(other);
    OneNumber(text);
    if Spelling(kind).Some? && Spelling(other).Some? {
      SpelledOnce(kind, other, text);
    }
  }

  // ---- Positions and empty lines ----

  /** Tokens come in the order of their positions. */
  ghost predicate Ordered(tokens: seq<Token>, k: nat) {
    && (forall i | 0 <= i < |tokens| :: k <= tokens[i].position.sourcePos)
    && (forall i, j | 0 <= i < j < |tokens| :: tokens[i].position.sourcePos < tokens[j].position.sourcePos)
  }

  /** A line break at the beginning of the text, or right behind another. */
  predicate BlankLine(source: seq<byte>, k: nat) {
    Offset(source, k) < |source| && RuneAt(source, k) == NEWLINE && (k == 0 || RuneAt(source, k - 1) == NEWLINE)
  }

  lemma BlankLineMeans(source: seq<byte>, k: nat)
    requires Offset(source, k) < |source|
    ensures IsEmptyLine(source, k) <==> BlankLine(source, k)
  {
    hide Offset, RuneAt;
  }

  ghost predicate HasEmptyLine(tokens: seq<Token>, k: nat) {
    exists i :: 0 <= i < |tokens| && tokens[i].kind.EmptyLine? && tokens[i].position.sourcePos == k
  }

  /** Some token takes the byte. */
  ghost predicate InToken(tokens: seq<Token>, at: nat) {
    exists i :: 0 <= i < |tokens| && tokens[i].position.sourcePosBytes <= at < tokens[i].position.sourcePosBytes + |tokens[i].text|
  }

  lemma OrderedThen(t: Token, rest: seq<Token>, k: nat, j: nat)
    requires Ordered(rest, j) && t.position.sourcePos == k < j
    ensures Ordered([t] + rest, k)
  {
    var ts := [t] + rest;
    assert forall i | 0 < i < |ts| :: ts[i] == rest[i - 1];
  }

  lemma OrderedFrom(rest: seq<Token>, k: nat, j: nat)
    requires Ordered(rest, j) && k <= j
    ensures Ordered(rest, k)
  {
  }

  lemma {:induction false} StreamOrdered(source: seq<byte>, k: nat)
    ensures Ordered(TokensFrom(source, k), k)
    decreases |source| - Offset(source, k)
  {
    hide Offset, TokenAt, PositionOf, TokensFrom, Ordered, IsEmptyLine;
    var a := Offset(source, k);
    PositionBytes(source, k);
    if a == |source| {
      NoneAtEnd(source, k);
      assert Ordered([], k) by { NoOrder(k); }
    } else if IsSkippable(source[a]) {
      OffsetStep(source, k);
      StreamOrdered(source, k + 1);
      BlankStep(source, k);
      OrderedFrom(TokensFrom(source, k + 1), k, k + 1);
      OrderedThen(Token(EmptyLine, [], PositionOf(source, k)), TokensFrom(source, k + 1), k, k + 1);
      assert [] + TokensFrom(source, k + 1) == TokensFrom(source, k + 1);
    } else {
      var j := RuneFrom(source, k, TokenAt(source, a).end);
      TokenOnRunes(source, k);
      TokenThen(source, k);
      StreamOrdered(source, j);
      OrderedThen(TokenOf(source, k), TokensFrom(source, j), k, j);
      OrderedThen(TokenOf(source, k), [], k, k + 1) by { NoOrder(k + 1); }
      assert [TokenOf(source, k)] + [] == [TokenOf(source, k)];
    }
  }

  lemma NoOrder(k: nat)
    ensures Ordered([], k)
  {
  }

  lemma FirstHas(t: Token, rest: seq<Token>, k: nat, at: nat)
    ensures HasEmptyLine([t] + rest, k) <==> (t.kind.EmptyLine? && t.position.sourcePos == k) || HasEmptyLine(rest, k)
    ensures InToken([t] + rest, at) <==>
      (t.position.sourcePosBytes <= at < t.position.sourcePosBytes + |t.text|) || InToken(rest, at)
  {
    var ts := [t] + rest;
    assert ts[0] == t && forall i | 0 <= i < |rest| :: ts[i + 1] == rest[i];
    assert forall i | 0 < i < |ts| :: ts[i] == rest[i - 1];
  }

  /** No token of the stream from `k` on begins before it. */
  lemma NoneBefore(source: seq<byte>, k: nat, j: nat, at: nat)
    requires j < k && at < Offset(source, k)
    ensures !HasEmptyLine(TokensFrom(source, k), j) && !InToken(TokensFrom(source, k), at)
  {
    hide Offset, TokensFrom, PositionOf, Shaped, Tiles;
    StreamOrdered(source, k);
    StreamLaws(source, k);
    var ts := TokensFrom(source, k);
    forall i | 0 <= i < |ts| ensures ts[i].position.sourcePosBytes >= Offset(source, k) {
      PositionBytes(source, ts[i].position.sourcePos);
      OffsetGrows(source, k, ts[i].position.sourcePos);
    }
  }

  /** The tokens for empty lines are those at line breaks that follow another line
      break or begin the text and lie outside all tokens. */
  lemma {:induction false} EmptyLinesExactly(source: seq<byte>, k: nat, j: nat)
    requires k <= j && Offset(source, j) < |source|
    ensures var ts := TokensFrom(source, k);
      && (HasEmptyLine(ts, j) ==> BlankLine(source, j) && !InToken(ts, Offset(source, j)))
      && (BlankLine(source, j) && !InToken(ts, Offset(source, j)) && Offset(source, j) < StreamEnd(source, ts) ==> HasEmptyLine(ts, j))
    decreases |source| - Offset(source, k)
  {
    hide Offset, TokenAt, PositionOf, TokensFrom, IsEmptyLine, BlankLine, HasEmptyLine, InToken;
    var a, at := Offset(source, k), Offset(source, j);
    OffsetGrows(source, k, j);
    PositionBytes(source, k);
    if IsSkippable(source[a]) {
      OffsetStep(source, k);
      BlankStep(source, k);
      BlankLineMeans(source, k);
      var t, rest := Token(EmptyLine, [], PositionOf(source, k)), TokensFrom(source, k + 1);
      FirstHas(t, rest, j, at);
      assert [] + rest == rest;
      assert rest != [] ==> ([t] + rest)[|rest|] == rest[|rest| - 1];
      if j == k {
        NoneBefore(source, k + 1, k, a);
      } else {
        EmptyLinesExactly(source, k + 1, j);
      }
    } else {
      EmptyLinesBehind(source, k, j);
    }
  }

  lemma {:induction false} EmptyLinesBehind(source: seq<byte>, k: nat, j: nat)
    requires k <= j && Offset(source, k) <= Offset(source, j) < |source| && !IsSkippable(source[Offset(source, k)])
    ensures var ts := TokensFrom(source, k);
      && (HasEmptyLine(ts, j) ==> BlankLine(source, j) && !InToken(ts, Offset(source, j)))
      && (BlankLine(source, j) && !InToken(ts, Offset(source, j)) && Offset(source, j) < StreamEnd(source, ts) ==> HasEmptyLine(ts, j))
    decreases |source| - Offset(source, k), 0
  {
    hide Offset, TokenAt, PositionOf, TokensFrom, IsEmptyLine, BlankLine, HasEmptyLine, InToken;
    var a, at := Offset(source, k), Offset(source, j);
    var t, end := TokenOf(source, k), TokenAt(source, a).end;
    var n := RuneFrom(source, k, end);
    PositionBytes(source, k);
    TokenOnRunes(source, k);
    TokenThen(source, k);
    NoEmptyLine(source, a);
    if IsError(t.kind) {
      FirstHas(t, [], j, at);
      NoneAtAll(j, at);
      assert [t] + [] == [t];
    } else {
      var rest := TokensFrom(source, n);
      FirstHas(t, rest, j, at);
      assert rest != [] ==> ([t] + rest)[|rest|] == rest[|rest| - 1];
      if at < end {
        BeforeRune(source, k, end, j);
        NoneBefore(source, n, j, at);
      } else {
        FromRune(source, k, end, j);
        EmptyLinesExactly(source, n, j);
      }
    }
  }

  lemma NoneAtAll(j: nat, at: nat)
    ensures !HasEmptyLine([], j) && !InToken([], at)
  {
  }

  lemma BeforeRune(source: seq<byte>, k: nat, end: nat, j: nat)
    requires end <= |source| && Offset(source, j) < end
    ensures j < RuneFrom(source, k, end)
  {
    hide Offset;
    if RuneFrom(source, k, end) <= j {
      OffsetGrows(source, RuneFrom(source, k, end), j);
    }
  }

  lemma {:induction false} FromRune(source: seq<byte>, k: nat, end: nat, j: nat)
    requires end <= |source| && k <= j && end <= Offset(source, j)
    ensures RuneFrom(source, k, end) <= j
    decreases j - k
  {
    hide Offset;
    if k < j {
      FromRune(source, k + 1, end, j);
    }
  }

  // ---- The whole stream ----

  /** Every token but those of empty lines, string literals and multi-line comments is
      the longest text at its place that is a token. */
  ghost predicate AllLongest(source: seq<byte>, tokens: seq<Token>) {
    forall i | 0 <= i < |tokens| && !tokens[i].kind.EmptyLine? :: LongestToken(source, tokens[i])
  }

  ghost predicate LongestToken(source: seq<byte>, t: Token) {
    var a := t.position.sourcePosBytes;
    a + |t.text| <= |source| && (Plain(source, a) ==> Longest(source, a, t.kind, a + |t.text|))
  }

  lemma {:induction false} StreamLongest(source: seq<byte>, k: nat)
    ensures AllLongest(source, TokensFrom(source, k))
    decreases |source| - Offset(source, k)
  {
    hide Offset, TokenAt, PositionOf, TokensFrom, LongestToken;
    var a := Offset(source, k);
    PositionBytes(source, k);
    if a == |source| {
      NoneAtEnd(source, k);
    } else if IsSkippable(source[a]) {
      OffsetStep(source, k);
      StreamLongest(source, k + 1);
      BlankStep(source, k);
    } else {
      TokenOnRunes(source, k);
      TokenThen(source, k);
      TokenIsLongest(source, k);
      StreamLongest(source, RuneFrom(source, k, TokenAt(source, a).end));
    }
  }

  lemma TokenIsLongest(source: seq<byte>, k: nat)
    requires Offset(source, k) < |source|
    ensures LongestToken(source, TokenOf(source, k))
  {
    hide Offset, TokenAt, Longest, PositionOf, Plain;
    PositionBytes(source, k);
    if Plain(source, Offset(source, k)) {
      LongestMatch(source, Offset(source, k));
    }
  }
}
