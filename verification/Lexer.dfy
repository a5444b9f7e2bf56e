/**
  The lexer: a state machine over the runes of a source text. Every state
  consumes runes of the current token and emits it or hands over to the next
  state; blanks between tokens are skipped. It produces the tokens of the text.
*/
module Lexer {
  import opened Wire
  import opened Utf8
  import opened Tokens
  import opened TokenLaws
  import opened TokenMatch

  datatype State =
    | LexRoot | LexSkip | LexSingleCharTokens | LexEqualsOrResponse | LexName | LexOrdinal | LexNumber | LexDec
    | LexNumberStartWithZero | LexHexNumber | LexFractionPart | LexExponentPart | LexString | LexComment
    | LexSingleLineComment | LexMultiLineComment | LexPossibleEndOfComment | End

  function Rank(state: State): nat {
    if state.End? then 0 else if state.LexRoot? then 3 else if state.LexNumber? then 2 else 1
  }

  class Lexer {
    const source: seq<byte>
    var tokens: seq<Token>
    var pos: Position
    var cur: Position

    constructor (source: seq<byte>)
      ensures Valid() && Follows() && this.source == source && tokens == [] && cur == pos
    {
      this.source := source;
      tokens, pos, cur := [], PositionOf(source, 0), PositionOf(source, 0);
    }

    /** Positions are counted right, and the current token begins before the rune
        at hand. */
    ghost predicate Valid()
      reads this
    {
      && pos == PositionOf(source, pos.sourcePos) && cur == PositionOf(source, cur.sourcePos)
      && cur.sourcePos <= pos.sourcePos && cur.sourcePosBytes <= pos.sourcePosBytes <= |source|
      && (pos.sourcePos == 0 || Offset(source, pos.sourcePos - 1) < Offset(source, pos.sourcePos))
    }

    /** What has been emitted and what comes from the current token on are the
        tokens of the source. */
    ghost predicate Follows()
      reads this
    {
      tokens + TokensFrom(source, cur.sourcePos) == TokensFrom(source, 0)
    }

    predicate IsEos()
      reads this
    {
      pos.sourcePosBytes >= |source|
    }

    function Peek(): (c: nat)
      reads this
      ensures c < 0x80 || Next(source, pos.sourcePosBytes) < 0x80 ==> c == Next(source, pos.sourcePosBytes)
      ensures IsEos() ==> c >= 0x80
    {
      if IsEos() then RUNE_ERROR
      else
        assert source[pos.sourcePosBytes..][0] == source[pos.sourcePosBytes];
        Decode(source[pos.sourcePosBytes..]).value
    }

    function CurText(): seq<byte>
      requires cur.sourcePosBytes <= pos.sourcePosBytes <= |source|
      reads this
    {
      source[cur.sourcePosBytes..pos.sourcePosBytes]
    }

    method Consume()
      requires Valid()
      modifies this`pos
      ensures Valid() && (old(IsEos()) ==> pos == old(pos))
      ensures !old(IsEos()) ==> pos.sourcePos == old(pos.sourcePos) + 1
      ensures !old(IsEos()) ==> pos.sourcePosBytes == old(pos.sourcePosBytes) + Decode(source[old(pos.sourcePosBytes)..]).width
      ensures !old(IsEos()) && old(Peek()) < 0x80 ==> pos.sourcePosBytes == old(pos.sourcePosBytes) + 1
      ensures !old(IsEos()) && old(Peek()) >= 0x80 ==> NoAscii(source, old(pos.sourcePosBytes), pos.sourcePosBytes)
      ensures !old(IsEos()) ==> NoAscii(source, old(pos.sourcePosBytes) + 1, pos.sourcePosBytes)
    {
      hide PositionOf, Decode, Offset;
      if IsEos() {
        return;
      }
      PositionBytes(source, pos.sourcePos);
      PositionStep(source, pos.sourcePos);
      OffsetStep(source, pos.sourcePos);
      RuneBytes(source, pos.sourcePosBytes);
      var r := Decode(source[pos.sourcePosBytes..]);
      if r.value == NEWLINE {
        pos := Position(pos.sourcePosBytes + r.width, pos.sourcePos + 1, pos.lineNo + 1, 0, 0);
      } else {
        pos := Position(pos.sourcePosBytes + r.width, pos.sourcePos + 1, pos.lineNo, pos.linePos + 1, pos.linePosBytes + r.width);
      }
    }

    method BeginToken()
      requires Valid()
      modifies this`cur
      ensures Valid() && cur == pos
    {
      hide PositionOf, Offset;
      cur := pos;
    }

    /** Inside the token that begins at `cur`. */
    ghost predicate InToken()
      reads this
    {
      cur.sourcePosBytes < |source| && !IsSkippable(source[cur.sourcePosBytes])
    }

    /** The token that begins at `cur` is of a kind and ends at `end`. */
    ghost predicate Goes(kind: TokenKind, end: nat)
      reads this
    {
      InToken() && TokenAt(source, cur.sourcePosBytes) == Lexeme(kind, end)
    }

    method EmitToken(kind: TokenKind)
      requires Valid()
      modifies this`tokens, this`cur
      ensures Valid() && cur == pos && tokens == old(tokens) + [Token(kind, old(CurText()), old(cur))]
      ensures old(Follows() && Goes(kind, pos.sourcePosBytes)) ==> if IsError(kind) then tokens == TokensFrom(source, 0) else Follows()
    {
      hide PositionOf, TokensFrom, TokenAt, Offset, RuneFrom;
      ghost var before, t := tokens, Token(kind, CurText(), cur);
      if Goes(kind, pos.sourcePosBytes) {
        PositionBytes(source, cur.sourcePos);
        PositionBytes(source, pos.sourcePos);
        StreamStep(source, cur.sourcePos, pos.sourcePos);
        Regroup(tokens, [t], TokensFrom(source, pos.sourcePos));
      }
      tokens := tokens + [Token(kind, source[cur.sourcePosBytes..pos.sourcePosBytes], cur)];
      cur := pos;
    }

    /** What a state finds: the rune it begins with, and how the current token goes
        on from there. */
    ghost predicate Ready(state: State)
      reads this
    {
      var a, p := cur.sourcePosBytes, pos.sourcePosBytes;
      match state
      case LexRoot => cur == pos
      case LexSkip => cur == pos && IsSkippable(Peek())
      case End => true
      case _ => a <= p < |source| && InToken() && Expects(state, TokenAt(source, a), p)
    }

    /** From the byte at `p` on, the state has this token in front of it. */
    ghost predicate Expects(state: State, token: Lexeme, p: nat)
      requires p < |source|
      reads this
    {
      match state
      case LexSingleCharTokens => SingleCharToken(source[p]).Some? && token == Lexeme(SingleCharToken(source[p]).value, p + 1)
      case LexEqualsOrResponse =>
        Is(source[p], '=') && token == if Is(Next(source, p + 1), '>') then Lexeme(Response, p + 2) else Lexeme(Equals, p + 1)
      case LexName => cur == pos && IsNameStart(source[p]) && token == ScanName(source, p)
      case LexOrdinal => Is(source[p], '@') && token == Lexeme(Ordinal, DigitsEnd(source, p + 1))
      case LexNumber => IsDigit(source[p]) && token == if Is(source[p], '0') then ScanZero(source, p) else ScanDec(source, p)
      case LexDec => IsDigit(source[p]) && token == ScanDec(source, p)
      case LexNumberStartWithZero => Is(source[p], '0') && token == ScanZero(source, p)
      case LexHexNumber => source[p] < 0x80 && token == Lexeme(IntConstHex, HexEnd(source, p + 1))
      case LexFractionPart => Is(source[p], '.') && token == ScanFraction(source, p)
      case LexExponentPart => IsE(source[p]) && token == ScanExponent(source, p)
      case LexString => Is(source[p], '"') && token == ScanString(source, p + 1)
      case LexComment => Is(source[p], '/') && token == ScanSlash(source, p)
      case LexSingleLineComment => Is(source[p], '/') && token == Lexeme(SingleLineComment, LineEnd(source, p + 1))
      case LexMultiLineComment => token == ScanComment(source, p + 1)
      case LexPossibleEndOfComment => Is(source[p], '*') && token == ScanComment(source, p)
      case _ => true
    }

    /** A state has left the lexer in order, and has made progress. */
    twostate predicate Stepped(state: State, next: State)
      reads this
    {
      && Valid()
      && (if next.End? then tokens == TokensFrom(source, 0) else Follows() && Ready(next))
      && pos.sourcePosBytes >= old(pos.sourcePosBytes)
      && (pos.sourcePosBytes == old(pos.sourcePosBytes) ==> Rank(next) < Rank(state))
    }

    method LexRootState() returns (next: State)
      requires Valid() && Follows() && Ready(LexRoot)
      modifies this
      ensures Stepped(LexRoot, next)
    {
      hide PositionOf, Decode, Offset, TokensFrom, Keyword, SingleCharToken, NoAscii, Lexer.CurText, ScanName, ScanDec, ScanZero, ScanString, ScanSlash, DigitsEnd;
      PositionBytes(source, pos.sourcePos);
      if IsEos() {
        NoneAtEnd(source, pos.sourcePos);
        assert tokens + [] == tokens;
        return End;
      }
      var c := Peek();
      if SingleCharToken(c).Some? {
        PunctuationIsAscii(c);
        return LexSingleCharTokens;
      }
      NoPunctuation(source[pos.sourcePosBytes], c);
      if Is(c, '=') {
        return LexEqualsOrResponse;
      } else if IsNameStart(c) {
        return LexName;
      } else if Is(c, '@') {
        return LexOrdinal;
      } else if IsDigit(c) {
        return LexNumber;
      } else if Is(c, '"') {
        return LexString;
      } else if IsSkippable(c) {
        return LexSkip;
      } else if Is(c, '/') {
        return LexComment;
      }
      Consume();
      EmitToken(ErrorIllegalChar);
      next := End;
    }

    method LexSkipState() returns (next: State)
      requires Valid() && Follows() && Ready(LexSkip)
      modifies this
      ensures Stepped(LexSkip, next)
    {
      hide PositionOf, Decode, Offset, TokensFrom, Keyword, SingleCharToken, NoAscii;
      while IsSkippable(Peek())
        invariant Valid() && tokens + TokensFrom(source, pos.sourcePos) == TokensFrom(source, 0)
        invariant pos.sourcePosBytes >= old(pos.sourcePosBytes)
        invariant pos.sourcePosBytes == old(pos.sourcePosBytes) ==> IsSkippable(Peek())
        decreases |source| - pos.sourcePosBytes
      {
        BeginToken();
        PositionBytes(source, pos.sourcePos);
        BlankStep(source, pos.sourcePos);
        ghost var k, t := pos.sourcePos, Token(EmptyLine, CurText(), cur);
        Regroup(tokens, [t], TokensFrom(source, k + 1));
        assert CurText() == [];
        assert IsEmptyLine(source, k) <==> Is(Peek(), '\n') && pos.linePos == 0;
        if Is(Peek(), '\n') && pos.linePos == 0 {
          EmitToken(EmptyLine);
        }
        assert tokens + TokensFrom(source, k + 1) == TokensFrom(source, 0);
        Consume();
      }
      BeginToken();
      next := LexRoot;
    }

    method LexSingleCharTokensState() returns (next: State)
      requires Valid() && Follows() && Ready(LexSingleCharTokens)
      modifies this
      ensures Stepped(LexSingleCharTokens, next)
    {
      hide PositionOf, Decode, Offset, TokensFrom, Keyword, SingleCharToken, NoAscii, Lexer.CurText, TokenAt;
      var c := Peek();
      PunctuationIsAscii(source[pos.sourcePosBytes]);
      Consume();
      EmitToken(SingleCharToken(c).value);
      PunctuationIsNoError(c);
      next := LexRoot;
    }

    method LexEqualsOrResponseState() returns (next: State)
      requires Valid() && Follows() && Ready(LexEqualsOrResponse)
      modifies this
      ensures Stepped(LexEqualsOrResponse, next)
    {
      hide PositionOf, Decode, Offset, TokensFrom, Keyword, SingleCharToken, NoAscii, Lexer.CurText, TokenAt;
      Consume();
      if Is(Peek(), '>') {
        Consume();
        EmitToken(Response);
      } else {
        EmitToken(Equals);
      }
      next := LexRoot;
    }

    method LexNameState() returns (next: State)
      requires Valid() && Follows() && Ready(LexName)
      modifies this
      ensures Stepped(LexName, next)
    {
      hide PositionOf, Decode, Offset, TokensFrom, Keyword, SingleCharToken, NoAscii, TokenAt, NameEnd;
      ghost var p := pos.sourcePosBytes;
      Consume();
      while IsNameRune(Peek())
        invariant Valid() && cur == old(cur) && tokens == old(tokens) && pos.sourcePosBytes > p
        invariant NameEnd(source, pos.sourcePosBytes) == NameEnd(source, p + 1)
        decreases |source| - pos.sourcePosBytes
      {
        NameStep(source, pos.sourcePosBytes);
        Consume();
      }
      NameStep(source, pos.sourcePosBytes);
      var keyword := Keyword(CurText());
      KeywordIsNoError(CurText());
      EmitToken(if keyword.Some? then keyword.value else Name);
      next := LexRoot;
    }

    method LexOrdinalState() returns (next: State)
      requires Valid() && Follows() && Ready(LexOrdinal)
      modifies this
      ensures Stepped(LexOrdinal, next)
    {
      hide PositionOf, Decode, Offset, TokensFrom, Keyword, SingleCharToken, NoAscii, Lexer.CurText, TokenAt, DigitsEnd;
      ghost var p := pos.sourcePosBytes;
      Consume();
      while IsDigit(Peek())
        invariant Valid() && cur == old(cur) && tokens == old(tokens) && pos.sourcePosBytes > p
        invariant DigitsEnd(source, pos.sourcePosBytes) == DigitsEnd(source, p + 1)
        decreases |source| - pos.sourcePosBytes
      {
        DigitsStep(source, pos.sourcePosBytes);
        Consume();
      }
      DigitsStep(source, pos.sourcePosBytes);
      EmitToken(Ordinal);
      next := LexRoot;
    }

    method LexNumberState() returns (next: State)
      requires Valid() && Follows() && Ready(LexNumber)
      modifies this
      ensures Stepped(LexNumber, next)
    {
      hide PositionOf, Decode, Offset, TokensFrom, Keyword, SingleCharToken, NoAscii, Lexer.CurText, TokenAt, ScanZero, ScanDec;
      if Is(Peek(), '0') {
        return LexNumberStartWithZero;
      }
      next := LexDec;
    }

    method LexDecState() returns (next: State)
      requires Valid() && Follows() && Ready(LexDec)
      modifies this
      ensures Stepped(LexDec, next)
    {
      hide PositionOf, Decode, Offset, TokensFrom, Keyword, SingleCharToken, NoAscii, Lexer.CurText, TokenAt, ScanExponent, ScanFraction, DigitsEnd;
      ghost var p := pos.sourcePosBytes;
      while IsDigit(Peek())
        invariant Valid() && cur == old(cur) && tokens == old(tokens) && pos.sourcePosBytes >= p
        invariant pos.sourcePosBytes == p ==> IsDigit(Peek())
        invariant DigitsEnd(source, pos.sourcePosBytes) == DigitsEnd(source, p)
        decreases |source| - pos.sourcePosBytes
      {
        DigitsStep(source, pos.sourcePosBytes);
        Consume();
      }
      DigitsStep(source, pos.sourcePosBytes);
      var c := Peek();
      if Is(c, 'e') || Is(c, 'E') {
        return LexExponentPart;
      } else if Is(c, '.') {
        return LexFractionPart;
      }
      EmitToken(IntConstDec);
      next := LexRoot;
    }

    method LexNumberStartWithZeroState() returns (next: State)
      requires Valid() && Follows() && Ready(LexNumberStartWithZero)
      modifies this
      ensures Stepped(LexNumberStartWithZero, next)
    {
      hide PositionOf, Decode, Offset, TokensFrom, Keyword, SingleCharToken, NoAscii, Lexer.CurText, TokenAt, ScanExponent, ScanFraction, HexEnd;
      Consume();
      var c := Peek();
      if Is(c, 'x') || Is(c, 'X') {
        return LexHexNumber;
      } else if Is(c, '.') {
        return LexFractionPart;
      } else if Is(c, 'e') || Is(c, 'E') {
        return LexExponentPart;
      }
      EmitToken(IntConstDec);
      next := LexRoot;
    }

    method LexHexNumberState() returns (next: State)
      requires Valid() && Follows() && Ready(LexHexNumber)
      modifies this
      ensures Stepped(LexHexNumber, next)
    {
      hide PositionOf, Decode, Offset, TokensFrom, Keyword, SingleCharToken, NoAscii, Lexer.CurText, TokenAt, HexEnd;
      ghost var p := pos.sourcePosBytes;
      Consume();
      while IsHexDigit(Peek())
        invariant Valid() && cur == old(cur) && tokens == old(tokens) && pos.sourcePosBytes > p
        invariant HexEnd(source, pos.sourcePosBytes) == HexEnd(source, p + 1)
        decreases |source| - pos.sourcePosBytes
      {
        HexStep(source, pos.sourcePosBytes);
        Consume();
      }
      HexStep(source, pos.sourcePosBytes);
      EmitToken(IntConstHex);
      next := LexRoot;
    }

    method LexFractionPartState() returns (next: State)
      requires Valid() && Follows() && Ready(LexFractionPart)
      modifies this
      ensures Stepped(LexFractionPart, next)
    {
      hide PositionOf, Decode, Offset, TokensFrom, Keyword, SingleCharToken, NoAscii, Lexer.CurText, TokenAt, ScanExponent, DigitsEnd;
      ghost var p := pos.sourcePosBytes;
      Consume();
      while IsDigit(Peek())
        invariant Valid() && cur == old(cur) && tokens == old(tokens) && pos.sourcePosBytes > p
        invariant DigitsEnd(source, pos.sourcePosBytes) == DigitsEnd(source, p + 1)
        decreases |source| - pos.sourcePosBytes
      {
        DigitsStep(source, pos.sourcePosBytes);
        Consume();
      }
      DigitsStep(source, pos.sourcePosBytes);
      var c := Peek();
      if Is(c, 'e') || Is(c, 'E') {
        return LexExponentPart;
      }
      EmitToken(FloatConst);
      next := LexRoot;
    }

    method LexExponentPartState() returns (next: State)
      requires Valid() && Follows() && Ready(LexExponentPart)
      modifies this
      ensures Stepped(LexExponentPart, next)
    {
      hide PositionOf, Decode, Offset, TokensFrom, Keyword, SingleCharToken, NoAscii, Lexer.CurText, TokenAt, DigitsEnd;
      Consume();
      if Is(Peek(), '+') || Is(Peek(), '-') {
        Consume();
      }
      ghost var p := pos.sourcePosBytes;
      while IsDigit(Peek())
        invariant Valid() && cur == old(cur) && tokens == old(tokens) && pos.sourcePosBytes >= p
        invariant DigitsEnd(source, pos.sourcePosBytes) == DigitsEnd(source, p)
        decreases |source| - pos.sourcePosBytes
      {
        DigitsStep(source, pos.sourcePosBytes);
        Consume();
      }
      DigitsStep(source, pos.sourcePosBytes);
      EmitToken(FloatConst);
      next := LexRoot;
    }

    method LexStringState() returns (next: State)
      requires Valid() && Follows() && Ready(LexString)
      modifies this
      ensures Stepped(LexString, next)
    {
      hide PositionOf, Decode, Offset, TokensFrom, Keyword, SingleCharToken, NoAscii, Lexer.CurText, TokenAt, ScanString;
      ghost var p := pos.sourcePosBytes;
      Consume();
      while !IsEos() && !Is(Peek(), '"') && !Is(Peek(), '\n')
        invariant Valid() && cur == old(cur) && tokens == old(tokens) && pos.sourcePosBytes > p
        invariant ScanString(source, pos.sourcePosBytes) == ScanString(source, p + 1)
        decreases |source| - pos.sourcePosBytes
      {
        StringStep(source, pos.sourcePosBytes);
        if Is(Peek(), '\\') {
          Consume();
        }
        ghost var r := pos.sourcePosBytes;
        Consume();
        if r < |source| {
          SkipInString(source, r + 1, pos.sourcePosBytes);
        }
      }
      StringStep(source, pos.sourcePosBytes);
      if IsEos() || Is(Peek(), '\n') {
        EmitToken(ErrorUnterminatedStringLiteral);
        return End;
      }
      Consume();
      EmitToken(StringLiteral);
      next := LexRoot;
    }

    method LexCommentState() returns (next: State)
      requires Valid() && Follows() && Ready(LexComment)
      modifies this
      ensures Stepped(LexComment, next)
    {
      hide PositionOf, Decode, Offset, TokensFrom, Keyword, SingleCharToken, NoAscii, Lexer.CurText, TokenAt, ScanComment, LineEnd;
      Consume();
      if Is(Peek(), '/') {
        return LexSingleLineComment;
      } else if Is(Peek(), '*') {
        return LexMultiLineComment;
      }
      EmitToken(ErrorIllegalChar);
      next := End;
    }

    method LexSingleLineCommentState() returns (next: State)
      requires Valid() && Follows() && Ready(LexSingleLineComment)
      modifies this
      ensures Stepped(LexSingleLineComment, next)
    {
      hide PositionOf, Decode, Offset, TokensFrom, Keyword, SingleCharToken, NoAscii, Lexer.CurText, TokenAt;
      ghost var p := pos.sourcePosBytes;
      Consume();
      while !IsEos() && !Is(Peek(), '\n')
        invariant Valid() && cur == old(cur) && tokens == old(tokens) && pos.sourcePosBytes > p
        invariant LineEnd(source, pos.sourcePosBytes) == LineEnd(source, p + 1)
        decreases |source| - pos.sourcePosBytes
      {
        ghost var q := pos.sourcePosBytes;
        Consume();
        SkipInLine(source, q + 1, pos.sourcePosBytes);
      }
      EmitToken(SingleLineComment);
      next := LexRoot;
    }

    method LexMultiLineCommentState() returns (next: State)
      requires Valid() && Follows() && Ready(LexMultiLineComment)
      modifies this
      ensures Stepped(LexMultiLineComment, next)
    {
      hide PositionOf, Decode, Offset, TokensFrom, Keyword, SingleCharToken, NoAscii, Lexer.CurText, TokenAt;
      ghost var p := pos.sourcePosBytes;
      Consume();
      SkipInComment(source, p + 1, pos.sourcePosBytes);
      while !IsEos()
        invariant Valid() && cur == old(cur) && tokens == old(tokens) && pos.sourcePosBytes > p
        invariant CommentEnd(source, pos.sourcePosBytes) == CommentEnd(source, p + 1)
        decreases |source| - pos.sourcePosBytes
      {
        if Is(Peek(), '*') {
          return LexPossibleEndOfComment;
        }
        ghost var q := pos.sourcePosBytes;
        Consume();
        SkipInComment(source, q + 1, pos.sourcePosBytes);
      }
      EmitToken(ErrorUnterminatedComment);
      next := End;
    }

    method LexPossibleEndOfCommentState() returns (next: State)
      requires Valid() && Follows() && Ready(LexPossibleEndOfComment)
      modifies this
      ensures Stepped(LexPossibleEndOfComment, next)
    {
      hide PositionOf, Decode, Offset, TokensFrom, Keyword, SingleCharToken, NoAscii, Lexer.CurText, TokenAt;
      Consume();
      if IsEos() {
        EmitToken(ErrorUnterminatedComment);
        return End;
      }
      if Is(Peek(), '/') {
        Consume();
        EmitToken(MultiLineComment);
        return LexRoot;
      }
      next := LexMultiLineComment;
    }

    /** One state of the machine. */
    method Step(state: State) returns (next: State)
      requires !state.End? && Valid() && Follows() && Ready(state)
      modifies this
      ensures Stepped(state, next)
    {
      hide Valid, Follows, Ready, Stepped;
      match state {
        case LexRoot => next := LexRootState();
        case LexSkip => next := LexSkipState();
        case LexSingleCharTokens => next := LexSingleCharTokensState();
        case LexEqualsOrResponse => next := LexEqualsOrResponseState();
        case LexName => next := LexNameState();
        case LexOrdinal => next := LexOrdinalState();
        case LexNumber => next := LexNumberState();
        case LexDec => next := LexDecState();
        case LexNumberStartWithZero => next := LexNumberStartWithZeroState();
        case LexHexNumber => next := LexHexNumberState();
        case LexFractionPart => next := LexFractionPartState();
        case LexExponentPart => next := LexExponentPartState();
        case LexString => next := LexStringState();
        case LexComment => next := LexCommentState();
        case LexSingleLineComment => next := LexSingleLineCommentState();
        case LexMultiLineComment => next := LexMultiLineCommentState();
        case LexPossibleEndOfComment => next := LexPossibleEndOfCommentState();
      }
    }

    /** Runs the machine until it stops, which it does. */
    method Run()
      requires Valid() && Follows() && tokens == [] && cur == pos
      modifies this
      ensures Valid() && tokens == TokensFrom(source, 0)
    {
      hide PositionOf, TokensFrom, Expects;
      var state := LexRoot;
      while !state.End?
        invariant Valid() && (if state.End? then tokens == TokensFrom(source, 0) else Follows() && Ready(state))
        decreases |source| - pos.sourcePosBytes, Rank(state)
      {
        state := Step(state);
      }
    }
  }

  /** The unfiltered token stream of a source text: its tokens, which make it up
      together with the blanks between them, to its end or to the end of an
      error, and are as long as they can be. */
  method Tokenize(source: seq<byte>) returns (tokens: seq<Token>)
    ensures tokens == TokensFrom(source, 0)
    ensures Tiles(source, tokens, 0, StreamEnd(source, tokens)) && Proper(source, tokens)
    ensures !Clean(tokens) ==> IsError(tokens[|tokens| - 1].kind) && CleanToLast(tokens)
    ensures AllLongest(source, tokens)
  {
    hide PositionOf, Tiles, Proper, TokensFrom, Lexer.Valid, AllLongest;
    var lexer := new Lexer(source);
    lexer.Run();
    tokens := lexer.tokens;
    StreamLaws(source, 0);
    StreamLongest(source, 0);
  }
}
