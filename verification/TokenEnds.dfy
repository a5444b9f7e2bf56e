/**
  Where comments and string literals end: the scan from left to right against
  what precedes the closing characters.
*/
module TokenEnds {
  import opened Wire
  import opened Utf8
  import opened Tokens

  // ---- Where a comment ends ----

  /** The stars that end with the one at `k`, counted back to `lo`. */
  function Stars(source: seq<byte>, lo: nat, k: nat): (n: nat)
    requires lo <= k < |source|
    ensures n <= k - lo + 1
    decreases k
  {
    if !Is(source[k], '*') then 0 else if k == lo then 1 else 1 + Stars(source, lo, k - 1)
  }

  /** A star with a slash behind it. */
  predicate Closes(source: seq<byte>, k: nat) { k + 1 < |source| && Is(source[k], '*') && Is(source[k + 1], '/') }

  lemma {:induction false} StarsFrom(source: seq<byte>, lo: nat, k: nat)
    requires lo < k < |source|
    ensures Stars(source, lo, k) == Stars(source, lo + 1, k) + if Stars(source, lo + 1, k) == k - lo && Is(source[lo], '*') then 1 else 0
    decreases k
  {
    if lo + 1 < k {
      StarsFrom(source, lo, k - 1);
    }
  }

  lemma {:induction false} StarsSkip(source: seq<byte>, i: nat, x: nat)
    requires i < x < |source|
    ensures !Is(source[i], '*') ==> Stars(source, i, x) == Stars(source, i + 1, x)
    ensures i + 2 <= x && Is(source[i], '*') ==> Stars(source, i, x) % 2 == Stars(source, i + 2, x) % 2
  {
    StarsFrom(source, i, x);
    if i + 2 <= x {
      StarsFrom(source, i + 1, x);
    }
  }

  /** A star and a slash, with an odd number of stars up to here since `lo`. */
  predicate Ending(source: seq<byte>, lo: nat, k: nat) { lo <= k && Closes(source, k) && Stars(source, lo, k) % 2 == 1 }

  ghost predicate FirstEnding(source: seq<byte>, lo: nat, k: nat) {
    Ending(source, lo, k) && forall x | lo <= x < k :: !Ending(source, lo, x)
  }

  lemma SameEnding(source: seq<byte>, i: nat, j: nat, k: nat)
    requires i <= j && (forall x | i <= x < j :: !Ending(source, i, x)) && forall x | j <= x :: Ending(source, i, x) <==> Ending(source, j, x)
    ensures FirstEnding(source, i, k) <==> FirstEnding(source, j, k)
  {
  }

  /** The comment ends at the first star and slash that end a run of stars of odd
      length. */
  lemma {:induction false} CommentEndsExactly(source: seq<byte>, i: nat, k: nat)
    requires i <= |source|
    ensures CommentEnd(source, i) == Some(k + 2) <==> FirstEnding(source, i, k)
    decreases |source| - i
  {
    hide Stars;
    if i < |source| {
      OneStar(source, i);
      var j := if Is(source[i], '*') then i + 2 else i + 1;
      if Closes(source, i) {
        assert Ending(source, i, i);
      } else if j <= |source| {
        CommentEndsExactly(source, j, k);
        forall x | j <= x ensures Ending(source, i, x) <==> Ending(source, j, x) {
          if x < |source| {
            StarsSkip(source, i, x);
          }
        }
        assert !Ending(source, i, i) && (j == i + 2 ==> !Ending(source, i, i + 1));
        SameEnding(source, i, j, k);
      }
    }
  }

  lemma OneStar(source: seq<byte>, i: nat)
    requires i < |source|
    ensures Stars(source, i, i) == if Is(source[i], '*') then 1 else 0
    ensures i + 1 < |source| && Is(source[i], '*') && Is(source[i + 1], '*') ==> Stars(source, i, i + 1) == 2
  {
    if i + 1 < |source| {
      StarsFrom(source, i, i + 1);
    }
  }

  /** The first star and slash after the opening end the comment if and only if the
      stars that end there, not counting the star of the opening, are odd in
      number. */
  lemma FirstCloseEnds(source: seq<byte>, i: nat, k: nat)
    requires i <= k && Closes(source, k) && forall x | i <= x < k :: !Closes(source, x)
    ensures CommentEnd(source, i) == Some(k + 2) <==> Stars(source, i, k) % 2 == 1
  {
    hide Stars, CommentEnd;
    CommentEndsExactly(source, i, k);
  }

  /** A comment that is closed is taken for unterminated: three stars between the
      slashes. With two it is a comment. */
  lemma CommentMissesClose()
    ensures TokenAt(Ascii("/***/"), 0) == Lexeme(ErrorUnterminatedComment, 5)
    ensures TokenAt(Ascii("/**/"), 0) == Lexeme(MultiLineComment, 4)
  {
    var a, b := Ascii("/***/"), Ascii("/**/");
    assert CommentEnd(a, 5) == None;
    assert CommentEnd(a, 4) == None;
    assert CommentEnd(a, 2) == None;
    assert CommentEnd(b, 2) == Some(4);
  }

  // ---- Where a string literal ends ----

  /** The backslashes right before `k`, counted back to `lo`. */
  function Slashes(source: seq<byte>, lo: nat, k: nat): (n: nat)
    requires lo <= k <= |source|
    ensures n <= k - lo
    decreases k
  {
    if k == lo || !Is(source[k - 1], '\\') then 0 else 1 + Slashes(source, lo, k - 1)
  }

  /** What is at `k` stands for itself: an even number of backslashes before it. */
  predicate Unescaped(source: seq<byte>, lo: nat, k: nat) { lo <= k <= |source| && Slashes(source, lo, k) % 2 == 0 }

  predicate QuoteAt(source: seq<byte>, k: nat) { k < |source| && Is(source[k], '"') }

  predicate BreakAt(source: seq<byte>, k: nat) { k < |source| && source[k] == NEWLINE }

  lemma {:induction false} SlashesFrom(source: seq<byte>, lo: nat, k: nat)
    requires lo < k <= |source|
    ensures Slashes(source, lo, k) == Slashes(source, lo + 1, k) + if Slashes(source, lo + 1, k) == k - lo - 1 && Is(source[lo], '\\') then 1 else 0
    decreases k
  {
    if lo + 1 < k {
      SlashesFrom(source, lo, k - 1);
    }
  }

  lemma SlashesSkip(source: seq<byte>, i: nat, x: nat)
    requires i < x <= |source|
    ensures !Is(source[i], '\\') ==> Slashes(source, i, x) == Slashes(source, i + 1, x)
    ensures i + 2 <= x && Is(source[i], '\\') ==> Slashes(source, i, x) % 2 == Slashes(source, i + 2, x) % 2
    ensures x == i + 1 && Is(source[i], '\\') ==> Slashes(source, i, x) == 1
  {
    SlashesFrom(source, i, x);
    if i + 2 <= x {
      SlashesFrom(source, i + 1, x);
    }
  }

  /** Something that ends a string literal, or breaks it off. */
  predicate Ends(source: seq<byte>, lo: nat, k: nat) { (QuoteAt(source, k) || BreakAt(source, k)) && Unescaped(source, lo, k) }

  ghost predicate FirstQuote(source: seq<byte>, lo: nat, k: nat) {
    QuoteAt(source, k) && Unescaped(source, lo, k) && forall x | lo <= x < k :: !Ends(source, lo, x)
  }

  lemma SameQuote(source: seq<byte>, i: nat, j: nat, k: nat)
    requires i <= j && (forall x | i <= x < j :: !Ends(source, i, x))
    requires forall x | j <= x < |source| :: Unescaped(source, i, x) <==> Unescaped(source, j, x)
    ensures FirstQuote(source, i, k) <==> FirstQuote(source, j, k)
  {
    if i <= k < j {
      assert !Ends(source, i, k);
    }
    assert forall x | j <= x :: Ends(source, i, x) <==> Ends(source, j, x);
  }

  /** A string literal ends at the first quote with an even number of backslashes
      before it, if no line break that is not escaped comes first. */
  lemma {:induction false} StringEndsExactly(source: seq<byte>, i: nat, k: nat)
    requires i <= |source|
    ensures ScanString(source, i) == Lexeme(StringLiteral, k + 1) <==> FirstQuote(source, i, k)
    decreases |source| - i
  {
    hide Slashes;
    if i < |source| {
      NoSlashes(source, i);
      if QuoteAt(source, i) || BreakAt(source, i) {
        assert Ends(source, i, i);
      } else {
        var j := if Is(source[i], '\\') && i + 1 < |source| then i + 2 else i + 1;
        StringEndsExactly(source, j, k);
        SlashesSkip(source, i, i + 1);
        forall x | j <= x < |source| ensures Unescaped(source, i, x) <==> Unescaped(source, j, x) {
          SlashesSkip(source, i, x);
        }
        assert !Ends(source, i, i) && (j == i + 2 ==> !Ends(source, i, i + 1));
        SameQuote(source, i, j, k);
      }
    }
  }

  lemma NoSlashes(source: seq<byte>, i: nat)
    requires i <= |source|
    ensures Slashes(source, i, i) == 0
  {
  }
}
