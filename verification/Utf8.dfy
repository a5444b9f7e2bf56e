/**
  Runes in UTF-8 source text, and positions counted from the beginning of it.
*/
module Utf8 {
  import opened Wire

  /** A decoded rune and the bytes it takes. */
  datatype Rune = Rune(value: nat, width: nat)

  /** The replacement rune stands for any byte that begins no valid sequence. */
  const RUNE_ERROR := 0xFFFD

  const NEWLINE := 10

  predicate In(b: int, lo: int, hi: int) { lo <= b <= hi }

  /** `b` may follow the first byte `b0` of a longer sequence. */
  predicate Second(b0: int, b: int) {
    if b0 == 0xE0 then In(b, 0xA0, 0xBF)
    else if b0 == 0xED then In(b, 0x80, 0x9F)
    else if b0 == 0xF0 then In(b, 0x90, 0xBF)
    else if b0 == 0xF4 then In(b, 0x80, 0x8F)
    else In(b, 0x80, 0xBF)
  }

  function Six(b: byte): int { b - 0x80 }

  function Decode(s: seq<byte>): (r: Rune)
    requires s != []
    ensures 1 <= r.width <= |s|
    ensures if s[0] < 0x80 then r == Rune(s[0], 1) else r.value >= 0x80
  {
    var b0: int := s[0];
    if b0 < 0x80 then Rune(b0, 1)
    else if In(b0, 0xC2, 0xDF) && |s| >= 2 && Second(b0, s[1]) then Rune(64 * (b0 - 0xC0) + Six(s[1]), 2)
    else if In(b0, 0xE0, 0xEF) && |s| >= 3 && Second(b0, s[1]) && In(s[2], 0x80, 0xBF) then
      Rune(4096 * (b0 - 0xE0) + 64 * Six(s[1]) + Six(s[2]), 3)
    else if In(b0, 0xF0, 0xF4) && |s| >= 4 && Second(b0, s[1]) && In(s[2], 0x80, 0xBF) && In(s[3], 0x80, 0xBF) then
      Rune(262144 * (b0 - 0xF0) + 4096 * Six(s[1]) + 64 * Six(s[2]) + Six(s[3]), 4)
    else Rune(RUNE_ERROR, 1)
  }

  // ---- Decoding against encoding ----

  /** A rune that has an encoding: no surrogate, at most 0x10FFFF. */
  predicate IsScalar(r: nat) { r < 0xD800 || 0xE000 <= r <= 0x10FFFF }

  /** UTF-8 as section 3 of RFC 3629 defines it. */
  function Encode(r: nat): (s: seq<byte>)
    requires IsScalar(r)
    ensures 1 <= |s| <= 4
  {
    if r < 0x80 then [r]
    else if r < 0x800 then [0xC0 + r / 0x40, 0x80 + r % 0x40]
    else if r < 0x1_0000 then [0xE0 + r / 0x1000, 0x80 + r / 0x40 % 0x40, 0x80 + r % 0x40]
    else [0xF0 + r / 0x4_0000, 0x80 + r / 0x1000 % 0x40, 0x80 + r / 0x40 % 0x40, 0x80 + r % 0x40]
  }

  /** The four digits of a rune to base 64. */
  lemma Digits(r: nat)
    ensures r == 0x40 * (r / 0x40) + r % 0x40
    ensures r / 0x40 == 0x40 * (r / 0x1000) + r / 0x40 % 0x40
    ensures r / 0x1000 == 0x40 * (r / 0x4_0000) + r / 0x1000 % 0x40
  {
    assert r / 0x1000 == (r / 0x40) / 0x40;
    assert r / 0x4_0000 == (r / 0x1000) / 0x40;
  }

  lemma LastDigit(q: nat, d: nat)
    requires d < 0x40
    ensures (0x40 * q + d) / 0x40 == q && (0x40 * q + d) % 0x40 == d
  {
  }

  /** Four digits, from the rune they make. */
  lemma DigitsOf(a: nat, b: nat, c: nat, d: nat)
    requires b < 0x40 && c < 0x40 && d < 0x40
    ensures var r := 0x4_0000 * a + 0x1000 * b + 0x40 * c + d;
      r / 0x4_0000 == a && r / 0x1000 % 0x40 == b && r / 0x40 % 0x40 == c && r % 0x40 == d
  {
    var r := 0x4_0000 * a + 0x1000 * b + 0x40 * c + d;
    LastDigit(0x1000 * a + 0x40 * b + c, d);
    LastDigit(0x40 * a + b, c);
    LastDigit(a, b);
    Digits(r);
  }

  /** An encoded rune decodes to itself, whatever follows. */
  lemma DecodesEncoded(r: nat, rest: seq<byte>)
    requires IsScalar(r)
    ensures Decode(Encode(r) + rest) == Rune(r, |Encode(r)|)
  {
    Digits(r);
    var s := Encode(r) + rest;
    assert s[0] == Encode(r)[0] && forall i | 0 <= i < |Encode(r)| :: s[i] == Encode(r)[i];
  }

  /** A sequence of two or three bytes spells the rune it decodes to. */
  lemma LongIsEncoded(s: seq<byte>)
    requires s != [] && 1 < Decode(s).width < 4
    ensures var d := Decode(s);
      IsScalar(d.value) && d.width == |Encode(d.value)| && s[..d.width] == Encode(d.value)
  {
    var d := Decode(s);
    Digits(d.value);
    if d.width == 2 {
      assert s[..2] == [s[0], s[1]];
    } else {
      assert s[..3] == [s[0], s[1], s[2]];
    }
  }

  /** So does one of four. */
  lemma LongestIsEncoded(s: seq<byte>)
    requires s != [] && Decode(s).width == 4
    ensures var d := Decode(s);
      IsScalar(d.value) && d.width == |Encode(d.value)| && s[..d.width] == Encode(d.value)
  {
    DigitsOf(s[0] - 0xF0, Six(s[1]), Six(s[2]), Six(s[3]));
    assert s[..4] == [s[0], s[1], s[2], s[3]];
  }

  /** A byte that decodes to the replacement rune begins no encoded rune. */
  lemma ErrorBeginsNone(s: seq<byte>, r: nat)
    requires s != [] && s[0] >= 0x80 && Decode(s).width == 1 && IsScalar(r)
    ensures !(Encode(r) <= s)
  {
    hide Decode, Encode;
    if Encode(r) <= s {
      assert Encode(r) + s[|Encode(r)|..] == s;
      DecodesEncoded(r, s[|Encode(r)|..]);
      assert |Encode(r)| == 1;
      ShortIsAscii(r);
    }
  }

  lemma ShortIsAscii(r: nat)
    requires IsScalar(r) && |Encode(r)| == 1
    ensures r < 0x80 && Encode(r) == [r]
  {
  }

  /** What decodes is an encoded rune, or a single byte that begins none. */
  lemma DecodedIsEncoded(s: seq<byte>)
    requires s != []
    ensures var d := Decode(s);
      || (IsScalar(d.value) && d.width == |Encode(d.value)| && s[..d.width] == Encode(d.value))
      || (d == Rune(RUNE_ERROR, 1) && forall r | IsScalar(r) :: !(Encode(r) <= s))
  {
    if s[0] < 0x80 {
      assert s[..1] == [s[0]];
    } else if Decode(s).width > 1 {
      if Decode(s).width < 4 {
        LongIsEncoded(s);
      } else {
        LongestIsEncoded(s);
      }
    } else {
      forall r | IsScalar(r) ensures !(Encode(r) <= s) {
        ErrorBeginsNone(s, r);
      }
    }
  }

  // ---- Counting from the beginning ----

  /** The byte at which rune `k` begins. */
  function Offset(source: seq<byte>, k: nat): (o: nat)
    ensures o <= |source|
  {
    if k == 0 then 0
    else
      var before := Offset(source, k - 1);
      if before < |source| then before + Decode(source[before..]).width else before
  }

  /** Rune `k`. */
  function RuneAt(source: seq<byte>, k: nat): nat {
    if Offset(source, k) < |source| then Decode(source[Offset(source, k)..]).value else RUNE_ERROR
  }

  /** The line breaks among the first `k` runes. */
  function Breaks(source: seq<byte>, k: nat): nat {
    if k == 0 then 0 else Breaks(source, k - 1) + if RuneAt(source, k - 1) == NEWLINE then 1 else 0
  }

  /** The rune at which the line of rune `k` begins. */
  function LineStart(source: seq<byte>, k: nat): (l: nat)
    ensures l <= k
  {
    if k == 0 then 0 else if RuneAt(source, k - 1) == NEWLINE then k else LineStart(source, k - 1)
  }

  /** A position as the lexer keeps it. */
  datatype Position = Position(sourcePosBytes: nat, sourcePos: nat, lineNo: nat, linePos: nat, linePosBytes: nat)

  /** The position of rune `k`, counted from the beginning. */
  function PositionOf(source: seq<byte>, k: nat): Position {
    OffsetGrows(source, LineStart(source, k), k);
    Position(Offset(source, k), k, Breaks(source, k), k - LineStart(source, k), Offset(source, k) - Offset(source, LineStart(source, k)))
  }

  lemma {:induction false} OffsetGrows(source: seq<byte>, j: nat, k: nat)
    requires j <= k
    ensures Offset(source, j) <= Offset(source, k)
    decreases k
  {
    if j < k {
      OffsetGrows(source, j, k - 1);
    }
  }

  lemma OffsetStep(source: seq<byte>, k: nat)
    requires Offset(source, k) < |source|
    ensures Offset(source, k + 1) == Offset(source, k) + Decode(source[Offset(source, k)..]).width > Offset(source, k)
  {
    hide Decode;
  }

  /** One more rune: the position it leads to. */
  function Advance(p: Position, r: Rune): Position {
    if r.value == NEWLINE then Position(p.sourcePosBytes + r.width, p.sourcePos + 1, p.lineNo + 1, 0, 0)
    else Position(p.sourcePosBytes + r.width, p.sourcePos + 1, p.lineNo, p.linePos + 1, p.linePosBytes + r.width)
  }

  /** Stepping from rune to rune agrees with counting from the beginning. */
  lemma PositionStep(source: seq<byte>, k: nat)
    requires Offset(source, k) < |source|
    ensures PositionOf(source, k + 1) == Advance(PositionOf(source, k), Decode(source[Offset(source, k)..]))
  {
    OffsetGrows(source, LineStart(source, k), k);
  }

  /** Behind the first byte of a rune there is no ASCII byte. */
  lemma NoAsciiInside(s: seq<byte>, i: nat)
    requires s != [] && 1 <= i < Decode(s).width
    ensures s[i] >= 0x80
  {
  }
}
