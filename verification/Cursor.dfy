/**
  The position state of one open block of the Go codec, shared by the encoder
  and the decoder, and the capacity check both make before every item.
*/
module Cursor {
  import opened Wire
  import opened Layout

  /** `offset` and `bitOffset` name the next unprocessed bit, `limit` the end of
      the block; arrays also count their elements. */
  datatype State = State(offset: nat, bitOffset: nat, limit: nat, elements: nat, processed: nat, check: bool)
  {
    /** The first whole byte at or behind the cursor. */
    function ByteOffset(): nat { if bitOffset > 0 then offset + 1 else offset }

    /** Where an item of `n` bytes goes. */
    function Pos(n: nat): nat
      requires n in {1, 2, 4, 8}
    {
      RoundUp(ByteOffset(), n)
    }

    /** The array has elements left. */
    predicate Quota() { check ==> processed < elements }

    /** The cursor behind an item of `n` bytes. */
    function SkipItem(n: nat): State
      requires n in {1, 2, 4, 8}
    {
      this.(offset := Pos(n) + n, bitOffset := 0, processed := processed + 1)
    }

    /** The cursor behind one bit. */
    function SkipBit(): State {
      this.(offset := offset + (bitOffset + 1) / 8, bitOffset := (bitOffset + 1) % 8, processed := processed + 1)
    }

    /** Undo the count of an element that is processed in two parts. */
    function Uncount(): State {
      this.(processed := if processed > 0 then processed - 1 else 0)
    }

    /** What the two alignment steps before a pointer do. */
    function AlignToPointer(): State {
      this.(offset := Pos(8), bitOffset := 0)
    }
  }

  /** The check made before an item of `bitSize` bits. */
  predicate Guard(st: State, bitSize: nat)
    requires bitSize > 0
  {
    && st.Quota()
    && var byteSize := BytesForBits(st.bitOffset + bitSize);
       Align(st.offset + byteSize, byteSize) <= st.limit
  }

  lemma AlignIsRoundUp(x: nat, n: nat)
    requires n in {1, 2, 4, 8}
    ensures Align(x, n) == RoundUp(x, n)
  {
    hide Or, RoundUp, Multiple;
    if x == 0 {
      RoundUpLeast(0, n, 0) by { MultipleZero(n); }
    } else {
      OrSmall(x - 1);
      MultipleNext(x - 1, n);
      var r := Or(x - 1, n - 1) + 1;
      RoundUpLeast(x, n, r);
      MultipleGap(RoundUp(x, n), r, n);
    }
  }

  lemma MultipleZero(n: nat)
    requires n in {1, 2, 4, 8}
    ensures Multiple(0, n)
  {
  }

  lemma MultipleNext(y: nat, n: nat)
    requires n in {1, 2, 4, 8}
    ensures n == 1 ==> Multiple(y + 1, n)
    ensures n == 2 ==> Multiple(2 * (y / 2) + 2, n) && y < 2 * (y / 2) + 2 <= y + 2
    ensures n == 4 ==> Multiple(4 * (y / 4) + 4, n) && y < 4 * (y / 4) + 4 <= y + 4
    ensures n == 8 ==> Multiple(8 * (y / 8) + 8, n) && y < 8 * (y / 8) + 8 <= y + 8
  {
    assert 2 * (y / 2) + 2 == 2 * (y / 2 + 1);
    assert 4 * (y / 4) + 4 == 4 * (y / 4 + 1);
    assert 8 * (y / 8) + 8 == 8 * (y / 8 + 1);
  }

  /** Two multiples less than one step apart are equal. */
  lemma MultipleGap(a: nat, b: nat, n: nat)
    requires n in {1, 2, 4, 8} && Multiple(a, n) && Multiple(b, n) && a <= b < a + n
    ensures a == b
  {
  }

  /** The check also turns down this one legal item: eight bytes behind a
      pending bit, in the last eight bytes of the block, with the cursor in the
      upper half of a sixteen-byte line. */
  predicate Wasteful(st: State, n: nat)
    requires n in {1, 2, 4, 8}
  {
    n == 8 && st.bitOffset > 0 && st.offset % 16 >= 8 && st.limit == st.Pos(8) + 8
  }

  predicate Fitting(st: State, n: nat)
    requires n in {1, 2, 4, 8}
  {
    st.Quota() && st.Pos(n) + n <= st.limit
  }

  lemma GuardWhole(st: State, n: nat)
    requires n in {1, 2, 4, 8} && st.bitOffset == 0
    ensures Guard(st, 8 * n) <==> Fitting(st, n)
  {
    hide Align, RoundUp, Multiple;
    AlignIsRoundUp(st.offset + n, n);
    RoundUpPlus(st.offset, n);
    assert BytesForBits(8 * n) == n;
  }

  lemma RoundUpPlus(x: nat, n: nat)
    requires n in {1, 2, 4, 8}
    ensures RoundUp(x + n, n) == RoundUp(x, n) + n
  {
    hide RoundUp, Multiple;
    NextMultiple(RoundUp(x, n), n);
    RoundUpLeast(x + n, n, RoundUp(x, n) + n);
    MultipleGap(RoundUp(x + n, n), RoundUp(x, n) + n, n);
  }

  lemma NextMultiple(x: nat, n: nat)
    requires n in {1, 2, 4, 8} && Multiple(x, n)
    ensures Multiple(x + n, n)
  {
    hide Multiple;
    assert Multiple(n, n) by { MultipleItself(n); }
    MultipleSum(x, n, n);
  }

  lemma MultipleItself(n: nat)
    requires n in {1, 2, 4, 8}
    ensures Multiple(n, n)
  {
  }

  lemma MultipleSum(x: nat, y: nat, n: nat)
    requires n in {1, 2, 4, 8} && Multiple(x, n) && Multiple(y, n)
    ensures Multiple(x + y, n)
  {
    if n == 2 {
      Sum2(x, y);
    } else if n == 4 {
      Sum4(x, y);
    } else if n == 8 {
      Sum8(x, y);
    }
  }

  lemma Sum2(x: nat, y: nat)
    requires x % 2 == 0 && y % 2 == 0
    ensures (x + y) % 2 == 0
  {
  }

  lemma Sum4(x: nat, y: nat)
    requires x % 4 == 0 && y % 4 == 0
    ensures (x + y) % 4 == 0
  {
  }

  lemma Sum8(x: nat, y: nat)
    requires x % 8 == 0 && y % 8 == 0
    ensures (x + y) % 8 == 0
  {
  }

  /** With whole-word blocks the check is exact but for the wasteful case; in
      particular the odd sizes 3, 5 and 9 never let an item out of its block. */
  lemma GuardExact(st: State, n: nat)
    requires n in {1, 2, 4, 8} && st.bitOffset < 8 && st.limit % 8 == 0
    ensures Guard(st, 8 * n) <==> Fitting(st, n) && !Wasteful(st, n)
  {
    hide Align, RoundUp, Multiple;
    if st.bitOffset == 0 {
      GuardWhole(st, n);
    } else {
      assert BytesForBits(st.bitOffset + 8 * n) == n + 1;
      if n == 1 {
        PendingByte(st.offset, st.limit);
      } else if n == 2 {
        PendingShort(st.offset, st.limit);
      } else if n == 4 {
        PendingWord(st.offset, st.limit);
      } else {
        PendingLong(st.offset, st.limit);
      }
    }
  }

  lemma PendingByte(offset: nat, limit: nat)
    requires limit % 8 == 0
    ensures Align(offset + 2, 2) <= limit <==> RoundUp(offset + 1, 1) + 1 <= limit
  {
    hide Align;
    AlignIsRoundUp(offset + 2, 2);
  }

  lemma PendingShort(offset: nat, limit: nat)
    requires limit % 8 == 0
    ensures Align(offset + 3, 3) <= limit <==> RoundUp(offset + 1, 2) + 2 <= limit
  {
    hide Or, RoundUp;
    Or2(offset + 2);
    var x, r := offset + 2, RoundUp(offset + 1, 2);
    SameLine(4, x / 4, 3 + x % 2, r + 2 - 4 * (x / 4), limit, limit / 8 * 2) by {
      ShortLine(x / 4, x % 4, r / 2);
    }
  }

  /** Ends in the same line of a block are both inside or both outside. */
  lemma SameLine(line: nat, k: nat, a: int, b: int, limit: nat, m: nat)
    requires line in {4, 8, 16} && 0 < a <= line && 0 < b <= line && limit == line * m
    ensures line * k + a <= limit <==> line * k + b <= limit
  {
    if k < m {
      assert line * (k + 1) <= line * m;
    } else {
      assert line * m <= line * k;
    }
  }

  lemma ShortLine(k: nat, j: nat, u: nat)
    requires j < 4 && 4 * k + j <= 2 * u + 1 < 4 * k + j + 2
    ensures 4 * k < 2 * u + 2 <= 4 * k + 4
  {
  }

  lemma PendingWord(offset: nat, limit: nat)
    requires limit % 8 == 0
    ensures Align(offset + 5, 5) <= limit <==> RoundUp(offset + 1, 4) + 4 <= limit
  {
    hide Or, RoundUp;
    Or4(offset + 4);
    var x, r := offset + 4, RoundUp(offset + 1, 4);
    SameLine(8, x / 8, 5 + x % 4, r + 4 - 8 * (x / 8), limit, limit / 8) by {
      WordLine(x / 8, x % 8, r / 4);
    }
  }

  lemma WordLine(k: nat, j: nat, u: nat)
    requires j < 8 && 8 * k + j <= 4 * u + 3 < 8 * k + j + 4
    ensures 8 * k < 4 * u + 4 <= 8 * k + 8
  {
  }

  lemma PendingLong(offset: nat, limit: nat)
    requires limit % 8 == 0
    ensures Align(offset + 9, 9) <= limit <==>
      RoundUp(offset + 1, 8) + 8 <= limit && !(offset % 16 >= 8 && limit == RoundUp(offset + 1, 8) + 8)
  {
    hide Or, RoundUp;
    Or8(offset + 8);
    var x, r := offset + 8, RoundUp(offset + 1, 8);
    assert offset % 16 >= 8 <==> x % 16 < 8;
    LongLine(x / 16, x % 16, r / 8, x % 8, limit / 8);
  }

  lemma LongLine(k: nat, j: nat, u: nat, e: nat, m: nat)
    requires j < 16 && e < 8 && 16 * k + j <= 8 * u + 7 < 16 * k + j + 8
    ensures 16 * k + 9 + e <= 8 * m <==> 8 * u + 8 <= 8 * m && !(j < 8 && 8 * m == 8 * u + 8)
  {
    if j < 8 {
      assert u == 2 * k;
    } else {
      assert u == 2 * k + 1;
    }
  }

  /** The check before a bit is exact. */
  lemma GuardBit(st: State)
    requires st.bitOffset < 8
    ensures Guard(st, 1) <==> st.Quota() && st.offset < st.limit
  {
    hide Align;
    assert BytesForBits(st.bitOffset + 1) == 1;
    AlignIsRoundUp(st.offset + 1, 1);
  }

  /** The check does turn down a legal item. */
  lemma GuardRejectsLegalItem()
    ensures var st := State(8, 1, 24, 0, 0, false);
      Fitting(st, 8) && !Guard(st, 64)
  {
    hide Guard;
    var st := State(8, 1, 24, 0, 0, false);
    GuardExact(st, 8);
    assert st.Pos(8) == 16;
  }
}
