/**
  Bytes, bits and little-endian integers, and the two size helpers of the Go
  runtime.
*/
module Wire {

  type byte = n: int | 0 <= n < 256

  datatype Option<+T> = None | Some(value: T)

  // -------------------------------------------------------- little endian

  function Pow256(n: nat): (r: nat)
    ensures r > 0
  {
    if n == 0 then 1 else 256 * Pow256(n - 1)
  }

  /** The `n` low bytes of `v`, least significant first. */
  function LittleEndian(v: nat, n: nat): (s: seq<byte>)
    ensures |s| == n
    decreases n
  {
    if n == 0 then [] else [v % 256] + LittleEndian(v / 256, n - 1)
  }

  function Value(s: seq<byte>): (v: nat) {
    if s == [] then 0 else s[0] + 256 * Value(s[1..])
  }

  lemma {:induction false} LittleEndianRoundTrip(v: nat, n: nat)
    requires v < Pow256(n)
    ensures Value(LittleEndian(v, n)) == v
    decreases n
  {
    if n > 0 {
      LittleEndianRoundTrip(v / 256, n - 1);
      assert LittleEndian(v, n)[1..] == LittleEndian(v / 256, n - 1);
    }
  }

  lemma {:induction false} ValueBound(s: seq<byte>)
    ensures Value(s) < Pow256(|s|)
  {
    if s != [] {
      ValueBound(s[1..]);
    }
  }

  lemma Powers()
    ensures Pow256(1) == 0x100 && Pow256(2) == 0x1_0000 && Pow256(4) == 0x1_0000_0000
    ensures Pow256(8) == 0x1_0000_0000_0000_0000
  {
    assert Pow256(0) == 1;
    assert Pow256(1) == 256 * Pow256(0);
    assert Pow256(2) == 256 * Pow256(1);
    assert Pow256(3) == 256 * Pow256(2);
    assert Pow256(4) == 256 * Pow256(3);
    assert Pow256(5) == 256 * Pow256(4);
    assert Pow256(6) == 256 * Pow256(5);
    assert Pow256(7) == 256 * Pow256(6);
    assert Pow256(8) == 256 * Pow256(7);
  }

  // ------------------------------------------------------------------ bits

  /** Bit `k` of `x`. */
  predicate Bit(x: nat, k: nat) {
    if k == 0 then x % 2 == 1 else Bit(x / 2, k - 1)
  }

  /** `x | (1 << k)`. */
  function SetBit(x: nat, k: nat): nat {
    if k == 0 then (if x % 2 == 1 then x else x + 1) else 2 * SetBit(x / 2, k - 1) + x % 2
  }

  /** `x` with bit `k` set or cleared. */
  function PutBit(x: nat, k: nat, b: bool): nat {
    if k == 0 then x / 2 * 2 + (if b then 1 else 0) else 2 * PutBit(x / 2, k - 1, b) + x % 2
  }

  lemma {:induction false} PutBitMeans(x: nat, k: nat, b: bool, j: nat)
    ensures Bit(PutBit(x, k, b), j) == if j == k then b else Bit(x, j)
    decreases k
  {
    if k > 0 {
      var y := PutBit(x / 2, k - 1, b);
      assert (2 * y + x % 2) / 2 == y && (2 * y + x % 2) % 2 == x % 2;
      if j > 0 {
        PutBitMeans(x / 2, k - 1, b, j - 1);
      }
    } else if j > 0 {
      assert (x / 2 * 2 + (if b then 1 else 0)) / 2 == x / 2;
    }
  }

  lemma {:induction false} PutBitFits(x: nat, k: nat, b: bool, n: nat)
    requires Fits(x, n) && k < n
    ensures Fits(PutBit(x, k, b), n)
    decreases k
  {
    if k > 0 {
      PutBitFits(x / 2, k - 1, b, n - 1);
      var y := PutBit(x / 2, k - 1, b);
      assert (2 * y + x % 2) / 2 == y;
    } else {
      assert (x / 2 * 2 + (if b then 1 else 0)) / 2 == x / 2;
    }
  }

  function PutByteBit(x: byte, k: nat, b: bool): (r: byte)
    requires k < 8
  {
    FitsByte(x);
    PutBitFits(x, k, b, 8);
    FitsByte(PutBit(x, k, b));
    PutBit(x, k, b)
  }

  /** The low `b` bits of `x`. */
  function Low(x: nat, b: nat): nat {
    if b == 0 then 0 else x % 2 + 2 * Low(x / 2, b - 1)
  }

  /** `x` has no bit at `b` or above. */
  predicate Fits(x: nat, b: nat) {
    if b == 0 then x == 0 else Fits(x / 2, b - 1)
  }

  lemma {:induction false} LowShorter(x: nat, y: nat, b: nat, c: nat)
    requires Low(x, c) == Low(y, c) && b <= c
    ensures Low(x, b) == Low(y, b)
    decreases b
  {
    if b > 0 {
      LowShorter(x / 2, y / 2, b - 1, c - 1);
    }
  }

  lemma {:induction false} LowBit(x: nat, y: nat, k: nat, b: nat)
    requires Low(x, b) == Low(y, b) && k < b
    ensures Bit(x, k) == Bit(y, k)
    decreases k
  {
    if k > 0 {
      LowBit(x / 2, y / 2, k - 1, b - 1);
    }
  }

  lemma {:induction false} FitsNoBit(x: nat, b: nat)
    requires Fits(x, b)
    ensures !Bit(x, b) && Fits(x, b + 1)
    decreases b
  {
    if b > 0 {
      FitsNoBit(x / 2, b - 1);
    }
  }

  lemma {:induction false} SetBitMeans(x: nat, b: nat)
    requires Fits(x, b)
    ensures Bit(SetBit(x, b), b) && Fits(SetBit(x, b), b + 1)
    ensures Low(SetBit(x, b), b) == Low(x, b)
    decreases b
  {
    if b > 0 {
      SetBitMeans(x / 2, b - 1);
      var y := SetBit(x / 2, b - 1);
      assert (2 * y + x % 2) / 2 == y && (2 * y + x % 2) % 2 == x % 2;
    }
  }

  lemma {:induction false} SetBitFits(x: nat, k: nat, b: nat)
    requires Fits(x, b) && k < b
    ensures Fits(SetBit(x, k), b)
    decreases k
  {
    if k > 0 {
      SetBitFits(x / 2, k - 1, b - 1);
      var y := SetBit(x / 2, k - 1);
      assert (2 * y + x % 2) / 2 == y;
    } else {
      assert (if x % 2 == 1 then x else x + 1) / 2 == x / 2;
    }
  }

  /** `x | (1 << k)` on bytes. */
  function SetByteBit(x: byte, k: nat): (r: byte)
    requires k < 8
    ensures r == SetBit(x, k)
  {
    FitsByte(x);
    SetBitFits(x, k, 8);
    FitsByte(SetBit(x, k));
    SetBit(x, k)
  }

  lemma FitsByte(x: nat)
    ensures Fits(x, 8) <==> x < 256
  {
    assert Fits(x, 8) == Fits(x / 2, 7);
    assert Fits(x / 2, 7) == Fits(x / 2 / 2, 6);
    var y := x / 2 / 2;
    assert Fits(y, 6) == Fits(y / 2, 5) && Fits(y / 2, 5) == Fits(y / 2 / 2, 4);
    var z := y / 2 / 2;
    assert Fits(z, 4) == Fits(z / 2, 3) && Fits(z / 2, 3) == Fits(z / 2 / 2, 2);
    var w := z / 2 / 2;
    assert Fits(w, 2) == Fits(w / 2, 1) && Fits(w / 2, 1) == Fits(w / 2 / 2, 0);
  }

  // ---------------------------------------------------------------- helpers

  /** Bitwise or. */
  function Or(x: nat, y: nat): (r: nat)
    ensures r >= x
    decreases y
  {
    if y == 0 then x else
      2 * Or(x / 2, y / 2) + (if x % 2 == 1 || y % 2 == 1 then 1 else 0)
  }

  /** `((size - 1) | (alignment - 1)) + 1`; `-1 | m` is `-1`. */
  function Align(size: nat, alignment: nat): (r: nat)
    requires alignment > 0
    ensures r >= size
  {
    if size == 0 then 0 else Or(size - 1, alignment - 1) + 1
  }

  function BytesForBits(bits: nat): nat {
    (bits + 7) / 8
  }

  lemma OrHalf(h: nat, c: nat, y: nat)
    requires c < 2 && y > 0
    ensures Or(2 * h + c, 2 * y) == 2 * Or(h, y) + c
    ensures Or(2 * h + c, 1) == 2 * h + 1
  {
    assert (2 * h + c) / 2 == h && (2 * h + c) % 2 == c;
    assert 2 * y / 2 == y;
    assert Or(h, 0) == h;
  }

  lemma OrSmall(x: nat)
    ensures Or(x, 0) == x
    ensures Or(x, 1) == 2 * (x / 2) + 1
    ensures Or(x, 3) == 4 * (x / 4) + 3
    ensures Or(x, 7) == 8 * (x / 8) + 7
  {
    var a, b := x / 2, x / 2 / 2;
    assert b == x / 4 && b / 2 == x / 8;
    assert Or(x, 1) == 2 * Or(a, 0) + 1;
    assert Or(x, 3) == 2 * Or(a, 1) + 1 && Or(a, 1) == 2 * Or(b, 0) + 1;
    assert Or(x, 7) == 2 * Or(a, 3) + 1 && Or(a, 3) == 2 * Or(b, 1) + 1 && Or(b, 1) == 2 * Or(b / 2, 0) + 1;
  }

  /** Quotients and remainders from a witness. */
  lemma Parts2(x: nat, q: nat, r: nat)
    requires x == 2 * q + r && r < 2
    ensures x % 2 == r
  {
  }

  lemma Parts4(x: nat, q: nat, r: nat)
    requires x == 4 * q + r && r < 4
    ensures x / 4 == q && x % 4 == r
  {
  }

  lemma Parts8(x: nat, q: nat, r: nat)
    requires x == 8 * q + r && r < 8
    ensures x / 8 == q && x % 8 == r
  {
  }

  lemma Parts16(x: nat, q: nat, r: nat)
    requires x == 16 * q + r && r < 16
    ensures x / 16 == q
  {
  }

  /** Setting a bit, digit by digit. */
  lemma Or1Of(h: nat, c: nat)
    requires c < 2
    ensures Or(2 * h + c, 1) == 2 * h + 1
  {
    OrHalf(h, c, 1);
  }

  lemma Or2Of(h: nat, c: nat, r: nat)
    requires c < 2 && r < 2
    ensures Or(4 * h + 2 * c + r, 2) == 4 * h + 2 + r
  {
    hide Or;
    OrHalf(2 * h + c, r, 1);
    Or1Of(h, c);
    assert 2 * (2 * h + c) + r == 4 * h + 2 * c + r;
  }

  lemma Or4Of(h: nat, c: nat, r: nat, q: nat)
    requires c < 2 && r < 2 && q < 2
    ensures Or(8 * h + 4 * c + 2 * r + q, 4) == 8 * h + 4 + 2 * r + q
  {
    hide Or;
    OrHalf(4 * h + 2 * c + r, q, 2);
    Or2Of(h, c, r);
    assert 2 * (4 * h + 2 * c + r) + q == 8 * h + 4 * c + 2 * r + q;
  }

  lemma Or8Of(h: nat, c: nat, r: nat, q: nat, b: nat)
    requires c < 2 && r < 2 && q < 2 && b < 2
    ensures Or(16 * h + 8 * c + 4 * r + 2 * q + b, 8) == 16 * h + 8 + 4 * r + 2 * q + b
  {
    hide Or;
    OrHalf(8 * h + 4 * c + 2 * r + q, b, 4);
    Or4Of(h, c, r, q);
    assert 2 * (8 * h + 4 * c + 2 * r + q) + b == 16 * h + 8 * c + 4 * r + 2 * q + b;
  }

  /** The four low bits of a number and what is above them. */
  lemma LowBits(x: nat) returns (d: nat, c3: nat, c2: nat, c1: nat, c0: nat)
    ensures c3 < 2 && c2 < 2 && c1 < 2 && c0 < 2
    ensures x == 16 * d + 8 * c3 + 4 * c2 + 2 * c1 + c0
  {
    var a, b, c := x / 2, x / 2 / 2, x / 2 / 2 / 2;
    d, c3, c2, c1, c0 := c / 2, c % 2, b % 2, a % 2, x % 2;
    assert c == 2 * d + c3;
    assert b == 2 * c + c2;
    assert a == 2 * b + c1;
    assert x == 2 * a + c0;
  }

  lemma Or2(x: nat)
    ensures Or(x, 2) == 4 * (x / 4) + 2 + x % 2
  {
    hide Or;
    var d, c3, c2, c1, c0 := LowBits(x);
    Or2Of(4 * d + 2 * c3 + c2, c1, c0);
    Parts4(x, 4 * d + 2 * c3 + c2, 2 * c1 + c0);
    Parts2(x, 8 * d + 4 * c3 + 2 * c2 + c1, c0);
  }

  lemma Or4(x: nat)
    ensures Or(x, 4) == 8 * (x / 8) + 4 + x % 4
  {
    hide Or;
    var d, c3, c2, c1, c0 := LowBits(x);
    Or4Of(2 * d + c3, c2, c1, c0);
    Parts8(x, 2 * d + c3, 4 * c2 + 2 * c1 + c0);
    Parts4(x, 4 * d + 2 * c3 + c2, 2 * c1 + c0);
  }

  lemma Or8(x: nat)
    ensures Or(x, 8) == 16 * (x / 16) + 8 + x % 8
  {
    hide Or;
    var d, c3, c2, c1, c0 := LowBits(x);
    Or8Of(d, c3, c2, c1, c0);
    Parts16(x, d, 8 * c3 + 4 * c2 + 2 * c1 + c0);
    Parts8(x, 2 * d + c3, 4 * c2 + 2 * c1 + c0);
  }
}
