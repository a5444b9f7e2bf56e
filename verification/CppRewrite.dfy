/**
  What decoding leaves behind: the visited slots hold pointers and the visited
  words hold handles, read off the message as it came, and nothing else has
  changed.
*/
module CppRewrite {
  import opened Wire
  import opened CppValues
  import opened CppImage
  import opened CppValidate
  import opened CppVisit

  /** The byte at address `x`. */
  function ByteAt(mem: seq<byte>, base: nat, x: int): byte
    requires base <= x < base + |mem|
  {
    mem[x - base]
  }

  /** A part of the memory, [own, ownEnd) and [lo, hi), and of the handle vector,
      [hb, he). */
  datatype Area = Area(own: nat, ownEnd: nat, lo: nat, hi: nat, hb: nat, he: nat)
  {
    predicate Has(x: int) { own <= x < ownEnd || lo <= x < hi }

    predicate Proper() { own <= ownEnd <= lo <= hi && hb <= he }
  }

  /** A message as it came: its bytes, their address, the handles with it. */
  datatype Message = Message(bytes: seq<byte>, base: nat, items: seq<nat>)
  {
    predicate Holds(area: Area) { area.Proper() && base <= area.own && area.hi <= base + |bytes| && area.he <= |items| }

    predicate Contains(x: Piece) { InMemory(bytes, base, x.at, x.Width()) }

    /** The handle that the word at `w` stands for. */
    function Handle(w: nat): nat
      requires InMemory(bytes, base, w, 4)
    {
      var value := U32(bytes, w - base);
      if value < |items| && value != INVALID_INDEX then items[value] else 0
    }
  }

  ghost predicate Lies(trace: Trace, area: Area) {
    Within(trace.pieces, area.own, area.ownEnd, area.lo, area.hi) && Indices(trace.indices, area.hb, area.he)
  }

  /** The slot holds its pointer, the word its handle. */
  ghost predicate PieceDone(msg: Message, mem: seq<byte>, x: Piece) {
    && msg.Contains(x) && |mem| == |msg.bytes|
    && if x.PointerAt? then U64(mem, x.at - msg.base) == Target(msg.bytes, msg.base, x.at)
       else U32(mem, x.at - msg.base) == msg.Handle(x.at)
  }

  ghost predicate Covered(xs: seq<Piece>, x: int) {
    exists i :: 0 <= i < |xs| && xs[i].at <= x < xs[i].End()
  }

  /** The area is still as it came. */
  ghost predicate Ready(msg: Message, mem: seq<byte>, items: seq<nat>, area: Area) {
    && msg.Holds(area) && |mem| == |msg.bytes| && |items| == |msg.items|
    && (forall x | area.Has(x) :: ByteAt(mem, msg.base, x) == ByteAt(msg.bytes, msg.base, x))
    && (forall x | area.hb <= x < area.he :: items[x] == msg.items[x])
  }

  /** Outside the area nothing has changed. */
  ghost predicate Elsewhere(msg: Message, m0: seq<byte>, i0: seq<nat>, m1: seq<byte>, i1: seq<nat>, area: Area) {
    && msg.Holds(area) && |m1| == |m0| == |msg.bytes| && |i1| == |i0| == |msg.items|
    && (forall x | msg.base <= x < msg.base + |m0| && !area.Has(x) :: ByteAt(m1, msg.base, x) == ByteAt(m0, msg.base, x))
    && (forall x | 0 <= x < |i0| && !(area.hb <= x < area.he) :: i1[x] == i0[x])
  }

  /** In the area exactly the pieces of the trace are rewritten, and exactly its
      handles have been taken. */
  ghost predicate Rewritten(msg: Message, mem: seq<byte>, items: seq<nat>, trace: Trace, area: Area) {
    && msg.Holds(area) && |mem| == |msg.bytes| && |items| == |msg.items|
    && (forall i | 0 <= i < |trace.pieces| :: PieceDone(msg, mem, trace.pieces[i]))
    && (forall x | area.Has(x) && !Covered(trace.pieces, x) :: ByteAt(mem, msg.base, x) == ByteAt(msg.bytes, msg.base, x))
    && (forall x | area.hb <= x < area.he :: items[x] == if x in trace.indices then 0 else msg.items[x])
  }

  /** Two areas next to each other. */
  predicate Adjacent(a: Area, b: Area) {
    a.Proper() && b.Proper() && a.ownEnd == b.own && a.hi == b.lo && a.he == b.hb && b.ownEnd <= a.lo
  }

  function Both(a: Area, b: Area): Area { Area(a.own, b.ownEnd, a.lo, b.hi, a.hb, b.he) }

  lemma PieceStays(msg: Message, m0: seq<byte>, m1: seq<byte>, x: Piece)
    requires PieceDone(msg, m0, x) && |m1| == |m0|
    requires forall y | x.at <= y < x.End() :: ByteAt(m1, msg.base, y) == ByteAt(m0, msg.base, y)
    ensures PieceDone(msg, m1, x)
  {
    var a := x.at - msg.base;
    forall k | a <= k < a + x.Width() ensures m1[k] == m0[k] {
      assert ByteAt(m1, msg.base, k + msg.base) == ByteAt(m0, msg.base, k + msg.base);
    }
    if x.PointerAt? {
      U64Same(m0, m1, a);
    } else {
      U32Same(m0, m1, a);
    }
  }

  /** What was rewritten stays when the next area is worked on. */
  lemma RewrittenStays(msg: Message, m0: seq<byte>, i0: seq<nat>, m1: seq<byte>, i1: seq<nat>, trace: Trace, a: Area, b: Area)
    requires Adjacent(a, b) && Lies(trace, a) && Rewritten(msg, m0, i0, trace, a) && Elsewhere(msg, m0, i0, m1, i1, b)
    ensures Rewritten(msg, m1, i1, trace, a)
  {
    hide PieceDone, Covered;
    forall i | 0 <= i < |trace.pieces| ensures PieceDone(msg, m1, trace.pieces[i]) {
      var x := trace.pieces[i];
      PieceInside(msg, m0, x);
      forall y | x.at <= y < x.End() ensures ByteAt(m1, msg.base, y) == ByteAt(m0, msg.base, y) {
        assert a.Has(y) && !b.Has(y);
      }
      PieceStays(msg, m0, m1, x);
    }
  }

  lemma PieceInside(msg: Message, mem: seq<byte>, x: Piece)
    requires PieceDone(msg, mem, x)
    ensures msg.base <= x.at && x.End() <= msg.base + |msg.bytes| && |mem| == |msg.bytes|
  {
  }

  lemma CoveredMore(xs: seq<Piece>, ys: seq<Piece>, x: int)
    ensures Covered(xs, x) || Covered(ys, x) ==> Covered(xs + ys, x)
  {
    if Covered(xs, x) {
      var i :| 0 <= i < |xs| && xs[i].at <= x < xs[i].End();
      assert (xs + ys)[i] == xs[i];
    }
    if Covered(ys, x) {
      var i :| 0 <= i < |ys| && ys[i].at <= x < ys[i].End();
      assert (xs + ys)[|xs| + i] == ys[i];
    }
  }

  lemma LiesBoth(x: Trace, y: Trace, a: Area, b: Area)
    requires Adjacent(a, b) && Lies(x, a) && Lies(y, b)
    ensures Lies(x.Then(y), Both(a, b))
  {
  }

  /** Two areas rewritten are the two of them rewritten. */
  lemma RewrittenBoth(msg: Message, mem: seq<byte>, items: seq<nat>, x: Trace, y: Trace, a: Area, b: Area)
    requires Adjacent(a, b) && Lies(x, a) && Lies(y, b)
    requires Rewritten(msg, mem, items, x, a) && Rewritten(msg, mem, items, y, b)
    ensures Rewritten(msg, mem, items, x.Then(y), Both(a, b))
  {
    hide PieceDone, Covered, Within;
    var z, ab := x.Then(y), Both(a, b);
    forall w | ab.Has(w) && !Covered(z.pieces, w) ensures ByteAt(mem, msg.base, w) == ByteAt(msg.bytes, msg.base, w) {
      CoveredMore(x.pieces, y.pieces, w);
      assert a.Has(w) || b.Has(w);
    }
    assert forall k | k in x.indices :: a.hb <= k < a.he;
    assert forall k | k in y.indices :: b.hb <= k < b.he;
  }

  lemma ElsewhereBoth(msg: Message, m0: seq<byte>, i0: seq<nat>, m1: seq<byte>, i1: seq<nat>, m2: seq<byte>, i2: seq<nat>, a: Area, b: Area)
    requires Adjacent(a, b) && Elsewhere(msg, m0, i0, m1, i1, a) && Elsewhere(msg, m1, i1, m2, i2, b)
    ensures Elsewhere(msg, m0, i0, m2, i2, Both(a, b))
  {
    var ab := Both(a, b);
    assert forall x | a.Has(x) || b.Has(x) :: ab.Has(x);
  }

  /** The second of two untouched areas stays so while the first is worked on. */
  lemma ReadyNext(msg: Message, m0: seq<byte>, i0: seq<nat>, m1: seq<byte>, i1: seq<nat>, a: Area, b: Area)
    requires Adjacent(a, b) && Ready(msg, m0, i0, Both(a, b)) && Elsewhere(msg, m0, i0, m1, i1, a)
    ensures Ready(msg, m1, i1, b)
  {
    var ab := Both(a, b);
    assert forall x | b.Has(x) :: ab.Has(x) && !a.Has(x);
  }

  lemma ReadyFirst(msg: Message, mem: seq<byte>, items: seq<nat>, a: Area, b: Area)
    requires Adjacent(a, b) && Ready(msg, mem, items, Both(a, b))
    ensures Ready(msg, mem, items, a)
  {
    var ab := Both(a, b);
    assert forall x | a.Has(x) :: ab.Has(x);
  }

  /** A part of an untouched area is worked on. */
  lemma Widen(msg: Message, m0: seq<byte>, i0: seq<nat>, m1: seq<byte>, i1: seq<nat>, trace: Trace, a: Area, b: Area)
    requires Ready(msg, m0, i0, b) && Elsewhere(msg, m0, i0, m1, i1, a) && Rewritten(msg, m1, i1, trace, a)
    requires (forall x | a.Has(x) :: b.Has(x)) && a.hb == b.hb && a.he == b.he
    ensures Elsewhere(msg, m0, i0, m1, i1, b) && Rewritten(msg, m1, i1, trace, b)
  {
    hide PieceDone, Covered;
  }

  lemma ReadyParts(msg: Message, mem: seq<byte>, items: seq<nat>, a: Area, b: Area)
    requires Ready(msg, mem, items, a) && msg.Holds(b) && a.hb <= b.hb && b.he <= a.he
    requires forall x | b.Has(x) :: a.Has(x)
    ensures Ready(msg, mem, items, b)
  {
  }

  lemma Nothing(msg: Message, mem: seq<byte>, items: seq<nat>, area: Area)
    requires Ready(msg, mem, items, area)
    ensures Rewritten(msg, mem, items, NOTHING, area) && Elsewhere(msg, mem, items, mem, items, area) && Lies(NOTHING, area)
  {
  }

  /** What one handle leaves behind. */
  lemma HandleTaken(msg: Message, m0: seq<byte>, i0: seq<nat>, m1: seq<byte>, i1: seq<nat>, w: nat, area: Area)
    requires InMemory(msg.bytes, msg.base, w, 4) && Ready(msg, m0, i0, area) && |m1| == |m0|
    requires area.own == w && area.ownEnd == w + 4 && area.lo == area.hi
    requires forall x | 0 <= x < |m0| && !(w - msg.base <= x < w - msg.base + 4) :: m1[x] == m0[x]
    requires var value := U32(msg.bytes, w - msg.base);
      if value == INVALID_INDEX then i1 == i0 && area.hb == area.he && U32(m1, w - msg.base) == 0
      else area.hb <= value && area.he == value + 1 && U32(m1, w - msg.base) == i0[value] && i1 == i0[value := 0]
    ensures Elsewhere(msg, m0, i0, m1, i1, area) && Rewritten(msg, m1, i1, DecodedHandle(msg.bytes, msg.base, w), area)
    ensures Lies(DecodedHandle(msg.bytes, msg.base, w), area)
  {
    hide U32;
    var trace := DecodedHandle(msg.bytes, msg.base, w);
    forall x | area.Has(x) ensures Covered(trace.pieces, x) {
      assert trace.pieces[0].at <= x < trace.pieces[0].End();
    }
  }

  /** What one pointer leaves behind. */
  lemma PointerSet(msg: Message, m0: seq<byte>, m1: seq<byte>, items: seq<nat>, s: nat, area: Area)
    requires InMemory(msg.bytes, msg.base, s, 8) && Ready(msg, m0, items, area) && |m1| == |m0|
    requires area.own == s && area.ownEnd == s + 8 && area.lo == area.hi && area.hb == area.he
    requires forall x | 0 <= x < |m0| && !(s - msg.base <= x < s - msg.base + 8) :: m1[x] == m0[x]
    requires U64(m1, s - msg.base) == Target(msg.bytes, msg.base, s)
    ensures Elsewhere(msg, m0, items, m1, items, area) && Rewritten(msg, m1, items, Trace([PointerAt(s)], []), area)
    ensures Lies(Trace([PointerAt(s)], []), area)
  {
    hide U64;
    var xs := [PointerAt(s)];
    forall x | area.Has(x) ensures Covered(xs, x) {
      assert xs[0].at <= x < xs[0].End();
    }
  }

  /** Bytes of an untouched area read as they came. */
  lemma ReadsU64(msg: Message, mem: seq<byte>, items: seq<nat>, area: Area, s: nat)
    requires Ready(msg, mem, items, area) && InMemory(msg.bytes, msg.base, s, 8) && forall x | s <= x < s + 8 :: area.Has(x)
    ensures U64(mem, s - msg.base) == U64(msg.bytes, s - msg.base)
  {
    var a := s - msg.base;
    forall k | a <= k < a + 8 ensures msg.bytes[k] == mem[k] {
      assert area.Has(k + msg.base);
      assert ByteAt(mem, msg.base, k + msg.base) == ByteAt(msg.bytes, msg.base, k + msg.base);
    }
    U64Same(msg.bytes, mem, a);
  }

  lemma ReadsU32(msg: Message, mem: seq<byte>, items: seq<nat>, area: Area, w: nat)
    requires Ready(msg, mem, items, area) && InMemory(msg.bytes, msg.base, w, 4) && forall x | w <= x < w + 4 :: area.Has(x)
    ensures U32(mem, w - msg.base) == U32(msg.bytes, w - msg.base)
  {
    var a := w - msg.base;
    forall k | a <= k < a + 4 ensures msg.bytes[k] == mem[k] {
      assert area.Has(k + msg.base);
      assert ByteAt(mem, msg.base, k + msg.base) == ByteAt(msg.bytes, msg.base, k + msg.base);
    }
    U32Same(msg.bytes, mem, a);
  }

  // ---- A part of what was rewritten ----

  lemma NotCovered(xs: seq<Piece>, a: Area, w: int)
    requires Within(xs, a.own, a.ownEnd, a.lo, a.hi) && !a.Has(w)
    ensures !Covered(xs, w)
  {
  }

  lemma CoveredEither(xs: seq<Piece>, ys: seq<Piece>, w: int)
    ensures Covered(xs + ys, w) ==> Covered(xs, w) || Covered(ys, w)
  {
    if Covered(xs + ys, w) {
      var i :| 0 <= i < |xs + ys| && (xs + ys)[i].at <= w < (xs + ys)[i].End();
      if i < |xs| {
        assert xs[i] == (xs + ys)[i];
      } else {
        assert ys[i - |xs|] == (xs + ys)[i];
      }
    }
  }

  lemma Split(msg: Message, mem: seq<byte>, items: seq<nat>, x: Trace, y: Trace, a: Area, b: Area)
    requires Adjacent(a, b) && Lies(x, a) && Lies(y, b) && Rewritten(msg, mem, items, x.Then(y), Both(a, b))
    ensures Rewritten(msg, mem, items, x, a) && Rewritten(msg, mem, items, y, b)
  {
    hide PieceDone, Covered, Within;
    var z, ab := x.Then(y), Both(a, b);
    forall w | a.Has(w) && !Covered(x.pieces, w) ensures ByteAt(mem, msg.base, w) == ByteAt(msg.bytes, msg.base, w) {
      assert ab.Has(w) && !b.Has(w);
      NotCovered(y.pieces, b, w);
      CoveredEither(x.pieces, y.pieces, w);
    }
    forall w | b.Has(w) && !Covered(y.pieces, w) ensures ByteAt(mem, msg.base, w) == ByteAt(msg.bytes, msg.base, w) {
      assert ab.Has(w) && !a.Has(w);
      NotCovered(x.pieces, a, w);
      CoveredEither(x.pieces, y.pieces, w);
    }
    forall i | 0 <= i < |x.pieces| ensures PieceDone(msg, mem, x.pieces[i]) {
      assert z.pieces[i] == x.pieces[i];
    }
    forall i | 0 <= i < |y.pieces| ensures PieceDone(msg, mem, y.pieces[i]) {
      assert z.pieces[|x.pieces| + i] == y.pieces[i];
    }
    assert forall k | k in x.indices :: a.hb <= k < a.he;
    assert forall k | k in y.indices :: b.hb <= k < b.he;
    assert forall k :: k in z.indices <==> k in x.indices || k in y.indices;
  }

  /** Bytes that no piece covers are as they came. */
  lemma Unchanged(msg: Message, mem: seq<byte>, items: seq<nat>, trace: Trace, area: Area, part: Area, a: nat, b: nat)
    requires Rewritten(msg, mem, items, trace, area) && Lies(trace, part) && msg.base <= a <= b
    requires forall x | a <= x < b :: area.Has(x) && !part.Has(x)
    ensures b <= msg.base + |msg.bytes| || a == b
    ensures forall k | a - msg.base <= k < b - msg.base :: k < |mem| && mem[k] == msg.bytes[k]
  {
    hide PieceDone, Covered, Within;
    if a < b {
      assert area.Has(b - 1);
    }
    forall k | a - msg.base <= k < b - msg.base ensures k < |mem| && mem[k] == msg.bytes[k] {
      assert area.Has(k + msg.base) && !part.Has(k + msg.base);
      NotCovered(trace.pieces, part, k + msg.base);
      assert ByteAt(mem, msg.base, k + msg.base) == ByteAt(msg.bytes, msg.base, k + msg.base);
    }
  }

  lemma Narrow(msg: Message, mem: seq<byte>, items: seq<nat>, trace: Trace, a: Area, b: Area)
    requires Rewritten(msg, mem, items, trace, a) && msg.Holds(b) && a.hb <= b.hb && b.he <= a.he
    requires forall x | b.Has(x) :: a.Has(x)
    ensures Rewritten(msg, mem, items, trace, b)
  {
    hide PieceDone, Covered;
  }

  /** The whole message. */
  function All(msg: Message): Area { Area(msg.base, msg.base, msg.base, msg.base + |msg.bytes|, 0, |msg.items|) }

  /** When one part was worked on, the rest of the message is as it came. */
  lemma RewrittenInAll(msg: Message, mem: seq<byte>, items: seq<nat>, trace: Trace, a: Area)
    requires Elsewhere(msg, msg.bytes, msg.items, mem, items, a) && Rewritten(msg, mem, items, trace, a) && Lies(trace, a)
    ensures Rewritten(msg, mem, items, trace, All(msg)) && Lies(trace, All(msg))
  {
    hide PieceDone, Covered;
    assert forall k | k in trace.indices :: a.hb <= k < a.he;
  }
}
