/**
  Reading a value out of decoded memory, with the handles moving from memory into
  the value. Proved on every message that the validator accepted, whose objects
  lie in their claimed bytes: the value is the one the message stands for, and the
  handle words are zero afterwards while nothing else has changed.
*/
module CppDeserialize {
  import opened Wire
  import opened CppValues
  import opened CppImage
  import opened CppEncode
  import opened CppValidate
  import opened CppSound
  import opened CppVisit
  import opened CppRewrite
  import opened CppDecode
  import opened CppRead

  // ---- What deserialization does to memory ----

  /** The byte at address `x` is in the word of a handle. */
  ghost predicate InHandle(xs: seq<Piece>, x: int) {
    exists i :: 0 <= i < |xs| && xs[i].HandleAt? && xs[i].at <= x < xs[i].End()
  }

  /** The handle words are zero, and nothing else has changed. */
  ghost predicate Emptied(base: nat, m0: seq<byte>, m1: seq<byte>, xs: seq<Piece>) {
    |m1| == |m0| && forall k | 0 <= k < |m0| :: m1[k] == if InHandle(xs, base + k) then 0 else m0[k]
  }

  lemma InHandleThen(xs: seq<Piece>, ys: seq<Piece>, x: int)
    ensures InHandle(xs + ys, x) <==> InHandle(xs, x) || InHandle(ys, x)
  {
    var zs := xs + ys;
    if InHandle(zs, x) {
      var i :| 0 <= i < |zs| && zs[i].HandleAt? && zs[i].at <= x < zs[i].End();
      assert zs[i] == if i < |xs| then xs[i] else ys[i - |xs|];
    }
    if InHandle(xs, x) {
      var i :| 0 <= i < |xs| && xs[i].HandleAt? && xs[i].at <= x < xs[i].End();
      assert zs[i] == xs[i];
    }
    if InHandle(ys, x) {
      var i :| 0 <= i < |ys| && ys[i].HandleAt? && ys[i].at <= x < ys[i].End();
      assert zs[|xs| + i] == ys[i];
    }
  }

  lemma EmptiedThen(base: nat, m0: seq<byte>, m1: seq<byte>, m2: seq<byte>, xs: seq<Piece>, ys: seq<Piece>)
    requires Emptied(base, m0, m1, xs) && Emptied(base, m1, m2, ys)
    ensures Emptied(base, m0, m2, xs + ys)
  {
    hide InHandle;
    forall k | 0 <= k < |m0| ensures m2[k] == if InHandle(xs + ys, base + k) then 0 else m0[k] {
      InHandleThen(xs, ys, base + k);
    }
  }

  lemma NothingEmptied(base: nat, mem: seq<byte>, xs: seq<Piece>)
    requires forall i | 0 <= i < |xs| :: xs[i].PointerAt?
    ensures Emptied(base, mem, mem, xs)
  {
  }

  /** What lies in the next area is not touched. */
  lemma RestStays(msg: Message, m0: seq<byte>, m1: seq<byte>, items: seq<nat>, x: Trace, y: Trace, a: Area, b: Area)
    requires Adjacent(a, b) && Lies(x, a) && Lies(y, b) && Rewritten(msg, m0, items, y, b) && Emptied(msg.base, m0, m1, x.pieces)
    ensures Rewritten(msg, m1, items, y, b)
  {
    hide PieceDone, Covered;
    forall w | b.Has(w) ensures ByteAt(m1, msg.base, w) == ByteAt(m0, msg.base, w) {
      assert !a.Has(w) && !InHandle(x.pieces, w);
      var k := w - msg.base;
      assert m1[k] == m0[k];
    }
    forall i | 0 <= i < |y.pieces| ensures PieceDone(msg, m1, y.pieces[i]) {
      PieceInside(msg, m0, y.pieces[i]);
      assert forall w | y.pieces[i].at <= w < y.pieces[i].End() :: b.Has(w);
      PieceStays(msg, m0, m1, y.pieces[i]);
    }
  }

  // ---- Arrays ----

  /** Takes the handles out of an array, leaving invalid ones behind. */
  method DeserializeHandles(mem: array<byte>, base: nat, a: nat, n: nat, ghost msg: Message)
    returns (r: seq<nat>)
    requires msg.base == base && |msg.bytes| == mem.Length && InMemory(msg.bytes, base, a, 8 + 4 * n)
    requires forall i | 0 <= i < n :: PieceDone(msg, mem[..], HandleAt(a + 8 + 4 * i))
    modifies mem
    ensures r == ReadHandles(msg, a, n)
    ensures Emptied(base, old(mem[..]), mem[..], DecodedHandles(msg.bytes, base, a, n, 0).pieces)
  {
    hide U32, DecodedHandles, PieceDone, Emptied, Message.Handle;
    r := [];
    ghost var done: seq<Piece> := [];
    NothingEmptied(base, mem[..], []);
    HandlesPieces(msg.bytes, base, a, n, 0);
    var i := 0;
    while i < n
      invariant 0 <= i <= n && r == ReadHandles(msg, a, n)[..i]
      invariant done + DecodedHandles(msg.bytes, base, a, n, i).pieces == DecodedHandles(msg.bytes, base, a, n, 0).pieces
      invariant forall k | i <= k < n :: PieceDone(msg, mem[..], HandleAt(a + 8 + 4 * k))
      invariant Emptied(base, old(mem[..]), mem[..], done)
    {
      ghost var m0, w := mem[..], a + 8 + 4 * i;
      HandleIs(msg, m0, w);
      r := r + [U32(mem[..], a - base + 8 + 4 * i)];
      PutU32(mem, a - base + 8 + 4 * i, 0);
      OnlyMeans(m0, mem[..], a - base + 8 + 4 * i, a - base + 8 + 4 * i + 4);
      WordEmptied(base, m0, mem[..], w);
      EmptiedThen(base, old(mem[..]), m0, mem[..], done, [HandleAt(w)]);
      forall k | i + 1 <= k < n ensures PieceDone(msg, mem[..], HandleAt(a + 8 + 4 * k)) {
        OtherHandle(msg, m0, mem[..], w, a + 8 + 4 * k);
      }
      HandlesPieces(msg.bytes, base, a, n, i);
      done := done + [HandleAt(w)];
      i := i + 1;
    }
    HandlesPieces(msg.bytes, base, a, n, n);
    assert done + [] == done;
  }

  lemma HandlesPieces(bytes: seq<byte>, base: nat, a: nat, n: nat, i: nat)
    requires i <= n && InMemory(bytes, base, a, 8 + 4 * n)
    ensures DecodedHandles(bytes, base, a, n, i).pieces ==
      if i == n then [] else [HandleAt(a + 8 + 4 * i)] + DecodedHandles(bytes, base, a, n, i + 1).pieces
  {
    hide U32;
  }

  lemma HandleIs(msg: Message, mem: seq<byte>, w: nat)
    requires PieceDone(msg, mem, HandleAt(w))
    ensures InMemory(msg.bytes, msg.base, w, 4) && |mem| == |msg.bytes| && U32(mem, w - msg.base) == msg.Handle(w)
  {
  }

  lemma WordEmptied(base: nat, m0: seq<byte>, m1: seq<byte>, w: nat)
    requires InMemory(m0, base, w, 4) && |m1| == |m0| && U32(m1, w - base) == 0
    requires forall k | 0 <= k < |m0| && !(w - base <= k < w - base + 4) :: m1[k] == m0[k]
    ensures Emptied(base, m0, m1, [HandleAt(w)])
  {
    var xs, p := [HandleAt(w)], w - base;
    FourBytes(m1[p..p + 4]);
    forall k | 0 <= k < |m0| ensures m1[k] == if InHandle(xs, base + k) then 0 else m0[k] {
      if p <= k < p + 4 {
        assert xs[0].at <= base + k < xs[0].End();
        assert m1[k] == m1[p..p + 4][k - p];
      }
    }
  }

  lemma OtherHandle(msg: Message, m0: seq<byte>, m1: seq<byte>, w: nat, x: nat)
    requires PieceDone(msg, m0, HandleAt(x)) && |m1| == |m0| && w + 4 <= x && msg.base <= w
    requires forall k | 0 <= k < |m0| && !(w - msg.base <= k < w - msg.base + 4) :: m1[k] == m0[k]
    ensures PieceDone(msg, m1, HandleAt(x))
  {
    PieceStays(msg, m0, m1, HandleAt(x));
  }

  method DeserializeBits(mem: array<byte>, p: nat, n: nat, ghost bytes: seq<byte>) returns (r: seq<bool>)
    requires |bytes| == mem.Length && p + 8 + (n + 7) / 8 <= mem.Length
    requires forall k | p + 8 <= k < p + 8 + (n + 7) / 8 :: mem[k] == bytes[k]
    ensures r == ReadBits(bytes, p, n)
  {
    r := [];
    for i := 0 to n
      invariant r == ReadBits(bytes, p, n)[..i]
    {
      r := r + [Bit(mem[p + 8 + i / 8], i % 8)];
    }
  }

  // ---- Pointers and objects ----

  method DeserializeSlot(mem: array<byte>, base: nat, t: Type, s: nat,
                         ghost msg: Message, ghost items: seq<nat>, ghost nullable: bool, ghost c: Checker) returns (r: Option<Val>)
    requires msg.base == base && Inside(msg.bytes, base, c) && InMemory(msg.bytes, base, s, 8) && s + 8 <= c.dataBegin
    requires ValidateSlot(msg.bytes, base, t, nullable, s, c).err == NoError
    requires Held(ValidateSlot(msg.bytes, base, t, nullable, s, c).checker.claims)
    requires Rewritten(msg, mem[..], items, DecodedSlot(msg.bytes, base, t, s), SlotArea(s, c, ValidateSlot(msg.bytes, base, t, nullable, s, c).checker))
    modifies mem
    ensures r == ReadSlot(msg, t, s)
    ensures Emptied(base, old(mem[..]), mem[..], DecodedSlot(msg.bytes, base, t, s).pieces)
    decreases t, 3
  {
    hide Rewritten, Lies, Emptied, U64, ValidateSlot, Validate, Decoded, DecodedSlot, Read, Held;
    ghost var m0, bytes := mem[..], msg.bytes;
    SlotStep(bytes, base, t, nullable, s, c);
    SlotLies(bytes, base, t, nullable, s, c);
    ghost var c1, to := Visit(c, PointerAt(s)), Target(bytes, base, s);
    ghost var d := Validate(bytes, base, t, to, c1).checker;
    ghost var x, one, kid := Trace([PointerAt(s)], []), SlotArea(s, c, c), ObjectArea(s + 8, c1, d);
    OneSlotLies(s, c);
    Split(msg, m0, items, x, Decoded(bytes, base, t, to), one, kid);
    PointerArrived(msg, m0, items, s, one);
    NothingEmptied(base, m0, x.pieces);
    var ptr := U64(mem[..], s - base);
    r := None;
    if ptr != 0 {
      var v := DeserializeObject(mem, base, t, ptr, msg, items, c1, s + 8);
      r := Some(v);
    } else {
      NullEmptied(bytes, base, t, m0);
    }
    EmptiedThen(base, m0, m0, mem[..], x.pieces, Decoded(bytes, base, t, to).pieces);
  }

  lemma NullEmptied(bytes: seq<byte>, base: nat, t: Type, mem: seq<byte>)
    ensures Emptied(base, mem, mem, Decoded(bytes, base, t, 0).pieces)
  {
  }

  method DeserializeElements(mem: array<byte>, base: nat, t: Type, a: nat, n: nat,
                             ghost msg: Message, ghost items: seq<nat>, ghost c: Checker) returns (kids: seq<Option<Val>>)
    requires msg.base == base && Inside(msg.bytes, base, c) && t.RefArray?
    requires InMemory(msg.bytes, base, a, 8 + 8 * n) && a + 8 + 8 * n <= c.dataBegin
    requires ValidateElements(msg.bytes, base, t, a, n, 0, c).err == NoError
    requires Held(ValidateElements(msg.bytes, base, t, a, n, 0, c).checker.claims)
    requires Rewritten(msg, mem[..], items, DecodedElements(msg.bytes, base, t, a, n, 0),
                       SlotsArea(a, 0, n, c, ValidateElements(msg.bytes, base, t, a, n, 0, c).checker))
    modifies mem
    ensures kids == ReadElements(msg, t, a, n, 0)
    ensures Emptied(base, old(mem[..]), mem[..], DecodedElements(msg.bytes, base, t, a, n, 0).pieces)
    decreases t, 1
  {
    hide Rewritten, Lies, Emptied, ValidateElements, DecodedElements, ValidateSlot, DecodedSlot, ReadSlot, ReadElements, Held;
    ghost var bytes, d := msg.bytes, ValidateElements(msg.bytes, base, t, a, n, 0, c).checker;
    ghost var here, done := c, NOTHING;
    NothingEmptied(base, mem[..], []);
    ThenNothing(DecodedElements(bytes, base, t, a, n, 0));
    kids := [];
    var i := 0;
    while i < n
      invariant 0 <= i <= n && Inside(bytes, base, here) && c.dataBegin <= here.dataBegin
      invariant ValidateElements(bytes, base, t, a, n, i, here) == Outcome(NoError, d)
      invariant kids + ReadElements(msg, t, a, n, i) == ReadElements(msg, t, a, n, 0)
      invariant done.Then(DecodedElements(bytes, base, t, a, n, i)) == DecodedElements(bytes, base, t, a, n, 0)
      invariant Rewritten(msg, mem[..], items, DecodedElements(bytes, base, t, a, n, i), SlotsArea(a, i, n, here, d))
      invariant Emptied(base, old(mem[..]), mem[..], done.pieces)
    {
      ghost var s, m0 := a + 8 + 8 * i, mem[..];
      ElementStep(bytes, base, t, a, n, i, here);
      ghost var next := ValidateSlot(bytes, base, t.elem, t.nullable, s, here).checker;
      ghost var one, rest := SlotArea(s, here, next), SlotsArea(a, i + 1, n, next, d);
      ghost var x, y := DecodedSlot(bytes, base, t.elem, s), DecodedElements(bytes, base, t, a, n, i + 1);
      OneLies(bytes, base, t.elem, t.nullable, s, here);
      ElementsLie(bytes, base, t, a, n, i + 1, next);
      Split(msg, m0, items, x, y, one, rest);
      HeldPrefix(next.claims, d.claims);
      var kid := DeserializeSlot(mem, base, t.elem, a + 8 + 8 * i, msg, items, t.nullable, here);
      RestStays(msg, m0, mem[..], items, x, y, one, rest);
      EmptiedThen(base, old(mem[..]), m0, mem[..], done.pieces, x.pieces);
      ThenAgain(done, x, y);
      NextRead(msg, t, a, n, i, kids);
      here, done := next, done.Then(x);
      kids := kids + [kid];
      i := i + 1;
    }
    ElementsEnd(bytes, base, t, a, n, here);
    ThenNothing(done);
    NoneRead(msg, t, a, n, kids);
  }

  lemma NextRead(msg: Message, t: Type, a: nat, n: nat, i: nat, kids: seq<Option<Val>>)
    requires t.RefArray? && i < n && InMemory(msg.bytes, msg.base, a, 8 + 8 * n)
    ensures kids + [ReadSlot(msg, t.elem, a + 8 + 8 * i)] + ReadElements(msg, t, a, n, i + 1) == kids + ReadElements(msg, t, a, n, i)
  {
    hide ReadSlot;
  }

  lemma NoneRead(msg: Message, t: Type, a: nat, n: nat, kids: seq<Option<Val>>)
    requires t.RefArray? && InMemory(msg.bytes, msg.base, a, 8 + 8 * n)
    ensures kids + ReadElements(msg, t, a, n, n) == kids
  {
  }

  method DeserializeMap(mem: array<byte>, base: nat, t: Type, a: nat,
                        ghost msg: Message, ghost items: seq<nat>, ghost c: Checker) returns (keys: Option<Val>, values: Option<Val>)
    requires msg.base == base && Inside(msg.bytes, base, c) && t.MapOf?
    requires InMemory(msg.bytes, base, a, 24) && a + 24 <= c.dataBegin
    requires ValidateMap(msg.bytes, base, t, a, 24, 0, c).err == NoError
    requires Held(ValidateMap(msg.bytes, base, t, a, 24, 0, c).checker.claims)
    requires Rewritten(msg, mem[..], items, DecodedSlot(msg.bytes, base, t.key, a + 8).Then(DecodedSlot(msg.bytes, base, t.value, a + 16)),
                       SlotsArea(a, 0, 2, c, ValidateMap(msg.bytes, base, t, a, 24, 0, c).checker))
    modifies mem
    ensures keys == ReadSlot(msg, t.key, a + 8) && values == ReadSlot(msg, t.value, a + 16)
    ensures Emptied(base, old(mem[..]), mem[..],
                    DecodedSlot(msg.bytes, base, t.key, a + 8).pieces + DecodedSlot(msg.bytes, base, t.value, a + 16).pieces)
    decreases t, 1
  {
    hide Rewritten, Lies, Emptied, ValidateSlot, DecodedSlot, ReadSlot, Held, U32;
    ghost var m0, bytes := mem[..], msg.bytes;
    ghost var next := ValidateSlot(bytes, base, t.key, false, a + 8, c).checker;
    ghost var d := ValidateSlot(bytes, base, t.value, false, a + 16, next).checker;
    ghost var x, y := DecodedSlot(bytes, base, t.key, a + 8), DecodedSlot(bytes, base, t.value, a + 16);
    ghost var first, second := SlotArea(a + 8, c, next), SlotArea(a + 16, next, d);
    OneLies(bytes, base, t.key, false, a + 8, c);
    OneLies(bytes, base, t.value, false, a + 16, next);
    Split(msg, m0, items, x, y, first, second);
    HeldPrefix(next.claims, d.claims);
    keys := DeserializeSlot(mem, base, t.key, a + 8, msg, items, false, c);
    ghost var m1 := mem[..];
    RestStays(msg, m0, m1, items, x, y, first, second);
    values := DeserializeSlot(mem, base, t.value, a + 16, msg, items, false, next);
    EmptiedThen(base, m0, m1, mem[..], x.pieces, y.pieces);
  }

  /** Reads the object at address `a` with everything behind it. */
  method DeserializeObject(mem: array<byte>, base: nat, t: Type, a: nat,
                           ghost msg: Message, ghost items: seq<nat>, ghost c: Checker, ghost own: nat) returns (r: Val)
    requires msg.base == base && Inside(msg.bytes, base, c) && a != 0 && own <= c.dataBegin
    requires Validate(msg.bytes, base, t, a, c).err == NoError
    requires Held(Validate(msg.bytes, base, t, a, c).checker.claims)
    requires Rewritten(msg, mem[..], items, Decoded(msg.bytes, base, t, a), ObjectArea(own, c, Validate(msg.bytes, base, t, a, c).checker))
    modifies mem
    ensures r == Read(msg, t, a)
    ensures Emptied(base, old(mem[..]), mem[..], Decoded(msg.bytes, base, t, a).pieces)
    decreases t, 2
  {
    hide Rewritten, Lies, Emptied, Validate, ValidateElements, ValidateHandles, ValidateMap, DecodedElements, DecodedHandles, DecodedSlot,
      ReadElements, ReadHandles, ReadBits, ReadSlot, Held, U32, StorageSize;
    ghost var m0, bytes := mem[..], msg.bytes;
    AcceptedHeader(bytes, base, t, a, c);
    WholeObject(bytes, base, t, a, c);
    ghost var d, c1 := Validate(bytes, base, t, a, c).checker, Claiming(bytes, base, t, a, c);
    ghost var area, trace := ObjectArea(own, c, d), Decoded(bytes, base, t, a);
    ghost var part := BodyArea(t, a, U32(bytes, a - base + 4), c1, d);
    RewrittenHolds(msg, m0, items, trace, area);
    BodyLies(bytes, base, t, a, c);
    CountRead(msg, m0, items, trace, area, part, a);
    var n := U32(mem[..], a - base + 4);
    match t {
      case PodArray(size, _) =>
        LeafRead(msg, m0, items, trace, area, part, a, Times(size, n));
        r := Pods(size, n, mem[a - base + 8..a - base + 8 + Times(size, n)]);
        assert r.data == bytes[a - base + 8..a - base + 8 + Times(size, n)];
        NothingEmptied(base, m0, []);
      case BoolArray(_) =>
        LeafRead(msg, m0, items, trace, area, part, a, (n + 7) / 8);
        var bits := DeserializeBits(mem, a - base, n, bytes);
        r := Bits(bits);
        NothingEmptied(base, m0, []);
      case HandleArray(_, _) =>
        HandlesDone(msg, m0, items, a, n, area);
        var handles := DeserializeHandles(mem, base, a, n, msg);
        r := Handles(handles);
      case RefArray(_, _, _) =>
        Narrow(msg, m0, items, trace, area, part);
        var kids := DeserializeElements(mem, base, t, a, n, msg, items, c1);
        r := Node(n, kids);
      case MapOf(_, _) =>
        Narrow(msg, m0, items, trace, area, part);
        var keys, values := DeserializeMap(mem, base, t, a, msg, items, c1);
        r := Node(0, [keys, values]);
    }
  }

  /** The elements of the object at address `a`, and what is behind them. */
  ghost function BodyArea(t: Type, a: nat, n: nat, c: Checker, d: Checker): Area {
    match t
    case HandleArray(_, _) => HandlesArea(a, 0, n, c, d)
    case RefArray(_, _, _) => SlotsArea(a, 0, n, c, d)
    case MapOf(_, _) => SlotsArea(a, 0, 2, c, d)
    case _ => Area(a + 8, a + 8, c.dataBegin, c.dataBegin, c.handleBegin, c.handleBegin)
  }

  lemma BodyLies(bytes: seq<byte>, base: nat, t: Type, a: nat, c: Checker)
    requires Inside(bytes, base, c) && a != 0 && Validate(bytes, base, t, a, c).err == NoError
    ensures base <= a && a + 8 <= base + |bytes|
    ensures Lies(Decoded(bytes, base, t, a),
                 BodyArea(t, a, U32(bytes, a - base + 4), Claiming(bytes, base, t, a, c), Validate(bytes, base, t, a, c).checker))
  {
    hide U32, Validate, ValidateMap, ValidateElements, ValidateHandles, DecodedElements, DecodedHandles, DecodedSlot, Within, Indices, StorageSize;
    AcceptedHeader(bytes, base, t, a, c);
    var n, d := U32(bytes, a - base + 4), Claiming(bytes, base, t, a, c);
    match t
    case HandleArray(nullable, _) =>
      SpreadHandles(bytes, base, nullable, a, n, 0, d);
      TakesHandles(bytes, base, nullable, a, n, 0, d);
    case RefArray(_, _, _) =>
      ElementsLie(bytes, base, t, a, n, 0, d);
    case MapOf(_, _) =>
      SpreadMap(bytes, base, t, a, d);
      TakesMap(bytes, base, t, a, d);
    case _ =>
      NoPieces(a + 8, a + 8, d.dataBegin, d.dataBegin);
      NoIndices(d.handleBegin, d.handleBegin);
  }

  lemma CountRead(msg: Message, mem: seq<byte>, items: seq<nat>, trace: Trace, area: Area, part: Area, a: nat)
    requires Rewritten(msg, mem, items, trace, area) && Lies(trace, part) && InMemory(msg.bytes, msg.base, a, 8)
    requires area.lo <= a && a + 8 <= area.hi && a + 8 <= part.own && part.Proper()
    ensures |mem| == |msg.bytes| && U32(mem, a - msg.base + 4) == U32(msg.bytes, a - msg.base + 4)
  {
    hide U32, Lies, PieceDone, Covered;
    Unchanged(msg, mem, items, trace, area, part, a + 4, a + 8);
    U32Same(msg.bytes, mem, a - msg.base + 4);
  }

  lemma LeafRead(msg: Message, mem: seq<byte>, items: seq<nat>, trace: Trace, area: Area, part: Area, a: nat, size: nat)
    requires Rewritten(msg, mem, items, trace, area) && Lies(trace, part) && msg.base <= a
    requires area.lo <= a && a + 8 + size <= area.hi && part.own == part.ownEnd && part.lo == part.hi
    ensures |mem| == |msg.bytes| && forall k | a - msg.base + 8 <= k < a - msg.base + 8 + size :: k < |mem| && mem[k] == msg.bytes[k]
  {
    hide Lies, PieceDone, Covered;
    Unchanged(msg, mem, items, trace, area, part, a + 8, a + 8 + size);
  }

  lemma HandlesDone(msg: Message, mem: seq<byte>, items: seq<nat>, a: nat, n: nat, area: Area)
    requires InMemory(msg.bytes, msg.base, a, 8 + 4 * n)
    requires Rewritten(msg, mem, items, DecodedHandles(msg.bytes, msg.base, a, n, 0), area)
    ensures forall i | 0 <= i < n :: PieceDone(msg, mem, HandleAt(a + 8 + 4 * i))
  {
    hide PieceDone, Covered, DecodedHandles;
    forall i | 0 <= i < n ensures PieceDone(msg, mem, HandleAt(a + 8 + 4 * i)) {
      HandlePiece(msg.bytes, msg.base, a, n, 0, i);
    }
  }
}
