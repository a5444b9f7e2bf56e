/**
  Decoding in place: offsets become pointers and indices become handles while the
  decoder still reads its way through the same memory. Proved on every message
  that the validator accepts.
*/
module CppDecode {
  import opened Wire
  import opened CppValues
  import opened CppImage
  import opened CppEncode
  import opened CppValidate
  import opened CppSound
  import opened CppVisit
  import opened CppRewrite

  /** The handles fit their words, and there are as many as the checker thinks. */
  ghost predicate Fitting(msg: Message, items: seq<nat>, c: Checker) {
    && Inside(msg.bytes, msg.base, c) && c.handleEnd <= |msg.items| == |items|
    && Small(items)
  }

  ghost predicate Small(items: seq<nat>) { forall h | h in items :: h < 0x1_0000_0000 }

  /** The array of handles at address `a`. */
  ghost function HandlesArea(a: nat, i: nat, n: nat, c: Checker, d: Checker): Area {
    Area(a + 8 + 4 * i, a + 8 + 4 * n, c.dataBegin, d.dataBegin, c.handleBegin, d.handleBegin)
  }

  method DecodeHandles(mem: array<byte>, base: nat, a: nat, n: nat, vector: HandleVector,
                       ghost msg: Message, ghost nullable: bool, ghost c: Checker)
    requires msg.base == base && Fitting(msg, vector.items, c) && InMemory(msg.bytes, base, a, 8 + 4 * n) && a + 8 + 4 * n <= c.dataBegin
    requires ValidateHandles(msg.bytes, base, nullable, a, n, 0, c).err == NoError
    requires Ready(msg, mem[..], vector.items, HandlesArea(a, 0, n, c, ValidateHandles(msg.bytes, base, nullable, a, n, 0, c).checker))
    modifies mem, vector
    ensures var area := HandlesArea(a, 0, n, c, ValidateHandles(msg.bytes, base, nullable, a, n, 0, c).checker);
      && Elsewhere(msg, old(mem[..]), old(vector.items), mem[..], vector.items, area)
      && Rewritten(msg, mem[..], vector.items, DecodedHandles(msg.bytes, base, a, n, 0), area)
    ensures Small(vector.items)
  {
    hide Ready, Elsewhere, Rewritten, Lies, U32, ValidateHandles, DecodedHandles, DecodedHandle, PastHandle;
    ghost var bytes, d := msg.bytes, ValidateHandles(msg.bytes, base, nullable, a, n, 0, c).checker;
    ghost var here, done := c, NOTHING;
    NoneYet(msg, mem[..], vector.items, a, n, c, d);
    ThenNothing(DecodedHandles(bytes, base, a, n, 0));
    var i := 0;
    while i < n
      invariant 0 <= i <= n && Fitting(msg, vector.items, here) && a + 8 + 4 * n <= c.dataBegin <= here.dataBegin
      invariant ValidateHandles(bytes, base, nullable, a, n, i, here) == Outcome(NoError, d)
      invariant done.Then(DecodedHandles(bytes, base, a, n, i)) == DecodedHandles(bytes, base, a, n, 0)
      invariant c.handleBegin <= here.handleBegin
      invariant Lies(done, HandlesArea(a, 0, i, c, here)) && Rewritten(msg, mem[..], vector.items, done, HandlesArea(a, 0, i, c, here))
      invariant Elsewhere(msg, old(mem[..]), old(vector.items), mem[..], vector.items, HandlesArea(a, 0, i, c, here))
      invariant Ready(msg, mem[..], vector.items, HandlesArea(a, i, n, here, d))
    {
      ghost var w, m0, i0, next := a + 8 + 4 * i, mem[..], vector.items, PastHandle(bytes, base, a + 8 + 4 * i, here);
      SmallStill(i0, U32(bytes, w - base));
      ghost var area, one, rest := HandlesArea(a, 0, i, c, here), HandlesArea(a, i, i + 1, here, next), HandlesArea(a, i + 1, n, next, d);
      HandleStep(bytes, base, nullable, a, n, i, here);
      ReadyFirst(msg, m0, i0, one, rest);
      ReadsU32(msg, m0, i0, one, w);
      DecodeHandle(mem, a - base + 8 + 4 * i, vector);
      OnlyMeans(m0, mem[..], a - base + 8 + 4 * i, a - base + 8 + 4 * i + 4);
      HandleTaken(msg, m0, i0, mem[..], vector.items, w, one);
      ReadyNext(msg, m0, i0, mem[..], vector.items, one, rest);
      RewrittenStays(msg, m0, i0, mem[..], vector.items, done, area, one);
      LiesBoth(done, DecodedHandle(bytes, base, w), area, one);
      RewrittenBoth(msg, mem[..], vector.items, done, DecodedHandle(bytes, base, w), area, one);
      ElsewhereBoth(msg, old(mem[..]), old(vector.items), m0, i0, mem[..], vector.items, area, one);
      ThenAgain(done, DecodedHandle(bytes, base, w), DecodedHandles(bytes, base, a, n, i + 1));
      here, done := next, done.Then(DecodedHandle(bytes, base, w));
      i := i + 1;
    }
    HandlesEnd(bytes, base, nullable, a, n, here);
    ThenNothing(done);
  }

  lemma SmallStill(items: seq<nat>, k: nat)
    requires Small(items)
    ensures k < |items| ==> Small(items[k := 0])
  {
    if k < |items| {
      var after := items[k := 0];
      forall h | h in after ensures h < 0x1_0000_0000 {
        var i :| 0 <= i < |after| && after[i] == h;
        assert i != k ==> items[i] in items;
      }
    }
  }

  lemma OnlyMeans(m0: seq<byte>, m1: seq<byte>, a: nat, b: nat)
    requires Only(m0, m1, a, b)
    ensures |m1| == |m0| && forall x | 0 <= x < |m0| && !(a <= x < b) :: m1[x] == m0[x]
  {
  }

  lemma ThenNothing(x: Trace)
    ensures NOTHING.Then(x) == x && x.Then(NOTHING) == x
  {
    assert [] + x.pieces == x.pieces && [] + x.indices == x.indices;
    assert x.pieces + [] == x.pieces && x.indices + [] == x.indices;
  }

  lemma ThenAgain(x: Trace, y: Trace, z: Trace)
    ensures x.Then(y).Then(z) == x.Then(y.Then(z))
  {
    assert x.pieces + y.pieces + z.pieces == x.pieces + (y.pieces + z.pieces);
    assert x.indices + y.indices + z.indices == x.indices + (y.indices + z.indices);
  }

  lemma NoneYet(msg: Message, mem: seq<byte>, items: seq<nat>, a: nat, n: nat, c: Checker, d: Checker)
    requires Ready(msg, mem, items, HandlesArea(a, 0, n, c, d))
    ensures var none := HandlesArea(a, 0, 0, c, c);
      Lies(NOTHING, none) && Rewritten(msg, mem, items, NOTHING, none) && Elsewhere(msg, mem, items, mem, items, none)
  {
  }

  /** One round of the loop over handles, in the validator's terms. */
  lemma HandleStep(bytes: seq<byte>, base: nat, nullable: bool, a: nat, n: nat, i: nat, c: Checker)
    requires Inside(bytes, base, c) && i < n && InMemory(bytes, base, a, 8 + 4 * n) && a + 8 + 4 * n <= c.dataBegin
    requires ValidateHandles(bytes, base, nullable, a, n, i, c).err == NoError
    ensures var w := a + 8 + 4 * i; var next := PastHandle(bytes, base, w, c); var value := U32(bytes, w - base);
      && Inside(bytes, base, next) && next.dataBegin == c.dataBegin && next.handleEnd == c.handleEnd
      && (if value == INVALID_INDEX then next.handleBegin == c.handleBegin
          else c.handleBegin <= value < c.handleEnd && next.handleBegin == value + 1)
      && ValidateHandles(bytes, base, nullable, a, n, i + 1, next) == ValidateHandles(bytes, base, nullable, a, n, i, c)
      && next.handleBegin <= ValidateHandles(bytes, base, nullable, a, n, i, c).checker.handleBegin
      && next.dataBegin <= ValidateHandles(bytes, base, nullable, a, n, i, c).checker.dataBegin
      && DecodedHandles(bytes, base, a, n, i) == DecodedHandle(bytes, base, w).Then(DecodedHandles(bytes, base, a, n, i + 1))
  {
    hide U32;
  }

  lemma HandlesEnd(bytes: seq<byte>, base: nat, nullable: bool, a: nat, n: nat, c: Checker)
    requires Inside(bytes, base, c) && InMemory(bytes, base, a, 8 + 4 * n)
    ensures ValidateHandles(bytes, base, nullable, a, n, n, c) == Outcome(NoError, c)
    ensures DecodedHandles(bytes, base, a, n, n) == NOTHING
  {
  }

  // ---- Pointers and objects ----

  /** A slot and what validation used up behind it. */
  ghost function SlotArea(s: nat, c: Checker, d: Checker): Area {
    Area(s, s + 8, c.dataBegin, d.dataBegin, c.handleBegin, d.handleBegin)
  }

  /** What validation of an object used up; `own` is a place in front of it. */
  ghost function ObjectArea(own: nat, c: Checker, d: Checker): Area {
    Area(own, own, c.dataBegin, d.dataBegin, c.handleBegin, d.handleBegin)
  }

  /** Slots `i` up to `n` of the array at address `a`, and what is behind them. */
  ghost function SlotsArea(a: nat, i: nat, n: nat, c: Checker, d: Checker): Area {
    Area(a + 8 + 8 * i, a + 8 + 8 * n, c.dataBegin, d.dataBegin, c.handleBegin, d.handleBegin)
  }

  /** Sets one pointer, then decodes the object behind it. */
  method DecodeSlot(mem: array<byte>, base: nat, t: Type, s: nat, vector: HandleVector,
                    ghost msg: Message, ghost nullable: bool, ghost c: Checker)
    requires msg.base == base && Fitting(msg, vector.items, c) && InMemory(msg.bytes, base, s, 8) && s + 8 <= c.dataBegin
    requires ValidateSlot(msg.bytes, base, t, nullable, s, c).err == NoError
    requires Ready(msg, mem[..], vector.items, SlotArea(s, c, ValidateSlot(msg.bytes, base, t, nullable, s, c).checker))
    modifies mem, vector
    ensures var area := SlotArea(s, c, ValidateSlot(msg.bytes, base, t, nullable, s, c).checker);
      && Elsewhere(msg, old(mem[..]), old(vector.items), mem[..], vector.items, area)
      && Rewritten(msg, mem[..], vector.items, DecodedSlot(msg.bytes, base, t, s), area)
    ensures Small(vector.items)
    decreases t, 3
  {
    hide Ready, Elsewhere, Rewritten, Lies, U64, ValidateSlot, Validate, Decoded, DecodedSlot;
    ghost var m0, i0, bytes := mem[..], vector.items, msg.bytes;
    ghost var c1, to := Visit(c, PointerAt(s)), Target(bytes, base, s);
    SlotStep(bytes, base, t, nullable, s, c);
    ghost var d := Validate(bytes, base, t, to, c1).checker;
    ghost var one, kid := SlotArea(s, c, c), ObjectArea(s + 8, c1, d);
    ReadyFirst(msg, m0, i0, one, kid);
    ReadsU64(msg, m0, i0, one, s);
    var offset := U64(mem[..], s - base);
    var ptr := if offset == 0 then 0 else s + offset;
    PutU64(mem, s - base, ptr);
    OnlyMeans(m0, mem[..], s - base, s - base + 8);
    PointerSet(msg, m0, mem[..], i0, s, one);
    ReadyNext(msg, m0, i0, mem[..], i0, one, kid);
    ghost var m1 := mem[..];
    if ptr != 0 {
      DecodeObject(mem, base, t, ptr, vector, msg, c1, s + 8);
    } else {
      NullDecodes(msg, m1, i0, t, c1, s + 8);
    }
    SlotLies(bytes, base, t, nullable, s, c);
    RewrittenStays(msg, m1, i0, mem[..], vector.items, Trace([PointerAt(s)], []), one, kid);
    RewrittenBoth(msg, mem[..], vector.items, Trace([PointerAt(s)], []), Decoded(bytes, base, t, to), one, kid);
    ElsewhereBoth(msg, m0, i0, m1, i0, mem[..], vector.items, one, kid);
  }

  /** Validation of a slot, step by step. */
  lemma SlotStep(bytes: seq<byte>, base: nat, t: Type, nullable: bool, s: nat, c: Checker)
    requires Inside(bytes, base, c) && InMemory(bytes, base, s, 8) && ValidateSlot(bytes, base, t, nullable, s, c).err == NoError
    ensures var c1 := Visit(c, PointerAt(s)); var to := Target(bytes, base, s);
      && Inside(bytes, base, c1) && Validate(bytes, base, t, to, c1) == ValidateSlot(bytes, base, t, nullable, s, c)
      && to < ADDRESSES
      && c.dataBegin <= Validate(bytes, base, t, to, c1).checker.dataBegin
      && c.handleBegin <= Validate(bytes, base, t, to, c1).checker.handleBegin
      && DecodedSlot(bytes, base, t, s) == Trace([PointerAt(s)], []).Then(Decoded(bytes, base, t, to))
  {
    hide U64, Validate, Decoded;
  }

  lemma SlotLies(bytes: seq<byte>, base: nat, t: Type, nullable: bool, s: nat, c: Checker)
    requires Inside(bytes, base, c) && InMemory(bytes, base, s, 8) && s + 8 <= c.dataBegin
    requires ValidateSlot(bytes, base, t, nullable, s, c).err == NoError
    ensures var c1 := Visit(c, PointerAt(s)); var to := Target(bytes, base, s);
      Inside(bytes, base, c1) && Lies(Decoded(bytes, base, t, to), ObjectArea(s + 8, c1, Validate(bytes, base, t, to, c1).checker))
  {
    hide Validate, Decoded;
    SlotStep(bytes, base, t, nullable, s, c);
    var c1, to := Visit(c, PointerAt(s)), Target(bytes, base, s);
    Spread(bytes, base, t, to, c1, s + 8);
    Takes(bytes, base, t, to, c1);
  }

  lemma NullDecodes(msg: Message, mem: seq<byte>, items: seq<nat>, t: Type, c: Checker, own: nat)
    requires Inside(msg.bytes, msg.base, c) && Ready(msg, mem, items, ObjectArea(own, c, Validate(msg.bytes, msg.base, t, 0, c).checker))
    ensures var area := ObjectArea(own, c, Validate(msg.bytes, msg.base, t, 0, c).checker);
      Rewritten(msg, mem, items, Decoded(msg.bytes, msg.base, t, 0), area) && Elsewhere(msg, mem, items, mem, items, area)
  {
    Nothing(msg, mem, items, ObjectArea(own, c, Validate(msg.bytes, msg.base, t, 0, c).checker));
  }

  method DecodeElements(mem: array<byte>, base: nat, t: Type, a: nat, n: nat, vector: HandleVector, ghost msg: Message, ghost c: Checker)
    requires msg.base == base && Fitting(msg, vector.items, c) && t.RefArray?
    requires InMemory(msg.bytes, base, a, 8 + 8 * n) && a + 8 + 8 * n <= c.dataBegin
    requires ValidateElements(msg.bytes, base, t, a, n, 0, c).err == NoError
    requires Ready(msg, mem[..], vector.items, SlotsArea(a, 0, n, c, ValidateElements(msg.bytes, base, t, a, n, 0, c).checker))
    modifies mem, vector
    ensures var area := SlotsArea(a, 0, n, c, ValidateElements(msg.bytes, base, t, a, n, 0, c).checker);
      && Elsewhere(msg, old(mem[..]), old(vector.items), mem[..], vector.items, area)
      && Rewritten(msg, mem[..], vector.items, DecodedElements(msg.bytes, base, t, a, n, 0), area)
    ensures Small(vector.items)
    decreases t, 1
  {
    hide Ready, Elsewhere, Rewritten, Lies, ValidateElements, DecodedElements, ValidateSlot, DecodedSlot;
    ghost var bytes, d := msg.bytes, ValidateElements(msg.bytes, base, t, a, n, 0, c).checker;
    ghost var here, done := c, NOTHING;
    NoSlotYet(msg, mem[..], vector.items, a, n, c, d);
    ThenNothing(DecodedElements(bytes, base, t, a, n, 0));
    var i := 0;
    while i < n
      invariant 0 <= i <= n && Fitting(msg, vector.items, here) && a + 8 + 8 * n <= c.dataBegin <= here.dataBegin
      invariant ValidateElements(bytes, base, t, a, n, i, here) == Outcome(NoError, d)
      invariant done.Then(DecodedElements(bytes, base, t, a, n, i)) == DecodedElements(bytes, base, t, a, n, 0)
      invariant c.handleBegin <= here.handleBegin
      invariant Lies(done, SlotsArea(a, 0, i, c, here)) && Rewritten(msg, mem[..], vector.items, done, SlotsArea(a, 0, i, c, here))
      invariant Elsewhere(msg, old(mem[..]), old(vector.items), mem[..], vector.items, SlotsArea(a, 0, i, c, here))
      invariant Ready(msg, mem[..], vector.items, SlotsArea(a, i, n, here, d))
    {
      ghost var s, m0, i0 := a + 8 + 8 * i, mem[..], vector.items;
      ElementStep(bytes, base, t, a, n, i, here);
      ghost var next := ValidateSlot(bytes, base, t.elem, t.nullable, s, here).checker;
      ghost var area, one, rest := SlotsArea(a, 0, i, c, here), SlotArea(s, here, next), SlotsArea(a, i + 1, n, next, d);
      ReadyFirst(msg, m0, i0, one, rest);
      DecodeSlot(mem, base, t.elem, a + 8 + 8 * i, vector, msg, t.nullable, here);
      ReadyNext(msg, m0, i0, mem[..], vector.items, one, rest);
      RewrittenStays(msg, m0, i0, mem[..], vector.items, done, area, one);
      OneLies(bytes, base, t.elem, t.nullable, s, here);
      LiesBoth(done, DecodedSlot(bytes, base, t.elem, s), area, one);
      RewrittenBoth(msg, mem[..], vector.items, done, DecodedSlot(bytes, base, t.elem, s), area, one);
      ElsewhereBoth(msg, old(mem[..]), old(vector.items), m0, i0, mem[..], vector.items, area, one);
      ThenAgain(done, DecodedSlot(bytes, base, t.elem, s), DecodedElements(bytes, base, t, a, n, i + 1));
      here, done := next, done.Then(DecodedSlot(bytes, base, t.elem, s));
      i := i + 1;
    }
    ElementsEnd(bytes, base, t, a, n, here);
    ThenNothing(done);
  }

  lemma NoSlotYet(msg: Message, mem: seq<byte>, items: seq<nat>, a: nat, n: nat, c: Checker, d: Checker)
    requires Ready(msg, mem, items, SlotsArea(a, 0, n, c, d))
    ensures var none := SlotsArea(a, 0, 0, c, c);
      Lies(NOTHING, none) && Rewritten(msg, mem, items, NOTHING, none) && Elsewhere(msg, mem, items, mem, items, none)
  {
  }

  /** One round of the loop over elements, in the validator's terms. */
  lemma ElementStep(bytes: seq<byte>, base: nat, t: Type, a: nat, n: nat, i: nat, c: Checker)
    requires Inside(bytes, base, c) && t.RefArray? && i < n && InMemory(bytes, base, a, 8 + 8 * n)
    requires ValidateElements(bytes, base, t, a, n, i, c).err == NoError
    ensures var s := a + 8 + 8 * i; var o := ValidateSlot(bytes, base, t.elem, t.nullable, s, c);
      && o.err == NoError && Inside(bytes, base, o.checker) && o.checker.handleEnd == c.handleEnd
      && c.dataBegin <= o.checker.dataBegin <= ValidateElements(bytes, base, t, a, n, i, c).checker.dataBegin
      && c.handleBegin <= o.checker.handleBegin <= ValidateElements(bytes, base, t, a, n, i, c).checker.handleBegin
      && ValidateElements(bytes, base, t, a, n, i + 1, o.checker) == ValidateElements(bytes, base, t, a, n, i, c)
      && DecodedElements(bytes, base, t, a, n, i) == DecodedSlot(bytes, base, t.elem, s).Then(DecodedElements(bytes, base, t, a, n, i + 1))
  {
    hide ValidateSlot, DecodedSlot;
  }

  lemma OneLies(bytes: seq<byte>, base: nat, t: Type, nullable: bool, s: nat, c: Checker)
    requires Inside(bytes, base, c) && InMemory(bytes, base, s, 8) && s + 8 <= c.dataBegin
    requires ValidateSlot(bytes, base, t, nullable, s, c).err == NoError
    ensures Lies(DecodedSlot(bytes, base, t, s), SlotArea(s, c, ValidateSlot(bytes, base, t, nullable, s, c).checker))
  {
    hide ValidateSlot, DecodedSlot;
    SpreadSlot(bytes, base, t, nullable, s, c);
    TakesSlot(bytes, base, t, nullable, s, c);
  }

  lemma ElementsEnd(bytes: seq<byte>, base: nat, t: Type, a: nat, n: nat, c: Checker)
    requires Inside(bytes, base, c) && t.RefArray? && InMemory(bytes, base, a, 8 + 8 * n)
    ensures ValidateElements(bytes, base, t, a, n, n, c) == Outcome(NoError, c)
    ensures DecodedElements(bytes, base, t, a, n, n) == NOTHING
  {
  }

  method DecodeMap(mem: array<byte>, base: nat, t: Type, a: nat, vector: HandleVector, ghost msg: Message, ghost c: Checker)
    requires msg.base == base && Fitting(msg, vector.items, c) && t.MapOf?
    requires InMemory(msg.bytes, base, a, 24) && a + 24 <= c.dataBegin
    requires ValidateMap(msg.bytes, base, t, a, 24, 0, c).err == NoError
    requires Ready(msg, mem[..], vector.items, SlotsArea(a, 0, 2, c, ValidateMap(msg.bytes, base, t, a, 24, 0, c).checker))
    modifies mem, vector
    ensures var area := SlotsArea(a, 0, 2, c, ValidateMap(msg.bytes, base, t, a, 24, 0, c).checker);
      && Elsewhere(msg, old(mem[..]), old(vector.items), mem[..], vector.items, area)
      && Rewritten(msg, mem[..], vector.items,
                   DecodedSlot(msg.bytes, base, t.key, a + 8).Then(DecodedSlot(msg.bytes, base, t.value, a + 16)), area)
    ensures Small(vector.items)
    decreases t, 1
  {
    hide Ready, Elsewhere, Rewritten, Lies, ValidateSlot, DecodedSlot, U32;
    ghost var m0, i0, bytes := mem[..], vector.items, msg.bytes;
    ghost var keys := ValidateSlot(bytes, base, t.key, false, a + 8, c).checker;
    ghost var d := ValidateSlot(bytes, base, t.value, false, a + 16, keys).checker;
    ghost var first, second := SlotArea(a + 8, c, keys), SlotArea(a + 16, keys, d);
    ReadyFirst(msg, m0, i0, first, second);
    DecodeSlot(mem, base, t.key, a + 8, vector, msg, false, c);
    ghost var m1, i1 := mem[..], vector.items;
    ReadyNext(msg, m0, i0, m1, i1, first, second);
    DecodeSlot(mem, base, t.value, a + 16, vector, msg, false, keys);
    OneLies(bytes, base, t.key, false, a + 8, c);
    OneLies(bytes, base, t.value, false, a + 16, keys);
    RewrittenStays(msg, m1, i1, mem[..], vector.items, DecodedSlot(bytes, base, t.key, a + 8), first, second);
    RewrittenBoth(msg, mem[..], vector.items, DecodedSlot(bytes, base, t.key, a + 8), DecodedSlot(bytes, base, t.value, a + 16), first, second);
    ElsewhereBoth(msg, m0, i0, m1, i1, mem[..], vector.items, first, second);
  }

  /** Decodes the object at address `a` and everything behind it. Exactly the
      slots and words of the trace are rewritten, with the pointers and handles
      that the message had in them, and exactly its handles leave the vector. */
  method DecodeObject(mem: array<byte>, base: nat, t: Type, a: nat, vector: HandleVector, ghost msg: Message, ghost c: Checker, ghost own: nat)
    requires msg.base == base && Fitting(msg, vector.items, c) && a != 0 && own <= c.dataBegin
    requires Validate(msg.bytes, base, t, a, c).err == NoError
    requires Ready(msg, mem[..], vector.items, ObjectArea(own, c, Validate(msg.bytes, base, t, a, c).checker))
    modifies mem, vector
    ensures var area := ObjectArea(own, c, Validate(msg.bytes, base, t, a, c).checker);
      && Elsewhere(msg, old(mem[..]), old(vector.items), mem[..], vector.items, area)
      && Rewritten(msg, mem[..], vector.items, Decoded(msg.bytes, base, t, a), area)
    ensures Small(vector.items)
    decreases t, 2
  {
    hide Ready, Elsewhere, Rewritten, Validate, ValidateElements, ValidateHandles, ValidateMap, DecodedElements, DecodedHandles, DecodedSlot, U32, StorageSize;
    ghost var m0, i0, bytes := mem[..], vector.items, msg.bytes;
    AcceptedHeader(bytes, base, t, a, c);
    ghost var d, c1 := Validate(bytes, base, t, a, c).checker, Claiming(bytes, base, t, a, c);
    ghost var area, n0 := ObjectArea(own, c, d), U32(bytes, a - base + 4);
    ReadyHolds(msg, m0, i0, area);
    ReadsU32(msg, m0, i0, area, a + 4);
    var n := U32(mem[..], a - base + 4);
    match t {
      case HandleArray(nullable, _) =>
        ghost var part := HandlesArea(a, 0, n0, c1, d);
        ReadyParts(msg, m0, i0, area, part);
        DecodeHandles(mem, base, a, n, vector, msg, nullable, c1);
        Widen(msg, m0, i0, mem[..], vector.items, DecodedHandles(bytes, base, a, n0, 0), part, area);
      case RefArray(_, _, _) =>
        ghost var part := SlotsArea(a, 0, n0, c1, d);
        ReadyParts(msg, m0, i0, area, part);
        DecodeElements(mem, base, t, a, n, vector, msg, c1);
        Widen(msg, m0, i0, mem[..], vector.items, DecodedElements(bytes, base, t, a, n0, 0), part, area);
      case MapOf(key, value) =>
        ghost var part := SlotsArea(a, 0, 2, c1, d);
        ReadyParts(msg, m0, i0, area, part);
        DecodeMap(mem, base, t, a, vector, msg, c1);
        Widen(msg, m0, i0, mem[..], vector.items,
              DecodedSlot(bytes, base, key, a + 8).Then(DecodedSlot(bytes, base, value, a + 16)), part, area);
      case _ =>
        Nothing(msg, m0, i0, area);
    }
  }

  lemma ReadyHolds(msg: Message, mem: seq<byte>, items: seq<nat>, area: Area)
    requires Ready(msg, mem, items, area)
    ensures msg.Holds(area) && |mem| == |msg.bytes| && |items| == |msg.items|
  {
  }

  // ---- What decoding left behind ----

  lemma OneSlotLies(s: nat, c: Checker)
    ensures Lies(Trace([PointerAt(s)], []), SlotArea(s, c, c))
  {
  }

  lemma PointerArrived(msg: Message, mem: seq<byte>, items: seq<nat>, s: nat, area: Area)
    requires Rewritten(msg, mem, items, Trace([PointerAt(s)], []), area)
    ensures InMemory(msg.bytes, msg.base, s, 8) && |mem| == |msg.bytes| && U64(mem, s - msg.base) == Target(msg.bytes, msg.base, s)
  {
    hide U64;
    var xs := [PointerAt(s)];
    assert PieceDone(msg, mem, xs[0]);
  }

  lemma ElementsLie(bytes: seq<byte>, base: nat, t: Type, a: nat, n: nat, i: nat, c: Checker)
    requires Inside(bytes, base, c) && t.RefArray? && i <= n && InMemory(bytes, base, a, 8 + 8 * n) && a + 8 + 8 * n <= c.dataBegin
    requires ValidateElements(bytes, base, t, a, n, i, c).err == NoError
    ensures Lies(DecodedElements(bytes, base, t, a, n, i), SlotsArea(a, i, n, c, ValidateElements(bytes, base, t, a, n, i, c).checker))
  {
    hide ValidateElements, DecodedElements;
    SpreadElements(bytes, base, t, a, n, i, c);
    TakesElements(bytes, base, t, a, n, i, c);
  }

  lemma RewrittenHolds(msg: Message, mem: seq<byte>, items: seq<nat>, trace: Trace, area: Area)
    requires Rewritten(msg, mem, items, trace, area)
    ensures msg.Holds(area) && |mem| == |msg.bytes| && |items| == |msg.items|
  {
  }

  lemma LiesIn(trace: Trace, area: Area)
    requires Within(trace.pieces, area.own, area.ownEnd, area.lo, area.hi) && Indices(trace.indices, area.hb, area.he)
    ensures Lies(trace, area)
  {
  }

  lemma TakesMap(bytes: seq<byte>, base: nat, t: Type, a: nat, c: Checker)
    requires Inside(bytes, base, c) && t.MapOf? && InMemory(bytes, base, a, 24) && ValidateMap(bytes, base, t, a, 24, 0, c).err == NoError
    ensures Indices(DecodedSlot(bytes, base, t.key, a + 8).Then(DecodedSlot(bytes, base, t.value, a + 16)).indices,
                    c.handleBegin, ValidateMap(bytes, base, t, a, 24, 0, c).checker.handleBegin)
  {
    hide ValidateSlot, DecodedSlot, Indices, U32;
    var keys := ValidateSlot(bytes, base, t.key, false, a + 8, c).checker;
    TakesSlot(bytes, base, t.key, false, a + 8, c);
    TakesSlot(bytes, base, t.value, false, a + 16, keys);
    IndicesThen(DecodedSlot(bytes, base, t.key, a + 8), DecodedSlot(bytes, base, t.value, a + 16),
                c.handleBegin, keys.handleBegin, ValidateSlot(bytes, base, t.value, false, a + 16, keys).checker.handleBegin);
  }
}
