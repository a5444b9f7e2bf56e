/**
  The validator accepts what the encoder produces.
*/
module CppAccept {
  import opened Wire
  import opened CppValues
  import opened CppImage
  import opened CppEncode
  import opened CppValidate
  import opened CppSound

  /** The checker has the bytes of an object of `size` bytes at address `a` left,
      and `k` handle indices from `h`. */
  ghost predicate Leaves(c: Checker, a: nat, size: nat, h: nat, k: nat) {
    c.dataBegin <= a && a + size <= c.dataEnd && c.handleBegin <= h && h + k <= c.handleEnd < 0x8000_0000
  }

  /** It accepted the object and claimed no more than that, with room for it. */
  ghost predicate Accepted(o: Outcome, end: nat, h: nat) {
    o.err == NoError && o.checker.dataBegin <= end && o.checker.handleBegin <= h && Held(o.checker.claims)
  }

  lemma ClaimHeld(c: Checker, a: nat, t: Type, v: Val)
    requires Held(c.claims) && HasType(t, v) && a + Storage(v) + 8 < ADDRESSES
    ensures Held(ClaimMemory(c, a, 8 + Storage(v), t, if t.MapOf? then 2 else Count(v)).claims)
  {
  }

  lemma HeaderAccepted(t: Type, v: Val)
    requires WellFormed(t) && HasType(t, v) && NoWrap(v) && !t.MapOf?
    ensures Count(v) <= MaxElements(t) && StorageSize(t, Count(v)) == 8 + Storage(v)
  {
    hide Size, Block;
    SizeIsBlock(v);
    if v.Bits? {
      NoBitWrap(|v.bits|);
    }
  }

  lemma NoBitWrap(n: nat)
    requires n + 7 < 0x1_0000_0000
    ensures (n + 7) % 0x1_0000_0000 == n + 7
  {
  }

  lemma RangeValid(mem: seq<byte>, base: nat, c: Checker, a: nat, bytes: nat)
    requires Inside(mem, base, c) && c.dataBegin <= a && a + bytes <= c.dataEnd && bytes > 0
    ensures IsValidRange(c, a, bytes)
  {
  }

  /** With a good header, validation is the claim and then the elements. */
  lemma GoodHeader(mem: seq<byte>, base: nat, t: Type, p: nat, bytes: nat, second: nat, c: Checker)
    requires Inside(mem, base, c) && (base + p) % 8 == 0 && p + 8 <= |mem|
    requires U32(mem, p) == bytes && U32(mem, p + 4) == second
    requires IsValidRange(c, base + p, 8) && IsValidRange(c, base + p, bytes) && bytes >= 8
    requires !t.MapOf? ==> second <= MaxElements(t) && bytes >= StorageSize(t, second) && (t.expected == 0 || second == t.expected)
    ensures Inside(mem, base, ClaimMemory(c, base + p, bytes, t, if t.MapOf? then 2 else second))
    ensures t.HandleArray? ==> p + 8 + 4 * second <= |mem|
    ensures t.RefArray? ==> p + 8 + 8 * second <= |mem|
    ensures t.MapOf? ==> p + bytes <= |mem|
    ensures var d := ClaimMemory(c, base + p, bytes, t, if t.MapOf? then 2 else second);
      Validate(mem, base, t, base + p, c) ==
        if t.MapOf? then ValidateMap(mem, base, t, base + p, bytes, second, d)
        else if t.HandleArray? then ValidateHandles(mem, base, t.nullable, base + p, second, 0, d)
        else if t.RefArray? then ValidateElements(mem, base, t, base + p, second, 0, d)
        else Outcome(NoError, d)
  {
    U32Bound(mem, p);
  }

  lemma {:induction false} Accepts(mem: seq<byte>, base: nat, t: Type, p: nat, v: Val, h: nat, c: Checker)
    requires Inside(mem, base, c) && base % 8 == 0 && At(Encoded(h), mem, p, v)
    requires WellFormed(t) && HasType(t, v) && Check(t, v) == NoError && NoWrap(v)
    requires Leaves(c, base + p, Size(v), h, |HandlesOf(v)|) && Held(c.claims)
    ensures Accepted(Validate(mem, base, t, base + p, c), base + p + Size(v), h + |HandlesOf(v)|)
    decreases t, 2, 0
  {
    hide U32, StorageSize, MaxElements, IsValidRange, Storage, Size, Held, HasType, Check, Validate, WellFormed;
    var a := base + p;
    SizeIsBlock(v);
    RangeValid(mem, base, c, a, 8);
    RangeValid(mem, base, c, a, 8 + Storage(v));
    U32Bound(mem, p);
    WordsAdd(base, p);
    var d := ClaimMemory(c, a, 8 + Storage(v), t, if t.MapOf? then 2 else Count(v));
    assert d.dataBegin == a + 8 + Storage(v);
    ClaimHeld(c, a, t, v);
    if t.MapOf? {
      GoodHeader(mem, base, t, p, 8 + Storage(v), Count(v), c);
      AcceptsMap(mem, base, t, p, v, h, d);
    } else {
      HeaderAccepted(t, v);
      LengthRight(t, v);
      GoodHeader(mem, base, t, p, 8 + Storage(v), Count(v), c);
      if t.HandleArray? {
        HandlesTyped(t, v);
        AcceptsHandles(mem, base, t.nullable, p, v.handles, 0, h, d);
      } else if t.RefArray? {
        RefsTyped(t, v);
        AcceptsElements(mem, base, t, p, v, 0, h, d);
      }
    }
  }

  lemma LengthRight(t: Type, v: Val)
    requires HasType(t, v) && Check(t, v) == NoError && !t.MapOf?
    ensures t.expected == 0 || Count(v) == t.expected
  {
  }

  lemma HandlesTyped(t: Type, v: Val)
    requires HasType(t, v) && Check(t, v) == NoError && t.HandleArray?
    ensures v.Handles? && Count(v) == |v.handles| && Storage(v) == 4 * |v.handles| && HandlesOf(v) == Valid(v.handles)
    ensures t.nullable || 0 !in v.handles
    ensures Valid(v.handles[..0]) == []
  {
  }

  lemma RefsTyped(t: Type, v: Val)
    requires HasType(t, v) && t.RefArray?
    ensures v.Node? && Count(v) == |v.kids| && Storage(v) == 8 * |v.kids| && HandlesBefore(v.kids, 0) == []
    ensures 8 + Storage(v) <= Block(v)
  {
  }

  lemma {:induction false} AcceptsHandles(mem: seq<byte>, base: nat, nullable: bool, p: nat, handles: seq<nat>, i: nat, h: nat, c: Checker)
    requires Inside(mem, base, c) && i <= |handles| && p + 8 + 4 * |handles| <= |mem| && HandlesAt(Encoded(h), mem, p, handles)
    requires (nullable || 0 !in handles) && Held(c.claims)
    requires c.handleBegin <= h + |Valid(handles[..i])| && h + |Valid(handles)| <= c.handleEnd < 0x8000_0000
    ensures Accepted(ValidateHandles(mem, base, nullable, base + p, |handles|, i, c), c.dataBegin, h + |Valid(handles)|)
    decreases |handles| - i
  {
    hide U32, Held;
    if i == |handles| {
      assert handles[..i] == handles;
    } else {
      assert U32(mem, p + 8 + 4 * i) == HandleCode(Encoded(h), handles, i);
      assert handles[i] in handles;
      ValidNext(handles, i);
      ValidPrefix(handles, i + 1);
      AcceptsHandles(mem, base, nullable, p, handles, i + 1, h,
                     ClaimHandle(Visit(c, HandleAt(base + p + 8 + 4 * i)), U32(mem, p + 8 + 4 * i)));
    }
  }

  /** One pointer: everything behind it is accepted. */
  lemma {:induction false} AcceptsSlot(mem: seq<byte>, base: nat, t: Type, nullable: bool, p: nat, v: Val, i: nat, h: nat, c: Checker)
    requires Inside(mem, base, c) && base % 8 == 0 && v.Node? && i < |v.kids| && p + Size(v) <= |mem|
    requires KidAt(Encoded(h), mem, p, v, v.kids, i) && NoWrap(v) && WellFormed(t)
    requires if v.kids[i].None? then nullable else HasType(t, v.kids[i].value) && Check(t, v.kids[i].value) == NoError
    requires Leaves(c, KidPos(base + p, v, i), SizeOf(v.kids[i]), h + |HandlesBefore(v.kids, i)|, |HandlesIn(v.kids[i])|) && Held(c.claims)
    ensures p + 8 + 8 * i + 8 <= |mem|
    ensures Accepted(ValidateSlot(mem, base, t, nullable, base + p + 8 + 8 * i, c),
                     KidPos(base + p, v, i + 1), h + |HandlesBefore(v.kids, i + 1)|)
    decreases t, 3, 0
  {
    hide U64, Size, At, KidAt, Check, HasType, Validate, Held, Block, Before, HandlesBefore, WellFormed, KidPos;
    KidInside(p, v, i);
    NextKid(base, p, v, i);
    KidMeans(Encoded(h), mem, p, v, i);
    var s, d := base + p + 8 + 8 * i, Visit(c, PointerAt(base + p + 8 + 8 * i));
    if v.kids[i].Some? {
      KidNoWrap(v, i);
      NonzeroSize(v.kids[i].value);
      assert U64(mem, s - base) == KidPos(p, v, i) - Slot(p, i);
      assert Target(mem, base, s) == base + KidPos(p, v, i);
      Accepts(mem, base, t, KidPos(p, v, i), v.kids[i].value, h + |HandlesBefore(v.kids, i)|, d);
    } else {
      NullAccepted(mem, base, t, d);
    }
  }

  lemma NextKid(base: nat, p: nat, v: Val, i: nat)
    requires v.Node? && i < |v.kids|
    ensures KidPos(base + p, v, i) == base + KidPos(p, v, i)
    ensures KidPos(base + p, v, i + 1) == base + KidPos(p, v, i) + SizeOf(v.kids[i])
    ensures HandlesBefore(v.kids, i + 1) == HandlesBefore(v.kids, i) + HandlesIn(v.kids[i])
  {
  }

  lemma {:induction false} AcceptsElements(mem: seq<byte>, base: nat, t: Type, p: nat, v: Val, i: nat, h: nat, c: Checker)
    requires Inside(mem, base, c) && base % 8 == 0 && At(Encoded(h), mem, p, v)
    requires WellFormed(t) && HasType(t, v) && Check(t, v) == NoError && NoWrap(v) && t.RefArray? && i <= |v.kids|
    requires c.dataBegin <= KidPos(base + p, v, i) && base + p + Size(v) <= c.dataEnd && Held(c.claims)
    requires c.handleBegin <= h + |HandlesBefore(v.kids, i)| && h + |HandlesOf(v)| <= c.handleEnd < 0x8000_0000
    ensures p + 8 + 8 * |v.kids| <= |mem|
    ensures Accepted(ValidateElements(mem, base, t, base + p, |v.kids|, i, c), base + p + Size(v), h + |HandlesOf(v)|)
    decreases t, 1, |v.kids| - i
  {
    hide KidAt, Check, HasType, ValidateSlot, U32, Validate, Held;
    SizeIsBlock(v);
    RefsTyped(t, v);
    if i < |v.kids| {
      CheckKid(t, v, i);
      KidInside(base + p, v, i);
      HandlesBeforePrefix(v.kids, i + 1, |v.kids|);
      AcceptsSlot(mem, base, t.elem, t.nullable, p, v, i, h, c);
      AcceptsElements(mem, base, t, p, v, i + 1, h, ValidateSlot(mem, base, t.elem, t.nullable, base + p + 8 + 8 * i, c).checker);
    }
  }

  lemma {:induction false} AcceptsMap(mem: seq<byte>, base: nat, t: Type, p: nat, v: Val, h: nat, c: Checker)
    requires Inside(mem, base, c) && base % 8 == 0 && At(Encoded(h), mem, p, v)
    requires WellFormed(t) && HasType(t, v) && Check(t, v) == NoError && NoWrap(v) && t.MapOf?
    requires c.dataBegin <= base + p + Block(v) && base + p + Size(v) <= c.dataEnd && Held(c.claims)
    requires c.handleBegin <= h && h + |HandlesOf(v)| <= c.handleEnd < 0x8000_0000
    ensures p + 24 <= |mem| && Storage(v) == 16 && Count(v) == 0
    ensures Accepted(ValidateMap(mem, base, t, base + p, 24, 0, c), base + p + Size(v), h + |HandlesOf(v)|)
    decreases t, 1, 0
  {
    hide ValidateSlot, Validate, Check, U32, U64, KidAt, HandlesOf, Size, Held;
    MapTyped(t, v);
    CheckKid(t, v, 0);
    CheckKid(t, v, 1);
    KidInside(base + p, v, 0);
    KidInside(base + p, v, 1);
    HandlesBeforePrefix(v.kids, 1, 2);
    assert KidAt(Encoded(h), mem, p, v, v.kids, 0) && KidAt(Encoded(h), mem, p, v, v.kids, 1);
    AcceptsSlot(mem, base, t.key, false, p, v, 0, h, c);
    var keys := ValidateSlot(mem, base, t.key, false, base + p + 8, c);
    AcceptsSlot(mem, base, t.value, false, p, v, 1, h, keys.checker);
    SameCounts(mem, base, t, p, v, h);
  }

  lemma MapTyped(t: Type, v: Val)
    requires HasType(t, v) && t.MapOf?
    ensures v.Node? && |v.kids| == 2 && v.kids[0].Some? && v.kids[1].Some? && Storage(v) == 16 && Count(v) == 0
    ensures Block(v) == 24 && HandlesBefore(v.kids, 0) == [] && HandlesOf(v) == HandlesBefore(v.kids, 2)
    ensures Count(v.kids[0].value) == Count(v.kids[1].value)
    ensures Size(v) == Block(v) + Before(v.kids, 2) && Before(v.kids, 0) == 0
  {
  }

  lemma SameCounts(mem: seq<byte>, base: nat, t: Type, p: nat, v: Val, h: nat)
    requires HasType(t, v) && t.MapOf? && At(Encoded(h), mem, p, v) && base > 0
    ensures p + 24 <= |mem|
    ensures forall i | 0 <= i < 2 :: var q := Target(mem, base, base + p + 8 + 8 * i);
      q >= base && q - base + 8 <= |mem| && U32(mem, q - base + 4) == Count(v.kids[0].value)
  {
    MapTyped(t, v);
    forall i | 0 <= i < 2 ensures var q := Target(mem, base, base + p + 8 + 8 * i);
      q >= base && q - base + 8 <= |mem| && U32(mem, q - base + 4) == Count(v.kids[0].value)
    {
      KidInside(p, v, i);
      KidMeans(Encoded(h), mem, p, v, i);
      NonzeroSize(v.kids[i].value);
      assert KidAt(Encoded(h), mem, p, v, v.kids, i);
      SizeIsBlock(v.kids[i].value);
      AtHeader(Encoded(h).Later(|HandlesBefore(v.kids, i)|), mem, KidPos(p, v, i), v.kids[i].value);
    }
  }

  lemma AtHeader(mode: Mode, mem: seq<byte>, p: nat, v: Val)
    requires At(mode, mem, p, v)
    ensures p + 8 <= |mem| && U32(mem, p + 4) == Count(v)
  {
    SizeIsBlock(v);
  }
}
