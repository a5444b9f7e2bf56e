/**
  A message that the encoder made, after decoding: the value lies in memory again,
  with pointers and handles.
*/
module CppArrival {
  import opened Wire
  import opened CppValues
  import opened CppImage
  import opened CppEncode
  import opened CppValidate
  import opened CppSound
  import opened CppVisit
  import opened CppRewrite
  import opened CppDecode
  import opened CppRead
  import opened CppDeserialize

  /** The handles `hs` came with the message, from index `h`. */
  ghost predicate Carries(items: seq<nat>, h: nat, hs: seq<nat>) {
    h + |hs| <= |items| < 0x8000_0000 && items[h..h + |hs|] == hs
  }

  /** What came with the message is what the memory is to hold: the handles `hs`,
      from index `h`, or none. */
  ghost predicate Supplies(mode: Mode, msg: Message, h: nat, hs: seq<nat>) {
    (mode == Raw(msg.base) && Carries(msg.items, h, hs)) || (mode == Spent(msg.base) && forall x | x in msg.items :: x == 0)
  }

  lemma SuppliesPart(mode: Mode, msg: Message, h: nat, hs: seq<nat>, before: seq<nat>, part: seq<nat>)
    requires Supplies(mode, msg, h, hs) && before + part <= hs
    ensures Supplies(mode, msg, h + |before|, part)
  {
    hide Carries;
    if mode.Raw? {
      CarriesPart(msg.items, h, hs, before, part);
    }
  }

  lemma CarriesPart(items: seq<nat>, h: nat, hs: seq<nat>, before: seq<nat>, part: seq<nat>)
    requires Carries(items, h, hs) && before + part <= hs
    ensures Carries(items, h + |before|, part)
  {
    var k := |before|;
    forall x | 0 <= x < |part| ensures items[h + k + x] == part[x] {
      assert (before + part)[k + x] == hs[k + x];
      assert items[h..h + |hs|][k + x] == items[h + k + x];
    }
    assert items[h + k..h + k + |part|] == part;
  }

  lemma HeaderArrives(msg: Message, mem: seq<byte>, items: seq<nat>, trace: Trace, area: Area, part: Area, p: nat, v: Val)
    requires Rewritten(msg, mem, items, trace, area) && Lies(trace, part) && HeaderAt(msg.bytes, p, v)
    requires forall x | msg.base + p <= x < msg.base + p + 8 :: area.Has(x) && !part.Has(x)
    ensures HeaderAt(mem, p, v)
  {
    hide U32, Lies, PieceDone, Covered;
    Unchanged(msg, mem, items, trace, area, part, msg.base + p, msg.base + p + 8);
    U32Same(msg.bytes, mem, p);
    U32Same(msg.bytes, mem, p + 4);
  }

  // ---- Handles ----

  lemma {:induction false} ValidAt(handles: seq<nat>, i: nat)
    requires i < |handles| && handles[i] != 0
    ensures |Valid(handles[..i])| < |Valid(handles)| && Valid(handles)[|Valid(handles[..i])|] == handles[i]
  {
    ValidNext(handles, i);
    ValidPrefix(handles, i + 1);
  }

  lemma HandlesArrive(mode: Mode, msg: Message, mem: seq<byte>, items: seq<nat>, p: nat, handles: seq<nat>, h: nat, area: Area)
    requires p + 8 + 4 * |handles| <= |msg.bytes| && HandlesAt(Encoded(h), msg.bytes, p, handles) && Supplies(mode, msg, h, Valid(handles))
    requires Rewritten(msg, mem, items, DecodedHandles(msg.bytes, msg.base, msg.base + p, |handles|, 0), area)
    ensures |mem| == |msg.bytes| && HandlesAt(mode, mem, p, handles)
  {
    hide U32, DecodedHandles, Valid;
    var n := |handles|;
    forall i | 0 <= i < n ensures U32(mem, p + 8 + 4 * i) == HandleCode(mode, handles, i) {
      HandlePiece(msg.bytes, msg.base, msg.base + p, n, 0, i);
      assert PieceDone(msg, mem, HandleAt(msg.base + p + 8 + 4 * i));
      if mode.Raw? {
        HandlesBack(msg, p, handles, h);
        assert ReadHandles(msg, msg.base + p, n)[i] == msg.Handle(msg.base + p + 8 + 4 * i);
      } else {
        var value := U32(msg.bytes, p + 8 + 4 * i);
        assert value < |msg.items| ==> msg.items[value] in msg.items;
      }
    }
  }

  // ---- Objects ----

  /** The object behind a pointer arrives, and the pointer with it. */
  lemma {:induction false} SlotArrives(mode: Mode, msg: Message, mem: seq<byte>, items: seq<nat>, t: Type, nullable: bool, p: nat, v: Val, i: nat, h: nat, c: Checker)
    requires Inside(msg.bytes, msg.base, c) && v.Node? && i < |v.kids| && p + Size(v) <= |msg.bytes|
    requires KidAt(Encoded(h), msg.bytes, p, v, v.kids, i) && Supplies(mode, msg, h, HandlesOf(v))
    requires v.kids[i].Some? ==> HasType(t, v.kids[i].value)
    requires InMemory(msg.bytes, msg.base, msg.base + p + 8 + 8 * i, 8) && msg.base + p + 8 + 8 * i + 8 <= c.dataBegin
    requires ValidateSlot(msg.bytes, msg.base, t, nullable, msg.base + p + 8 + 8 * i, c).err == NoError
    requires var s := msg.base + p + 8 + 8 * i;
      Rewritten(msg, mem, items, DecodedSlot(msg.bytes, msg.base, t, s),
                SlotArea(s, c, ValidateSlot(msg.bytes, msg.base, t, nullable, s, c).checker))
    ensures p + Block(v) <= |mem| && KidAt(mode, mem, p, v, v.kids, i)
    decreases t, 3
  {
    hide U64, Size, At, KidAt, ValidateSlot, Validate, Decoded, Rewritten, Lies, HasType;
    var bytes, base, s := msg.bytes, msg.base, msg.base + p + 8 + 8 * i;
    KidInside(p, v, i);
    KidMeans(Encoded(h), bytes, p, v, i);
    SlotStep(bytes, base, t, nullable, s, c);
    SlotLies(bytes, base, t, nullable, s, c);
    var c1, to := Visit(c, PointerAt(s)), Target(bytes, base, s);
    var d := Validate(bytes, base, t, to, c1).checker;
    var x, y, one, kid := Trace([PointerAt(s)], []), Decoded(bytes, base, t, to), SlotArea(s, c, c), ObjectArea(s + 8, c1, d);
    OneSlotLies(s, c);
    Split(msg, mem, items, x, y, one, kid);
    PointerArrived(msg, mem, items, s, one);
    if v.kids[i].Some? {
      KidsHandles(v.kids, i);
      NonzeroSize(v.kids[i].value);
      SuppliesPart(mode, msg, h, HandlesOf(v), HandlesBefore(v.kids, i), HandlesIn(v.kids[i]));
      assert to == base + KidPos(p, v, i);
      ValueArrives(mode, msg, mem, items, t, KidPos(p, v, i), v.kids[i].value, h + |HandlesBefore(v.kids, i)|, c1, s + 8);
    }
    KidMeans(mode, mem, p, v, i);
  }

  lemma {:induction false} ElementsArrive(mode: Mode, msg: Message, mem: seq<byte>, items: seq<nat>, t: Type, p: nat, v: Val, i: nat, h: nat, c: Checker)
    requires Inside(msg.bytes, msg.base, c) && t.RefArray? && HasType(t, v) && i <= |v.kids| && p + Size(v) <= |msg.bytes|
    requires (forall j | 0 <= j < |v.kids| :: KidAt(Encoded(h), msg.bytes, p, v, v.kids, j)) && Supplies(mode, msg, h, HandlesOf(v))
    requires InMemory(msg.bytes, msg.base, msg.base + p, 8 + 8 * |v.kids|) && msg.base + p + 8 + 8 * |v.kids| <= c.dataBegin
    requires ValidateElements(msg.bytes, msg.base, t, msg.base + p, |v.kids|, i, c).err == NoError
    requires var a := msg.base + p; var n := |v.kids|;
      Rewritten(msg, mem, items, DecodedElements(msg.bytes, msg.base, t, a, n, i),
                SlotsArea(a, i, n, c, ValidateElements(msg.bytes, msg.base, t, a, n, i, c).checker))
    ensures p + Block(v) <= |mem| && forall j | i <= j < |v.kids| :: KidAt(mode, mem, p, v, v.kids, j)
    decreases t, 1, |v.kids| - i
  {
    hide Size, KidAt, ValidateElements, DecodedElements, ValidateSlot, DecodedSlot, Lies, Block, PieceDone, Covered;
    var bytes, base, a, n := msg.bytes, msg.base, msg.base + p, |v.kids|;
    SizeIsBlock(v);
    if i < n {
      var s := a + 8 + 8 * i;
      ElementStep(bytes, base, t, a, n, i, c);
      var next := ValidateSlot(bytes, base, t.elem, t.nullable, s, c).checker;
      var d := ValidateElements(bytes, base, t, a, n, i, c).checker;
      var one, rest := SlotArea(s, c, next), SlotsArea(a, i + 1, n, next, d);
      OneLies(bytes, base, t.elem, t.nullable, s, c);
      ElementsLie(bytes, base, t, a, n, i + 1, next);
      Split(msg, mem, items, DecodedSlot(bytes, base, t.elem, s), DecodedElements(bytes, base, t, a, n, i + 1), one, rest);
      SlotArrives(mode, msg, mem, items, t.elem, t.nullable, p, v, i, h, c);
      ElementsArrive(mode, msg, mem, items, t, p, v, i + 1, h, next);
    }
  }

  lemma {:induction false} MapArrives(mode: Mode, msg: Message, mem: seq<byte>, items: seq<nat>, t: Type, p: nat, v: Val, h: nat, c: Checker)
    requires Inside(msg.bytes, msg.base, c) && t.MapOf? && HasType(t, v) && p + Size(v) <= |msg.bytes|
    requires (forall j | 0 <= j < |v.kids| :: KidAt(Encoded(h), msg.bytes, p, v, v.kids, j)) && Supplies(mode, msg, h, HandlesOf(v))
    requires InMemory(msg.bytes, msg.base, msg.base + p, 24) && msg.base + p + 24 <= c.dataBegin
    requires ValidateMap(msg.bytes, msg.base, t, msg.base + p, 24, 0, c).err == NoError
    requires var a := msg.base + p;
      Rewritten(msg, mem, items, DecodedSlot(msg.bytes, msg.base, t.key, a + 8).Then(DecodedSlot(msg.bytes, msg.base, t.value, a + 16)),
                SlotsArea(a, 0, 2, c, ValidateMap(msg.bytes, msg.base, t, a, 24, 0, c).checker))
    ensures p + Block(v) <= |mem| && forall j | 0 <= j < |v.kids| :: KidAt(mode, mem, p, v, v.kids, j)
    decreases t, 1, 0
  {
    hide Size, KidAt, ValidateSlot, DecodedSlot, Lies, Rewritten, Block, U32;
    var bytes, base, a := msg.bytes, msg.base, msg.base + p;
    var keys := ValidateSlot(bytes, base, t.key, false, a + 8, c).checker;
    var d := ValidateSlot(bytes, base, t.value, false, a + 16, keys).checker;
    OneLies(bytes, base, t.key, false, a + 8, c);
    OneLies(bytes, base, t.value, false, a + 16, keys);
    Split(msg, mem, items, DecodedSlot(bytes, base, t.key, a + 8), DecodedSlot(bytes, base, t.value, a + 16),
          SlotArea(a + 8, c, keys), SlotArea(a + 16, keys, d));
    SlotArrives(mode, msg, mem, items, t.key, false, p, v, 0, h, c);
    SlotArrives(mode, msg, mem, items, t.value, false, p, v, 1, h, keys);
  }

  /** The bytes of a leaf that no piece covers. */
  lemma LeafArrives(mode: Mode, msg: Message, mem: seq<byte>, items: seq<nat>, area: Area, p: nat, v: Val, h: nat)
    requires At(Encoded(h), msg.bytes, p, v) && (v.Pods? || v.Bits?) && Rewritten(msg, mem, items, NOTHING, area)
    requires forall x | msg.base + p <= x < msg.base + p + 8 + Storage(v) :: area.Has(x)
    ensures At(mode, mem, p, v)
  {
    hide U32, PieceDone;
    var base := msg.base;
    SizeIsBlock(v);
    NoPieces(base, base, base, base);
    NoIndices(0, 0);
    Unchanged(msg, mem, items, NOTHING, area, Area(base, base, base, base, 0, 0), base + p, base + p + 8 + Storage(v));
    U32Same(msg.bytes, mem, p);
    U32Same(msg.bytes, mem, p + 4);
    if v.Pods? {
      assert mem[p + 8..p + 8 + |v.data|] == msg.bytes[p + 8..p + 8 + |v.data|];
    }
  }

  lemma AtMeans(mode: Mode, mem: seq<byte>, p: nat, v: Val)
    ensures At(mode, mem, p, v) ==> HeaderAt(mem, p, v)
    ensures v.Node? && HeaderAt(mem, p, v) && (forall i | 0 <= i < |v.kids| :: KidAt(mode, mem, p, v, v.kids, i)) ==> At(mode, mem, p, v)
    ensures v.Node? && At(mode, mem, p, v) ==> forall i | 0 <= i < |v.kids| :: KidAt(mode, mem, p, v, v.kids, i)
    ensures v.Handles? && HeaderAt(mem, p, v) ==> (At(mode, mem, p, v) <==> HandlesAt(mode, mem, p, v.handles))
  {
    SizeIsBlock(v);
  }

  /** Decoded where it arrived, an encoded value lies in memory as it did before it
      was encoded, with the pointers of its new address; with no handles in the
      message, it lies there as it does once its handles are taken. */
  lemma {:induction false} ValueArrives(mode: Mode, msg: Message, mem: seq<byte>, items: seq<nat>, t: Type, p: nat, v: Val, h: nat, c: Checker, own: nat)
    requires Inside(msg.bytes, msg.base, c) && own <= c.dataBegin && HasType(t, v)
    requires At(Encoded(h), msg.bytes, p, v) && Supplies(mode, msg, h, HandlesOf(v))
    requires Validate(msg.bytes, msg.base, t, msg.base + p, c).err == NoError
    requires Rewritten(msg, mem, items, Decoded(msg.bytes, msg.base, t, msg.base + p),
                       ObjectArea(own, c, Validate(msg.bytes, msg.base, t, msg.base + p, c).checker))
    ensures At(mode, mem, p, v)
    decreases t, 2
  {
    hide U32, Size, At, KidAt, Validate, ValidateElements, ValidateHandles, ValidateMap, DecodedElements, DecodedHandles, DecodedSlot,
      Rewritten, Lies, StorageSize, HandlesAt;
    var bytes, base, a := msg.bytes, msg.base, msg.base + p;
    AcceptedHeader(bytes, base, t, a, c);
    AtMeans(Encoded(h), bytes, p, v);
    SizeIsBlock(v);
    var n, c1, d := U32(bytes, p + 4), Claiming(bytes, base, t, a, c), Validate(bytes, base, t, a, c).checker;
    var area := ObjectArea(own, c, d);
    RewrittenHolds(msg, mem, items, Decoded(bytes, base, t, a), area);
    AtMeans(mode, mem, p, v);
    match t
    case HandleArray(nullable, _) =>
      var trace, part := DecodedHandles(bytes, base, a, n, 0), HandlesArea(a, 0, n, c1, d);
      SpreadHandles(bytes, base, nullable, a, n, 0, c1);
      TakesHandles(bytes, base, nullable, a, n, 0, c1);
      LiesIn(trace, part);
      HeaderArrives(msg, mem, items, trace, area, part, p, v);
      HandlesArrive(mode, msg, mem, items, p, v.handles, h, area);
    case RefArray(_, _, _) =>
      var trace, part := DecodedElements(bytes, base, t, a, n, 0), SlotsArea(a, 0, n, c1, d);
      ElementsLie(bytes, base, t, a, n, 0, c1);
      HeaderArrives(msg, mem, items, trace, area, part, p, v);
      Narrow(msg, mem, items, trace, area, part);
      ElementsArrive(mode, msg, mem, items, t, p, v, 0, h, c1);
    case MapOf(key, value) =>
      var part := SlotsArea(a, 0, 2, c1, d);
      var trace := DecodedSlot(bytes, base, key, a + 8).Then(DecodedSlot(bytes, base, value, a + 16));
      SpreadMap(bytes, base, t, a, c1);
      TakesMap(bytes, base, t, a, c1);
      LiesIn(trace, part);
      HeaderArrives(msg, mem, items, trace, area, part, p, v);
      Narrow(msg, mem, items, trace, area, part);
      MapArrives(mode, msg, mem, items, t, p, v, h, c1);
    case _ =>
      LeafArrives(mode, msg, mem, items, area, p, v, h);
  }

  // ---- The handle vector ----

  ghost predicate Exhausts(trace: Trace, hb: nat, he: nat) {
    forall x: nat | hb <= x < he :: x in trace.indices
  }

  lemma TakesThen(x: Trace, y: Trace, hb: nat, mid: nat, he: nat)
    requires Exhausts(x, hb, mid) && Exhausts(y, mid, he)
    ensures Exhausts(x.Then(y), hb, he)
  {
  }

  /** Decoding takes every handle of an encoded value. */
  lemma {:induction false} TakesAll(bytes: seq<byte>, base: nat, t: Type, p: nat, v: Val, h: nat)
    requires base > 0 && HasType(t, v) && At(Encoded(h), bytes, p, v) && h + |HandlesOf(v)| < 0x8000_0000
    ensures Exhausts(Decoded(bytes, base, t, base + p), h, h + |HandlesOf(v)|)
    decreases t, 2
  {
    hide U32, Size, At, KidAt, DecodedElements, DecodedHandles, DecodedSlot, HandlesAt, Exhausts;
    AtMeans(Encoded(h), bytes, p, v);
    SizeIsBlock(v);
    match t
    case HandleArray(_, _) =>
      TakesValid(bytes, base, p, v.handles, 0, h);
    case RefArray(_, _, _) =>
      TakesKids(bytes, base, t, p, v, 0, h);
    case MapOf(key, value) =>
      KidsHandles(v.kids, 0);
      KidsHandles(v.kids, 1);
      TakesKid(bytes, base, key, p, v, 0, h);
      TakesKid(bytes, base, value, p, v, 1, h);
      TakesThen(DecodedSlot(bytes, base, key, base + p + 8), DecodedSlot(bytes, base, value, base + p + 16),
                h, h + |HandlesBefore(v.kids, 1)|, h + |HandlesBefore(v.kids, 2)|);
    case _ =>
      TakesNone(Decoded(bytes, base, t, base + p), h);
  }

  lemma TakesNone(trace: Trace, h: nat)
    ensures Exhausts(trace, h, h)
  {
  }

  lemma {:induction false} TakesValid(bytes: seq<byte>, base: nat, p: nat, handles: seq<nat>, i: nat, h: nat)
    requires i <= |handles| && p + 8 + 4 * |handles| <= |bytes| && HandlesAt(Encoded(h), bytes, p, handles)
    requires h + |Valid(handles)| < 0x8000_0000
    ensures Exhausts(DecodedHandles(bytes, base, base + p, |handles|, i), h + |Valid(handles[..i])|, h + |Valid(handles)|)
    decreases |handles| - i
  {
    hide U32, Valid;
    var n := |handles|;
    if i == n {
      assert handles[..i] == handles;
    } else {
      ValidNext(handles, i);
      ValidPrefix(handles, i + 1);
      TakesValid(bytes, base, p, handles, i + 1, h);
      assert U32(bytes, p + 8 + 4 * i) == HandleCode(Encoded(h), handles, i);
      TakesThen(DecodedHandle(bytes, base, base + p + 8 + 4 * i), DecodedHandles(bytes, base, base + p, n, i + 1),
                h + |Valid(handles[..i])|, h + |Valid(handles[..i + 1])|, h + |Valid(handles)|);
    }
  }

  lemma {:induction false} TakesKid(bytes: seq<byte>, base: nat, t: Type, p: nat, v: Val, i: nat, h: nat)
    requires base > 0 && v.Node? && i < |v.kids| && p + Size(v) <= |bytes| && h + |HandlesOf(v)| < 0x8000_0000
    requires KidAt(Encoded(h), bytes, p, v, v.kids, i) && (v.kids[i].Some? ==> HasType(t, v.kids[i].value))
    ensures p + 8 + 8 * i + 8 <= |bytes|
    ensures Exhausts(DecodedSlot(bytes, base, t, base + p + 8 + 8 * i), h + |HandlesBefore(v.kids, i)|, h + |HandlesBefore(v.kids, i + 1)|)
    decreases t, 3
  {
    hide U64, Size, At, KidAt, Decoded, HasType, Exhausts;
    var s, hb := base + p + 8 + 8 * i, h + |HandlesBefore(v.kids, i)|;
    KidInside(p, v, i);
    KidMeans(Encoded(h), bytes, p, v, i);
    KidsHandles(v.kids, i);
    if v.kids[i].None? {
      TakesNone(DecodedSlot(bytes, base, t, s), hb);
    } else {
      NonzeroSize(v.kids[i].value);
      var q := KidPos(p, v, i);
      assert Target(bytes, base, s) == base + q;
      TakesAll(bytes, base, t, q, v.kids[i].value, hb);
      TakesNone(Trace([PointerAt(s)], []), hb);
      TakesThen(Trace([PointerAt(s)], []), Decoded(bytes, base, t, base + q), hb, hb, hb + |HandlesIn(v.kids[i])|);
    }
  }

  lemma {:induction false} TakesKids(bytes: seq<byte>, base: nat, t: Type, p: nat, v: Val, i: nat, h: nat)
    requires base > 0 && t.RefArray? && HasType(t, v) && i <= |v.kids| && p + Size(v) <= |bytes| && h + |HandlesOf(v)| < 0x8000_0000
    requires forall j | 0 <= j < |v.kids| :: KidAt(Encoded(h), bytes, p, v, v.kids, j)
    requires InMemory(bytes, base, base + p, 8 + 8 * |v.kids|)
    ensures Exhausts(DecodedElements(bytes, base, t, base + p, |v.kids|, i), h + |HandlesBefore(v.kids, i)|, h + |HandlesOf(v)|)
    decreases t, 1, |v.kids| - i
  {
    hide Size, KidAt, DecodedSlot, Exhausts;
    var n := |v.kids|;
    if i == n {
      TakesNone(DecodedElements(bytes, base, t, base + p, n, n), h + |HandlesOf(v)|);
    } else {
      TakesKid(bytes, base, t.elem, p, v, i, h);
      TakesKids(bytes, base, t, p, v, i + 1, h);
      TakesThen(DecodedSlot(bytes, base, t.elem, base + p + 8 + 8 * i), DecodedElements(bytes, base, t, base + p, n, i + 1),
                h + |HandlesBefore(v.kids, i)|, h + |HandlesBefore(v.kids, i + 1)|, h + |HandlesOf(v)|);
    }
  }

  // ---- The value ----

  /** An encoded message stands for the value that was encoded. */
  lemma {:induction false} ReadsBack(msg: Message, t: Type, p: nat, v: Val, h: nat)
    requires msg.base > 0 && HasType(t, v) && At(Encoded(h), msg.bytes, p, v) && Carries(msg.items, h, HandlesOf(v))
    ensures Read(msg, t, msg.base + p) == v
    decreases t, 2
  {
    hide U32, Size, At, KidAt, ReadElements, ReadHandles, ReadBits, ReadSlot, HandlesAt, Carries, BitsAt;
    var base := msg.base;
    AtMeans(Encoded(h), msg.bytes, p, v);
    SizeIsBlock(v);
    match t
    case PodArray(_, _) =>
      DataAt(Encoded(h), msg.bytes, p, v);
    case BoolArray(_) =>
      DataAt(Encoded(h), msg.bytes, p, v);
      BitsBack(msg.bytes, p, v.bits);
    case HandleArray(_, _) =>
      HandlesBack(msg, p, v.handles, h);
    case RefArray(_, _, _) =>
      KidsBack(msg, t, p, v, 0, h);
      assert v.kids[0..] == v.kids;
    case MapOf(key, value) =>
      KidBack(msg, key, p, v, 0, h);
      KidBack(msg, value, p, v, 1, h);
      assert v.kids == [v.kids[0], v.kids[1]];
  }

  lemma DataAt(mode: Mode, mem: seq<byte>, p: nat, v: Val)
    requires At(mode, mem, p, v)
    ensures v.Pods? ==> p + 8 + |v.data| <= |mem| && |v.data| == Times(v.size, v.count) && mem[p + 8..p + 8 + |v.data|] == v.data
    ensures v.Bits? ==> p + 8 + (|v.bits| + 7) / 8 <= |mem| && BitsAt(mem, p, v.bits)
  {
  }

  lemma BitsBack(bytes: seq<byte>, p: nat, bits: seq<bool>)
    requires p + 8 + (|bits| + 7) / 8 <= |bytes| && BitsAt(bytes, p, bits)
    ensures ReadBits(bytes, p, |bits|) == bits
  {
  }

  lemma HandlesBack(msg: Message, p: nat, handles: seq<nat>, h: nat)
    requires p + 8 + 4 * |handles| <= |msg.bytes| && HandlesAt(Encoded(h), msg.bytes, p, handles) && Carries(msg.items, h, Valid(handles))
    ensures ReadHandles(msg, msg.base + p, |handles|) == handles
  {
    hide U32, Valid, ReadHandles;
    var n := |handles|;
    forall i | 0 <= i < n ensures msg.Handle(msg.base + p + 8 + 4 * i) == handles[i] {
      assert U32(msg.bytes, p + 8 + 4 * i) == HandleCode(Encoded(h), handles, i);
      if handles[i] != 0 {
        ValidAt(handles, i);
        var k := |Valid(handles[..i])|;
        assert msg.items[h..h + |Valid(handles)|][k] == msg.items[h + k];
      }
    }
    HandlesRead(msg, msg.base + p, handles);
  }

  lemma HandlesRead(msg: Message, a: nat, handles: seq<nat>)
    requires InMemory(msg.bytes, msg.base, a, 8 + 4 * |handles|)
    requires forall i | 0 <= i < |handles| :: msg.Handle(a + 8 + 4 * i) == handles[i]
    ensures ReadHandles(msg, a, |handles|) == handles
  {
    hide U32;
  }

  lemma {:induction false} KidBack(msg: Message, t: Type, p: nat, v: Val, i: nat, h: nat)
    requires msg.base > 0 && v.Node? && i < |v.kids| && p + Size(v) <= |msg.bytes| && Carries(msg.items, h, HandlesOf(v))
    requires KidAt(Encoded(h), msg.bytes, p, v, v.kids, i) && (v.kids[i].Some? ==> HasType(t, v.kids[i].value))
    ensures p + 8 + 8 * i + 8 <= |msg.bytes| && ReadSlot(msg, t, msg.base + p + 8 + 8 * i) == v.kids[i]
    decreases t, 3
  {
    hide U64, Size, At, KidAt, Read, HasType, Carries;
    KidInside(p, v, i);
    KidMeans(Encoded(h), msg.bytes, p, v, i);
    if v.kids[i].Some? {
      KidsHandles(v.kids, i);
      NonzeroSize(v.kids[i].value);
      CarriesPart(msg.items, h, HandlesOf(v), HandlesBefore(v.kids, i), HandlesIn(v.kids[i]));
      assert Target(msg.bytes, msg.base, msg.base + p + 8 + 8 * i) == msg.base + KidPos(p, v, i);
      ReadsBack(msg, t, KidPos(p, v, i), v.kids[i].value, h + |HandlesBefore(v.kids, i)|);
    }
  }

  lemma {:induction false} KidsBack(msg: Message, t: Type, p: nat, v: Val, i: nat, h: nat)
    requires msg.base > 0 && t.RefArray? && HasType(t, v) && i <= |v.kids| && p + Size(v) <= |msg.bytes|
    requires (forall j | 0 <= j < |v.kids| :: KidAt(Encoded(h), msg.bytes, p, v, v.kids, j)) && Carries(msg.items, h, HandlesOf(v))
    requires InMemory(msg.bytes, msg.base, msg.base + p, 8 + 8 * |v.kids|)
    ensures ReadElements(msg, t, msg.base + p, |v.kids|, i) == v.kids[i..]
    decreases t, 1, |v.kids| - i
  {
    hide Size, KidAt, ReadSlot, Carries;
    if i < |v.kids| {
      KidBack(msg, t.elem, p, v, i, h);
      KidsBack(msg, t, p, v, i + 1, h);
    }
  }

  // ---- The memory that is left ----

  /** A message without its handles. */
  function Blank(msg: Message): Message { msg.(items := seq(|msg.items|, _ => 0)) }

  /** Decoded memory whose handle words were emptied is what decoding leaves of a
      message that came without handles. */
  lemma EmptiedIsBlank(msg: Message, m0: seq<byte>, m1: seq<byte>, items: seq<nat>, trace: Trace, area: Area)
    requires Rewritten(msg, m0, items, trace, area) && Apart(trace.pieces) && Lies(trace, area)
    requires Emptied(msg.base, m0, m1, trace.pieces)
    ensures Rewritten(Blank(msg), m1, Blank(msg).items, trace, area)
  {
    hide PieceDone, Covered, Lies;
    var xs, none := trace.pieces, Blank(msg);
    forall i | 0 <= i < |xs| ensures PieceDone(none, m1, xs[i]) {
      PieceEmptied(msg, m0, m1, xs, i);
    }
    forall w | area.Has(w) && !Covered(xs, w) ensures ByteAt(m1, msg.base, w) == ByteAt(msg.bytes, msg.base, w) {
      HandleCovered(xs, w);
      var k := w - msg.base;
      assert m1[k] == m0[k];
    }
  }

  lemma HandleCovered(xs: seq<Piece>, x: int)
    ensures InHandle(xs, x) ==> Covered(xs, x)
  {
  }

  lemma PieceEmptied(msg: Message, m0: seq<byte>, m1: seq<byte>, xs: seq<Piece>, i: nat)
    requires i < |xs| && PieceDone(msg, m0, xs[i]) && Apart(xs) && Emptied(msg.base, m0, m1, xs)
    ensures PieceDone(Blank(msg), m1, xs[i])
  {
    hide U32, U64;
    var x, p := xs[i], xs[i].at - msg.base;
    if x.PointerAt? {
      forall k | p <= k < p + 8 ensures m1[k] == m0[k] {
        assert !InHandle(xs, msg.base + k);
      }
      U64Same(m0, m1, p);
    } else {
      forall k | p <= k < p + 4 ensures m1[k] == 0 {
        assert xs[i].HandleAt? && xs[i].at <= msg.base + k < xs[i].End();
        assert InHandle(xs, msg.base + k);
      }
      ZeroWord(m1, p);
    }
  }

  lemma ZeroWord(mem: seq<byte>, p: nat)
    requires p + 4 <= |mem| && forall k | p <= k < p + 4 :: mem[k] == 0
    ensures U32(mem, p) == 0
  {
    FourBytes(mem[p..p + 4]);
  }
}
