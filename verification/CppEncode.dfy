/**
  Rewriting a message in place: absolute pointers become offsets and handles
  become indices into a vector, and back.
*/
module CppEncode {
  import opened Wire
  import opened CppValues
  import opened CppImage

  /** Outside [a, b) nothing has changed. */
  ghost predicate Only(mem: seq<byte>, other: seq<byte>, a: nat, b: nat) {
    |other| == |mem| && forall x | 0 <= x < |mem| && !(a <= x < b) :: other[x] == mem[x]
  }

  // ---- Writing integers ----

  method PutBytes(mem: array<byte>, a: nat, bytes: seq<byte>)
    requires a + |bytes| <= mem.Length
    modifies mem
    ensures mem[a..a + |bytes|] == bytes
    ensures Only(old(mem[..]), mem[..], a, a + |bytes|)
  {
    var i := 0;
    while i < |bytes|
      invariant 0 <= i <= |bytes|
      invariant forall x | 0 <= x < i :: mem[a + x] == bytes[x]
      invariant forall x | 0 <= x < mem.Length && !(a <= x < a + i) :: mem[x] == old(mem[x])
    {
      mem[a + i] := bytes[i];
      i := i + 1;
    }
  }

  method PutU32(mem: array<byte>, a: nat, x: nat)
    requires a + 4 <= mem.Length && x < 0x1_0000_0000
    modifies mem
    ensures U32(mem[..], a) == x
    ensures Only(old(mem[..]), mem[..], a, a + 4)
  {
    PutBytes(mem, a, LittleEndian(x, 4));
    Powers();
    LittleEndianRoundTrip(x, 4);
    assert mem[..][a..a + 4] == mem[a..a + 4];
  }

  method PutU64(mem: array<byte>, a: nat, x: nat)
    requires a + 8 <= mem.Length && x < 0x1_0000_0000_0000_0000
    modifies mem
    ensures U64(mem[..], a) == x
    ensures Only(old(mem[..]), mem[..], a, a + 8)
  {
    PutBytes(mem, a, LittleEndian(x, 8));
    Powers();
    LittleEndianRoundTrip(x, 8);
    assert mem[..][a..a + 8] == mem[a..a + 8];
  }

  // ---- One pointer after the other ----

  ghost predicate HeaderAt(mem: seq<byte>, p: nat, v: Val) {
    p + Size(v) <= |mem| && p % 8 == 0 && U32(mem, p) == 8 + Storage(v) && U32(mem, p + 4) == Count(v)
  }

  /** The first `i` pointers of an object are in one form, the rest in another. */
  ghost predicate Partly(done: Mode, todo: Mode, mem: seq<byte>, p: nat, v: Val, i: nat)
    requires v.Node? && i <= |v.kids|
  {
    && HeaderAt(mem, p, v)
    && (forall j | 0 <= j < i :: KidAt(done, mem, p, v, v.kids, j))
    && (forall j | i <= j < |v.kids| :: KidAt(todo, mem, p, v, v.kids, j))
  }

  /** Two pointers of an object have nothing in common. */
  lemma KidsApart(p: nat, v: Val, i: nat, j: nat)
    requires v.Node? && i < j < |v.kids|
    ensures Slot(p, i) + 8 <= Slot(p, j)
    ensures KidPos(p, v, i) + SizeOf(v.kids[i]) <= KidPos(p, v, j)
  {
    BeforeOrder(v.kids, i, j);
  }

  /** Only slot `i` and the object behind it have changed. */
  ghost predicate OnlyKid(mem: seq<byte>, other: seq<byte>, p: nat, v: Val, i: nat)
    requires v.Node? && i < |v.kids|
  {
    && |other| == |mem|
    && forall x | 0 <= x < |mem| && !(Slot(p, i) <= x < Slot(p, i) + 8)
                  && !(KidPos(p, v, i) <= x < KidPos(p, v, i) + SizeOf(v.kids[i])) :: other[x] == mem[x]
  }

  lemma OtherKid(mode: Mode, mem: seq<byte>, other: seq<byte>, p: nat, v: Val, i: nat, j: nat)
    requires v.Node? && i < |v.kids| && j < |v.kids| && i != j && p + Size(v) <= |mem|
    requires KidAt(mode, mem, p, v, v.kids, j) && OnlyKid(mem, other, p, v, i)
    ensures KidAt(mode, other, p, v, v.kids, j)
  {
    hide KidAt, Size, Block, Before;
    KidInside(p, v, i);
    KidInside(p, v, j);
    if i < j {
      KidsApart(p, v, i, j);
    } else {
      KidsApart(p, v, j, i);
    }
    KidSame(mode, mem, other, p, v, v.kids, j);
  }

  lemma SlotDone(done: Mode, todo: Mode, mem: seq<byte>, other: seq<byte>, p: nat, v: Val, i: nat)
    requires v.Node? && i < |v.kids| && Partly(done, todo, mem, p, v, i)
    requires OnlyKid(mem, other, p, v, i) && KidAt(done, other, p, v, v.kids, i)
    ensures Partly(done, todo, other, p, v, i + 1)
  {
    hide KidAt, U32, Size, Block, Before;
    KidInside(p, v, i);
    U32Same(mem, other, p);
    U32Same(mem, other, p + 4);
    forall j | 0 <= j < i ensures KidAt(done, other, p, v, v.kids, j) {
      OtherKid(done, mem, other, p, v, i, j);
    }
    forall j | i < j < |v.kids| ensures KidAt(todo, other, p, v, v.kids, j) {
      OtherKid(todo, mem, other, p, v, i, j);
    }
  }

  // ---- Handles ----

  class HandleVector {
    var items: seq<nat>

    constructor (items: seq<nat>)
      ensures this.items == items
    {
      this.items := items;
    }
  }

  /** The handle moves to the end of the vector, its index takes its place. */
  method EncodeHandle(mem: array<byte>, a: nat, vector: HandleVector)
    requires a + 4 <= mem.Length && |vector.items| < 0x8000_0000
    modifies mem, vector
    ensures Only(old(mem[..]), mem[..], a, a + 4)
    ensures old(U32(mem[..], a)) == 0 ==> U32(mem[..], a) == INVALID_INDEX && vector.items == old(vector.items)
    ensures old(U32(mem[..], a)) != 0 ==>
      U32(mem[..], a) == old(|vector.items|) && vector.items == old(vector.items) + [old(U32(mem[..], a))]
  {
    var value := U32(mem[..], a);
    if value != 0 {
      vector.items := vector.items + [value];
      PutU32(mem, a, |vector.items| - 1);
    } else {
      PutU32(mem, a, INVALID_INDEX);
    }
  }

  /** The handle moves out of the vector, which keeps a hole in its place. */
  method DecodeHandle(mem: array<byte>, a: nat, vector: HandleVector)
    requires a + 4 <= mem.Length
    requires U32(mem[..], a) == INVALID_INDEX || U32(mem[..], a) < |vector.items|
    requires forall h | h in vector.items :: h < 0x1_0000_0000
    modifies mem, vector
    ensures Only(old(mem[..]), mem[..], a, a + 4)
    ensures old(U32(mem[..], a)) == INVALID_INDEX ==> U32(mem[..], a) == 0 && vector.items == old(vector.items)
    ensures old(U32(mem[..], a)) != INVALID_INDEX ==>
      && U32(mem[..], a) == old(vector.items[U32(mem[..], a)])
      && vector.items == old(vector.items[U32(mem[..], a) := 0])
  {
    var value := U32(mem[..], a);
    if value == INVALID_INDEX {
      PutU32(mem, a, 0);
    } else {
      var handle := vector.items[value];
      assert handle in vector.items;
      vector.items := vector.items[value := 0];
      PutU32(mem, a, handle);
    }
  }

  /** The first `i` handles are in one form, the rest in another. */
  ghost predicate HandlesPartly(done: Mode, todo: Mode, mem: seq<byte>, p: nat, handles: seq<nat>, i: nat)
    requires i <= |handles|
  {
    && p + 8 + 4 * |handles| <= |mem|
    && (forall j | 0 <= j < i :: U32(mem, p + 8 + 4 * j) == HandleCode(done, handles, j))
    && (forall j | i <= j < |handles| :: U32(mem, p + 8 + 4 * j) == HandleCode(todo, handles, j))
  }

  lemma HandleDone(done: Mode, todo: Mode, mem: seq<byte>, other: seq<byte>, p: nat, handles: seq<nat>, i: nat)
    requires i < |handles| && HandlesPartly(done, todo, mem, p, handles, i)
    requires Only(mem, other, p + 8 + 4 * i, p + 8 + 4 * i + 4)
    requires U32(other, p + 8 + 4 * i) == HandleCode(done, handles, i)
    ensures HandlesPartly(done, todo, other, p, handles, i + 1)
  {
    hide U32, HandleCode;
    forall j | 0 <= j < |handles| && j != i ensures U32(other, p + 8 + 4 * j) == U32(mem, p + 8 + 4 * j) {
      U32Same(mem, other, p + 8 + 4 * j);
    }
  }

  lemma ValidNext(handles: seq<nat>, i: nat)
    requires i < |handles|
    ensures Valid(handles[..i + 1]) == Valid(handles[..i]) + if handles[i] == 0 then [] else [handles[i]]
  {
    assert handles[..i + 1][..i] == handles[..i];
  }

  method EncodeHandles(mem: array<byte>, ghost base: nat, p: nat, n: nat, vector: HandleVector, ghost handles: seq<nat>)
    requires n == |handles| && p + 8 + 4 * n <= mem.Length && HandlesAt(Raw(base), mem[..], p, handles)
    requires |vector.items| + |Valid(handles)| < 0x8000_0000
    modifies mem, vector
    ensures Only(old(mem[..]), mem[..], p + 8, p + 8 + 4 * n)
    ensures HandlesAt(Encoded(old(|vector.items|)), mem[..], p, handles)
    ensures vector.items == old(vector.items) + Valid(handles)
  {
    hide U32;
    ghost var done, todo := Encoded(|vector.items|), Raw(base);
    var i := 0;
    while i < n
      invariant 0 <= i <= n && HandlesPartly(done, todo, mem[..], p, handles, i)
      invariant Only(old(mem[..]), mem[..], p + 8, p + 8 + 4 * n)
      invariant vector.items == old(vector.items) + Valid(handles[..i])
    {
      ghost var before := mem[..];
      assert U32(before, p + 8 + 4 * i) == HandleCode(todo, handles, i);
      ValidNext(handles, i);
      ValidPrefix(handles, i + 1);
      EncodeHandle(mem, p + 8 + 4 * i, vector);
      HandleDone(done, todo, before, mem[..], p, handles, i);
      i := i + 1;
    }
    assert handles[..n] == handles;
  }

  lemma {:induction false} ValidPrefix(handles: seq<nat>, i: nat)
    requires i <= |handles|
    ensures Valid(handles[..i]) <= Valid(handles)
    decreases |handles|
  {
    if i == |handles| {
      assert handles[..i] == handles;
    } else {
      var l := |handles| - 1;
      ValidPrefix(handles[..l], i);
      assert handles[..l][..i] == handles[..i];
    }
  }

  // ---- Objects ----

  /** Addresses fit the pointer slots. */
  ghost predicate Placed(mem: array<byte>, base: nat) {
    0 < base && base % 8 == 0 && base + mem.Length < 0x1_0000_0000_0000_0000
  }

  /** Encodes the object behind one pointer, then the pointer itself. */
  method EncodeSlot(mem: array<byte>, base: nat, t: Type, p: nat, i: nat, vector: HandleVector, ghost v: Val, ghost first: seq<nat>)
    requires Placed(mem, base) && HasType(t, v) && v.Node? && i < |v.kids|
    requires |first| + |HandlesOf(v)| < 0x8000_0000
    requires Partly(Encoded(|first|), Raw(base), mem[..], p, v, i)
    requires vector.items == first + HandlesBefore(v.kids, i)
    modifies mem, vector
    ensures Partly(Encoded(|first|), Raw(base), mem[..], p, v, i + 1)
    ensures vector.items == first + HandlesBefore(v.kids, i + 1)
    ensures Only(old(mem[..]), mem[..], p, p + Size(v))
    decreases t, 0
  {
    hide U32, U64, Size, At, KidAt, KidPos;
    ghost var before := mem[..];
    KidInside(p, v, i);
    KidsHandles(v.kids, i);
    KidMeans(Raw(base), mem[..], p, v, i);
    var a := p + 8 + 8 * i;
    var ptr := U64(mem[..], a);
    if ptr != 0 {
      KidHasType(t, v, i);
      EncodeObject(mem, base, KidType(t, i), ptr - base, vector, v.kids[i].value);
      ghost var mid := mem[..];
      PutU64(mem, a, ptr - (base + a));
      AtSame(Encoded(|first + HandlesBefore(v.kids, i)|), mid, mem[..], ptr - base, v.kids[i].value);
    } else {
      PutU64(mem, a, 0);
    }
    KidMeans(Encoded(|first|), mem[..], p, v, i);
    SlotDone(Encoded(|first|), Raw(base), before, mem[..], p, v, i);
  }

  lemma {:induction false} HandlesBeforePrefix(kids: seq<Option<Val>>, i: nat, j: nat)
    requires i <= j <= |kids|
    ensures HandlesBefore(kids, i) <= HandlesBefore(kids, j)
    decreases j
  {
    if i < j {
      HandlesBeforePrefix(kids, i, j - 1);
    }
  }

  lemma KidsHandles(kids: seq<Option<Val>>, i: nat)
    requires i < |kids|
    ensures HandlesBefore(kids, i + 1) == HandlesBefore(kids, i) + HandlesIn(kids[i])
    ensures HandlesBefore(kids, i + 1) <= HandlesBefore(kids, |kids|)
  {
    HandlesBeforePrefix(kids, i + 1, |kids|);
  }

  lemma HeaderSame(mem: seq<byte>, other: seq<byte>, p: nat, v: Val)
    requires HeaderAt(mem, p, v) && Only(mem, other, p + 8, p + Block(v))
    ensures HeaderAt(other, p, v)
  {
    U32Same(mem, other, p);
    U32Same(mem, other, p + 4);
  }

  method EncodeObject(mem: array<byte>, base: nat, t: Type, p: nat, vector: HandleVector, ghost v: Val)
    requires Placed(mem, base) && HasType(t, v) && At(Raw(base), mem[..], p, v)
    requires |vector.items| + |HandlesOf(v)| < 0x8000_0000
    modifies mem, vector
    ensures At(Encoded(old(|vector.items|)), mem[..], p, v)
    ensures vector.items == old(vector.items) + HandlesOf(v)
    ensures Only(old(mem[..]), mem[..], p, p + Size(v))
    decreases t, 1
  {
    ghost var first := vector.items;
    match t {
      case PodArray(_, _) =>
      case BoolArray(_) =>
      case HandleArray(_, _) =>
        var n := U32(mem[..], p + 4);
        EncodeHandles(mem, base, p, n, vector, v.handles);
        HeaderSame(old(mem[..]), mem[..], p, v);
      case RefArray(_, _, _) =>
        var n, i := U32(mem[..], p + 4), 0;
        while i < n
          invariant 0 <= i <= n && Partly(Encoded(|first|), Raw(base), mem[..], p, v, i)
          invariant vector.items == first + HandlesBefore(v.kids, i)
          invariant Only(old(mem[..]), mem[..], p, p + Size(v))
        {
          EncodeSlot(mem, base, t, p, i, vector, v, first);
          i := i + 1;
        }
      case MapOf(_, _) =>
        EncodeSlot(mem, base, t, p, 0, vector, v, first);
        EncodeSlot(mem, base, t, p, 1, vector, v, first);
    }
  }
}
