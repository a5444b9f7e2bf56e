/**
  What it means that a value lies in memory: as the serializer leaves it, with
  absolute pointers and handles, or as it goes over the wire, with relative
  offsets and handle indices.
*/
module CppImage {
  import opened Wire
  import opened CppValues

  /** `Raw(base)` is memory whose first byte has address `base`; `Spent(base)` is
      the same after all handles have been taken out; `Encoded(next)` numbers the
      handles from `next`. */
  datatype Mode = Raw(base: nat) | Spent(base: nat) | Encoded(next: nat)
  {
    function Later(k: nat): Mode { if Encoded? then Encoded(next + k) else this }
  }

  const INVALID_INDEX := 0xFFFF_FFFF

  function U32(mem: seq<byte>, a: nat): nat
    requires a + 4 <= |mem|
  {
    Value(mem[a..a + 4])
  }

  function U64(mem: seq<byte>, a: nat): nat
    requires a + 8 <= |mem|
  {
    Value(mem[a..a + 8])
  }

  /** What the slot of handle `i` holds. */
  function HandleCode(mode: Mode, handles: seq<nat>, i: nat): nat
    requires i < |handles|
  {
    if mode.Raw? then handles[i]
    else if mode.Spent? then 0
    else if handles[i] == 0 then INVALID_INDEX
    else mode.next + |Valid(handles[..i])|
  }

  /** What the pointer slot at `a` holds for an object at `q`. */
  function PointerCode(mode: Mode, a: nat, q: nat): int {
    if mode.Encoded? then q - a else mode.base + q
  }

  function Slot(p: nat, i: nat): nat { p + 8 + 8 * i }

  /** Where the object behind slot `i` lies. */
  function KidPos(p: nat, v: Val, i: nat): nat
    requires v.Node? && i <= |v.kids|
  {
    p + Block(v) + Before(v.kids, i)
  }

  /** Value `v` lies at index `p`, followed by what it points to, in order. */
  ghost predicate At(mode: Mode, mem: seq<byte>, p: nat, v: Val)
    decreases v, 0
  {
    && p + Size(v) <= |mem| && p % 8 == 0
    && U32(mem, p) == 8 + Storage(v) && U32(mem, p + 4) == Count(v)
    && match v
       case Pods(size, count, data) => |data| == Times(size, count) && mem[p + 8..p + 8 + |data|] == data
       case Bits(bits) => BitsAt(mem, p, bits)
       case Handles(handles) => HandlesAt(mode, mem, p, handles)
       case Node(_, kids) => forall i | 0 <= i < |kids| :: KidAt(mode, mem, p, v, kids, i)
  }

  ghost predicate BitsAt(mem: seq<byte>, p: nat, bits: seq<bool>)
    requires p + 8 + (|bits| + 7) / 8 <= |mem|
  {
    forall i | 0 <= i < |bits| :: Bit(mem[p + 8 + i / 8], i % 8) == bits[i]
  }

  ghost predicate HandlesAt(mode: Mode, mem: seq<byte>, p: nat, handles: seq<nat>)
    requires p + 8 + 4 * |handles| <= |mem|
  {
    forall i | 0 <= i < |handles| :: U32(mem, p + 8 + 4 * i) == HandleCode(mode, handles, i)
  }

  ghost predicate KidAt(mode: Mode, mem: seq<byte>, p: nat, v: Val, kids: seq<Option<Val>>, i: nat)
    requires v.Node? && kids == v.kids && i < |kids| && p + Block(v) <= |mem|
    decreases kids, 1
  {
    if kids[i].None? then U64(mem, Slot(p, i)) == 0
    else
      var q := KidPos(p, v, i);
      && U64(mem, Slot(p, i)) == PointerCode(mode, Slot(p, i), q)
      && OptAt(mode.Later(|HandlesBefore(kids, i)|), mem, q, kids[i])
  }

  ghost predicate OptAt(mode: Mode, mem: seq<byte>, q: nat, o: Option<Val>)
    decreases o
  {
    o.Some? ==> At(mode, mem, q, o.value)
  }

  // ---- Framing ----

  /** The two memories agree on [a, b). */
  ghost predicate Same(mem: seq<byte>, other: seq<byte>, a: nat, b: nat) {
    |other| == |mem| && b <= |mem| && forall x | a <= x < b :: other[x] == mem[x]
  }

  lemma U32Same(mem: seq<byte>, other: seq<byte>, a: nat)
    requires a + 4 <= |mem| && Same(mem, other, a, a + 4)
    ensures U32(other, a) == U32(mem, a)
  {
    assert other[a..a + 4] == mem[a..a + 4];
  }

  lemma U64Same(mem: seq<byte>, other: seq<byte>, a: nat)
    requires a + 8 <= |mem| && Same(mem, other, a, a + 8)
    ensures U64(other, a) == U64(mem, a)
  {
    assert other[a..a + 8] == mem[a..a + 8];
  }

  /** An object behind a pointer lies within the object's bytes, behind its own
      block. */
  lemma KidInside(p: nat, v: Val, i: nat)
    requires v.Node? && i < |v.kids|
    ensures Slot(p, i) + 8 <= p + Block(v) <= KidPos(p, v, i)
    ensures KidPos(p, v, i) + SizeOf(v.kids[i]) <= p + Size(v)
  {
    BeforeOrder(v.kids, i, |v.kids|);
  }

  lemma SizeIsBlock(v: Val)
    ensures 8 + Storage(v) <= Block(v) <= Size(v)
  {
  }

  /** Only the bytes of the value matter. */
  lemma {:induction false} AtSame(mode: Mode, mem: seq<byte>, other: seq<byte>, p: nat, v: Val)
    requires At(mode, mem, p, v) && Same(mem, other, p, p + Size(v))
    ensures At(mode, other, p, v)
    decreases v, 0
  {
    SizeIsBlock(v);
    U32Same(mem, other, p);
    U32Same(mem, other, p + 4);
    match v
    case Pods(_, _, data) => assert other[p + 8..p + 8 + |data|] == mem[p + 8..p + 8 + |data|];
    case Bits(bits) =>
    case Handles(handles) =>
      forall i | 0 <= i < |handles| ensures U32(other, p + 8 + 4 * i) == HandleCode(mode, handles, i) {
        U32Same(mem, other, p + 8 + 4 * i);
      }
    case Node(_, kids) =>
      forall i | 0 <= i < |kids| ensures KidAt(mode, other, p, v, kids, i) {
        KidInside(p, v, i);
        KidSame(mode, mem, other, p, v, kids, i);
      }
  }

  /** Only its slot and its own bytes matter to one pointer. */
  lemma {:induction false} KidSame(mode: Mode, mem: seq<byte>, other: seq<byte>, p: nat, v: Val, kids: seq<Option<Val>>, i: nat)
    requires v.Node? && kids == v.kids && i < |kids| && p + Size(v) <= |mem|
    requires KidAt(mode, mem, p, v, kids, i)
    requires Same(mem, other, Slot(p, i), Slot(p, i) + 8)
    requires Same(mem, other, KidPos(p, v, i), KidPos(p, v, i) + SizeOf(kids[i]))
    ensures p + Block(v) <= |other| && KidAt(mode, other, p, v, kids, i)
    decreases kids, 1
  {
    KidInside(p, v, i);
    U64Same(mem, other, Slot(p, i));
    OptSame(mode.Later(|HandlesBefore(kids, i)|), mem, other, KidPos(p, v, i), kids[i]);
  }

  lemma {:induction false} OptSame(mode: Mode, mem: seq<byte>, other: seq<byte>, q: nat, o: Option<Val>)
    requires OptAt(mode, mem, q, o) && Same(mem, other, q, q + SizeOf(o))
    ensures OptAt(mode, other, q, o)
    decreases o
  {
    if o.Some? {
      AtSame(mode, mem, other, q, o.value);
    }
  }

  lemma KidMeans(mode: Mode, mem: seq<byte>, p: nat, v: Val, i: nat)
    requires v.Node? && i < |v.kids| && p + Block(v) <= |mem| && Slot(p, i) + 8 <= |mem|
    ensures KidAt(mode, mem, p, v, v.kids, i) <==>
      if v.kids[i].None? then U64(mem, Slot(p, i)) == 0
      else
        && U64(mem, Slot(p, i)) == PointerCode(mode, Slot(p, i), KidPos(p, v, i))
        && At(mode.Later(|HandlesBefore(v.kids, i)|), mem, KidPos(p, v, i), v.kids[i].value)
  {
  }

  lemma NonzeroSize(v: Val)
    ensures Size(v) > 0
  {
  }
}
