/**
  The validator: walks an encoded message from its root and claims the memory of
  every object and every handle index it meets, in increasing order.
*/
module CppValidate {
  import opened Wire
  import opened CppValues
  import opened CppImage

  const ADDRESSES := 0x1_0000_0000_0000_0000
  const MAX_UINT32 := 0xFFFF_FFFF

  /** A claimed range of addresses, and the object it was claimed for: its type
      and number of elements. */
  datatype Claim = Claim(begin: nat, end: nat, t: Type, count: nat)

  /** What is rewritten when a message is decoded: the slot of a pointer or the
      word of a handle, by its address. */
  datatype Piece = PointerAt(at: nat) | HandleAt(at: nat)
  {
    function Width(): nat { if PointerAt? then 8 else 4 }
    function End(): nat { at + Width() }
  }

  /** The bounds checker: the memory and the handle indices that are left, and
      what has been claimed and which slots and words have been visited so far. */
  datatype Checker = Checker(
    dataBegin: nat, dataEnd: nat, handleBegin: nat, handleEnd: nat,
    claims: seq<Claim>, visited: seq<Piece>, taken: seq<nat>
  )

  datatype Outcome = Outcome(err: ValidationError, checker: Checker)

  /** Pointer arithmetic wraps around. */
  function Add64(a: nat, b: nat): nat {
    if a + b < ADDRESSES then a + b else a + b - ADDRESSES
  }

  predicate IsValidRange(c: Checker, begin: nat, bytes: nat) {
    var end := Add64(begin, bytes);
    end > begin && begin >= c.dataBegin && end <= c.dataEnd
  }

  function ClaimMemory(c: Checker, begin: nat, bytes: nat, t: Type, count: nat): Checker {
    c.(dataBegin := Add64(begin, bytes), claims := c.claims + [Claim(begin, Add64(begin, bytes), t, count)])
  }

  predicate CanClaimHandle(c: Checker, value: nat) {
    value == INVALID_INDEX || (value < 0x8000_0000 && c.handleBegin <= value < c.handleEnd)
  }

  function Visit(c: Checker, piece: Piece): Checker {
    c.(visited := c.visited + [piece])
  }

  function ClaimHandle(c: Checker, value: nat): Checker {
    if value == INVALID_INDEX then c else c.(handleBegin := value + 1, taken := c.taken + [value])
  }

  /** What is left lies within the memory at address `base`. */
  predicate Inside(mem: seq<byte>, base: nat, c: Checker) {
    0 < base <= c.dataBegin <= c.dataEnd <= base + |mem| < ADDRESSES
  }

  /** (2^32 - 1 - 8) over the size of an element, rounded down. */
  function MaxElements(t: Type): nat {
    match t
    case PodArray(size, _) =>
      if size == 8 then 0x1FFF_FFFE else if size == 4 then 0x3FFF_FFFD else if size == 2 then 0x7FFF_FFFB else 0xFFFF_FFF7
    case HandleArray(_, _) => 0x3FFF_FFFD
    case RefArray(_, _, _) => 0x1FFF_FFFE
    case _ => MAX_UINT32
  }

  /** The bytes of an array; the rounding of a bool count is done in 32 bits. */
  function StorageSize(t: Type, n: nat): nat {
    match t
    case PodArray(size, _) => 8 + Times(size, n)
    case BoolArray(_) => 8 + (n + 7) % 0x1_0000_0000 / 8
    case HandleArray(_, _) => 8 + 4 * n
    case RefArray(_, _, _) => 8 + 8 * n
    case MapOf(_, _) => 24
  }

  /** The checker after a step: same limits, no more left than before, and the
      claims only grow. */
  ghost predicate Advances(mem: seq<byte>, base: nat, c: Checker, d: Checker) {
    && Inside(mem, base, d) && d.dataEnd == c.dataEnd && d.handleEnd == c.handleEnd
    && c.dataBegin <= d.dataBegin && c.handleBegin <= d.handleBegin && (c.handleBegin <= c.handleEnd ==> d.handleBegin <= d.handleEnd)
    && c.claims <= d.claims && c.visited <= d.visited && c.taken <= d.taken
  }

  lemma U32Bound(mem: seq<byte>, a: nat)
    requires a + 4 <= |mem|
    ensures U32(mem, a) <= MAX_UINT32
  {
    ValueBound(mem[a..a + 4]);
    Powers();
  }

  /** Validation of the object at address `a`, 0 for null. */
  function Validate(mem: seq<byte>, base: nat, t: Type, a: nat, c: Checker): (o: Outcome)
    requires Inside(mem, base, c)
    ensures Advances(mem, base, c, o.checker)
    ensures o.err == NoError && a != 0 ==> base <= a && a + 8 <= base + |mem|
    decreases t, 2, 0
  {
    if a == 0 then Outcome(NoError, c)
    else if a % 8 != 0 then Outcome(MisalignedObject, c)
    else if !IsValidRange(c, a, 8) then Outcome(IllegalMemoryRange, c)
    else
      var bytes, second := U32(mem, a - base), U32(mem, a - base + 4);
      U32Bound(mem, a - base);
      if t.MapOf? then
        if bytes < 8 then Outcome(UnexpectedStructHeader, c)
        else if !IsValidRange(c, a, bytes) then Outcome(IllegalMemoryRange, c)
        else ValidateMap(mem, base, t, a, bytes, second, ClaimMemory(c, a, bytes, t, 2))
      else if second > MaxElements(t) || bytes < StorageSize(t, second) then Outcome(UnexpectedArrayHeader, c)
      else if t.expected != 0 && second != t.expected then Outcome(UnexpectedArrayHeader, c)
      else if !IsValidRange(c, a, bytes) then Outcome(IllegalMemoryRange, c)
      else if t.HandleArray? then
        ValidateHandles(mem, base, t.nullable, a, second, 0, ClaimMemory(c, a, bytes, t, second))
      else if t.RefArray? then
        ValidateElements(mem, base, t, a, second, 0, ClaimMemory(c, a, bytes, t, second))
      else Outcome(NoError, ClaimMemory(c, a, bytes, t, second))
  }

  function ValidateMap(mem: seq<byte>, base: nat, t: Type, a: nat, bytes: nat, version: nat, c: Checker): (o: Outcome)
    requires Inside(mem, base, c) && t.MapOf? && base <= a && a + bytes <= base + |mem|
    ensures Advances(mem, base, c, o.checker)
    decreases t, 1, 0
  {
    if bytes != 24 || version != 0 then Outcome(UnexpectedStructHeader, c)
    else
      var keys := ValidateSlot(mem, base, t.key, false, a + 8, c);
      if keys.err != NoError then keys
      else
        var values := ValidateSlot(mem, base, t.value, false, a + 16, keys.checker);
        if values.err != NoError then values
        else if U32(mem, Target(mem, base, a + 8) - base + 4) != U32(mem, Target(mem, base, a + 16) - base + 4)
          then Outcome(DifferentSizedArraysInMap, values.checker)
        else values
  }

  /** The address that the slot at address `s` points to. */
  function Target(mem: seq<byte>, base: nat, s: nat): nat
    requires base <= s && s + 8 <= base + |mem|
  {
    var offset := U64(mem, s - base);
    if offset == 0 then 0 else s + offset
  }

  function ValidateSlot(mem: seq<byte>, base: nat, t: Type, nullable: bool, s: nat, c: Checker): (o: Outcome)
    requires Inside(mem, base, c) && base <= s && s + 8 <= base + |mem|
    ensures Advances(mem, base, c, o.checker)
    ensures o.err == NoError && !nullable ==> base <= Target(mem, base, s) && Target(mem, base, s) + 8 <= base + |mem|
    decreases t, 3, 0
  {
    var offset, d := U64(mem, s - base), Visit(c, PointerAt(s));
    if !nullable && offset == 0 then Outcome(UnexpectedNullPointer, d)
    else if offset > MAX_UINT32 || Add64(s, offset) < s then Outcome(IllegalPointer, d)
    else Validate(mem, base, t, Target(mem, base, s), d)
  }

  function ValidateElements(mem: seq<byte>, base: nat, t: Type, a: nat, n: nat, i: nat, c: Checker): (o: Outcome)
    requires Inside(mem, base, c) && t.RefArray? && i <= n && base <= a && a + 8 + 8 * n <= base + |mem|
    ensures Advances(mem, base, c, o.checker)
    decreases t, 1, n - i
  {
    if i == n then Outcome(NoError, c)
    else
      var o := ValidateSlot(mem, base, t.elem, t.nullable, a + 8 + 8 * i, c);
      if o.err != NoError then o else ValidateElements(mem, base, t, a, n, i + 1, o.checker)
  }

  function ValidateHandles(mem: seq<byte>, base: nat, nullable: bool, a: nat, n: nat, i: nat, c: Checker): (o: Outcome)
    requires Inside(mem, base, c) && i <= n && base <= a && a + 8 + 4 * n <= base + |mem|
    ensures Advances(mem, base, c, o.checker)
    decreases n - i
  {
    if i == n then Outcome(NoError, c)
    else
      var value, d := U32(mem, a - base + 8 + 4 * i), Visit(c, HandleAt(a + 8 + 4 * i));
      if !nullable && value == INVALID_INDEX then Outcome(UnexpectedInvalidHandle, d)
      else if !CanClaimHandle(d, value) then Outcome(IllegalHandle, d)
      else ValidateHandles(mem, base, nullable, a, n, i + 1, ClaimHandle(d, value))
  }
}
