/**
  What an accepted message stands for: the value that it holds, read off its bytes
  and its handles. It has the type that it was validated for, and serialization
  would not refuse it.
*/
module CppRead {
  import opened Wire
  import opened CppValues
  import opened CppImage
  import opened CppValidate
  import opened CppSound
  import opened CppVisit
  import opened CppRewrite

  const EMPTY := Bits([])

  /** The object at address `a`. */
  ghost function Read(msg: Message, t: Type, a: nat): Val
    decreases t, 2, 0
  {
    if !InMemory(msg.bytes, msg.base, a, 8) then EMPTY
    else
      var n := U32(msg.bytes, a - msg.base + 4);
      match t
      case PodArray(size, _) =>
        if InMemory(msg.bytes, msg.base, a, 8 + Times(size, n))
          then Pods(size, n, msg.bytes[a - msg.base + 8..a - msg.base + 8 + Times(size, n)]) else EMPTY
      case BoolArray(_) => if InMemory(msg.bytes, msg.base, a, 8 + (n + 7) / 8) then Bits(ReadBits(msg.bytes, a - msg.base, n)) else EMPTY
      case HandleArray(_, _) => if InMemory(msg.bytes, msg.base, a, 8 + 4 * n) then Handles(ReadHandles(msg, a, n)) else EMPTY
      case RefArray(_, _, _) => if InMemory(msg.bytes, msg.base, a, 8 + 8 * n) then Node(n, ReadElements(msg, t, a, n, 0)) else EMPTY
      case MapOf(key, value) =>
        if InMemory(msg.bytes, msg.base, a, 24) then Node(0, [ReadSlot(msg, key, a + 8), ReadSlot(msg, value, a + 16)]) else EMPTY
  }

  ghost function ReadBits(bytes: seq<byte>, p: nat, n: nat): (r: seq<bool>)
    requires p + 8 + (n + 7) / 8 <= |bytes|
    ensures |r| == n
  {
    seq(n, i requires 0 <= i < n => Bit(bytes[p + 8 + i / 8], i % 8))
  }

  ghost function ReadHandles(msg: Message, a: nat, n: nat): (r: seq<nat>)
    requires InMemory(msg.bytes, msg.base, a, 8 + 4 * n)
    ensures |r| == n
  {
    seq(n, i requires 0 <= i < n => msg.Handle(a + 8 + 4 * i))
  }

  /** The object behind the slot at address `s`. */
  ghost function ReadSlot(msg: Message, t: Type, s: nat): Option<Val>
    requires InMemory(msg.bytes, msg.base, s, 8)
    decreases t, 3, 0
  {
    var to := Target(msg.bytes, msg.base, s);
    if to == 0 then None else Some(Read(msg, t, to))
  }

  ghost function ReadElements(msg: Message, t: Type, a: nat, n: nat, i: nat): (r: seq<Option<Val>>)
    requires t.RefArray? && i <= n && InMemory(msg.bytes, msg.base, a, 8 + 8 * n)
    ensures |r| == n - i
    decreases t, 1, n - i
  {
    if i == n then [] else [ReadSlot(msg, t.elem, a + 8 + 8 * i)] + ReadElements(msg, t, a, n, i + 1)
  }

  lemma {:induction false} ElementRead(msg: Message, t: Type, a: nat, n: nat, i: nat, k: nat)
    requires t.RefArray? && i <= k < n && InMemory(msg.bytes, msg.base, a, 8 + 8 * n)
    ensures ReadElements(msg, t, a, n, i)[k - i] == ReadSlot(msg, t.elem, a + 8 + 8 * k)
    decreases n - i
  {
    hide ReadSlot;
    if i < k {
      ElementRead(msg, t, a, n, i + 1, k);
    }
  }

  // ---- Accepted messages ----

  /** All of an accepted object lies in the bytes that were claimed for it. */
  lemma WholeObject(bytes: seq<byte>, base: nat, t: Type, a: nat, c: Checker)
    requires Inside(bytes, base, c) && a != 0 && Validate(bytes, base, t, a, c).err == NoError
    requires Held(Validate(bytes, base, t, a, c).checker.claims)
    ensures base <= a && a + 8 <= base + |bytes|
    ensures 8 + BodySize(t, U32(bytes, a - base + 4)) <= U32(bytes, a - base)
    ensures a + U32(bytes, a - base) <= Validate(bytes, base, t, a, c).checker.dataBegin <= base + |bytes|
  {
    hide U32, StorageSize, Validate, ValidateMap, ValidateElements, ValidateHandles;
    AcceptedHeader(bytes, base, t, a, c);
    var d, all := Claiming(bytes, base, t, a, c), Validate(bytes, base, t, a, c).checker;
    if t.BoolArray? {
      assert d.claims[|c.claims|] == Claim(a, a + U32(bytes, a - base), t, U32(bytes, a - base + 4));
      assert HoldsElements(all.claims[|c.claims|]);
    } else {
      PodStorage(t, U32(bytes, a - base + 4));
    }
  }

  /** The bytes behind the header. */
  function BodySize(t: Type, n: nat): nat {
    match t
    case PodArray(size, _) => Times(size, n)
    case BoolArray(_) => (n + 7) / 8
    case HandleArray(_, _) => 4 * n
    case RefArray(_, _, _) => 8 * n
    case MapOf(_, _) => 16
  }

  lemma PodStorage(t: Type, n: nat)
    ensures t.PodArray? ==> StorageSize(t, n) == 8 + Times(t.size, n)
  {
  }

  /** The value behind a slot is one that the type allows. */
  ghost predicate Allowed(msg: Message, t: Type, nullable: bool, o: Option<Val>) {
    if o.None? then nullable else HasType(t, o.value) && (0 !in msg.items ==> Check(t, o.value) == NoError)
  }

  ghost predicate Fits(msg: Message, c: Checker) {
    Inside(msg.bytes, msg.base, c) && c.handleEnd <= |msg.items| && forall h | h in msg.items :: h < 0x1_0000_0000
  }

  /** An accepted message holds a value of its type. When the handles that came
      with it are valid, it is a value that serialization accepts. */
  lemma {:induction false} ReadTyped(msg: Message, t: Type, a: nat, c: Checker)
    requires Fits(msg, c) && a != 0 && Validate(msg.bytes, msg.base, t, a, c).err == NoError
    requires Held(Validate(msg.bytes, msg.base, t, a, c).checker.claims)
    ensures HasType(t, Read(msg, t, a))
    ensures 0 !in msg.items ==> Check(t, Read(msg, t, a)) == NoError
    ensures msg.base <= a && a + 8 <= msg.base + |msg.bytes| && Count(Read(msg, t, a)) == U32(msg.bytes, a - msg.base + 4)
    decreases t, 2, 0
  {
    hide U32, StorageSize, Validate, ValidateMap, ValidateElements, ValidateHandles, Held, ReadElements, ReadSlot;
    var bytes, base := msg.bytes, msg.base;
    AcceptedHeader(bytes, base, t, a, c);
    WholeObject(bytes, base, t, a, c);
    AcceptedLength(bytes, base, t, a, c);
    var n, d := U32(bytes, a - base + 4), Claiming(bytes, base, t, a, c);
    match t
    case HandleArray(nullable, _) =>
      HandlesTyped(msg, nullable, a, n, 0, d);
    case RefArray(elem, nullable, _) =>
      ElementsTyped(msg, t, a, n, 0, d);
      forall i | 0 <= i < n ensures Allowed(msg, elem, nullable, ReadElements(msg, t, a, n, 0)[i]) {
        ElementRead(msg, t, a, n, 0, i);
      }
      KidsAllowed(msg, elem, nullable, ReadElements(msg, t, a, n, 0));
    case MapOf(_, _) =>
      MapTyped(msg, t, a, d);
    case _ =>
  }

  lemma AcceptedLength(bytes: seq<byte>, base: nat, t: Type, a: nat, c: Checker)
    requires Inside(bytes, base, c) && a != 0 && Validate(bytes, base, t, a, c).err == NoError
    ensures !t.MapOf? ==> t.expected == 0 || U32(bytes, a - base + 4) == t.expected
    ensures t.MapOf? ==> U32(bytes, a - base + 4) == 0
  {
    hide U32, StorageSize, MaxElements, ValidateSlot, ValidateElements, ValidateHandles;
    U32Bound(bytes, a - base);
  }

  lemma {:induction false} HandlesTyped(msg: Message, nullable: bool, a: nat, n: nat, i: nat, c: Checker)
    requires Fits(msg, c) && i <= n && InMemory(msg.bytes, msg.base, a, 8 + 4 * n)
    requires ValidateHandles(msg.bytes, msg.base, nullable, a, n, i, c).err == NoError
    ensures forall k | i <= k < n :: var h := msg.Handle(a + 8 + 4 * k); h < 0x1_0000_0000 && (!nullable && 0 !in msg.items ==> h != 0)
    decreases n - i
  {
    hide U32;
    if i < n {
      var value, d := U32(msg.bytes, a - msg.base + 8 + 4 * i), Visit(c, HandleAt(a + 8 + 4 * i));
      assert value < |msg.items| ==> msg.items[value] in msg.items;
      HandlesTyped(msg, nullable, a, n, i + 1, ClaimHandle(d, value));
    }
  }

  lemma {:induction false} SlotTyped(msg: Message, t: Type, nullable: bool, s: nat, c: Checker)
    requires Fits(msg, c) && InMemory(msg.bytes, msg.base, s, 8)
    requires ValidateSlot(msg.bytes, msg.base, t, nullable, s, c).err == NoError
    requires Held(ValidateSlot(msg.bytes, msg.base, t, nullable, s, c).checker.claims)
    ensures Allowed(msg, t, nullable, ReadSlot(msg, t, s))
    ensures !nullable ==>
      var to := Target(msg.bytes, msg.base, s);
      && ReadSlot(msg, t, s).Some? && msg.base <= to && to + 8 <= msg.base + |msg.bytes|
      && Count(ReadSlot(msg, t, s).value) == U32(msg.bytes, to - msg.base + 4)
    decreases t, 3, 0
  {
    hide U32, U64, Validate, Held, Read;
    var to := Target(msg.bytes, msg.base, s);
    if to != 0 {
      ReadTyped(msg, t, to, Visit(c, PointerAt(s)));
    }
  }

  lemma {:induction false} ElementsTyped(msg: Message, t: Type, a: nat, n: nat, i: nat, c: Checker)
    requires Fits(msg, c) && t.RefArray? && i <= n && InMemory(msg.bytes, msg.base, a, 8 + 8 * n)
    requires ValidateElements(msg.bytes, msg.base, t, a, n, i, c).err == NoError
    requires Held(ValidateElements(msg.bytes, msg.base, t, a, n, i, c).checker.claims)
    ensures forall k | i <= k < n :: Allowed(msg, t.elem, t.nullable, ReadSlot(msg, t.elem, a + 8 + 8 * k))
    decreases t, 1, n - i
  {
    hide ValidateSlot, Held, ReadSlot, Allowed;
    if i < n {
      var next := ValidateSlot(msg.bytes, msg.base, t.elem, t.nullable, a + 8 + 8 * i, c).checker;
      HeldPrefix(next.claims, ValidateElements(msg.bytes, msg.base, t, a, n, i, c).checker.claims);
      SlotTyped(msg, t.elem, t.nullable, a + 8 + 8 * i, c);
      ElementsTyped(msg, t, a, n, i + 1, next);
    }
  }

  lemma {:induction false} KidsAllowed(msg: Message, t: Type, nullable: bool, kids: seq<Option<Val>>)
    requires forall i | 0 <= i < |kids| :: Allowed(msg, t, nullable, kids[i])
    ensures forall i | 0 <= i < |kids| && kids[i].Some? :: HasType(t, kids[i].value)
    ensures 0 !in msg.items ==> CheckKids(t, nullable, kids) == NoError
    decreases |kids|
  {
    hide HasType, Check;
    assert forall i | 0 <= i < |kids| && kids[i].Some? :: Allowed(msg, t, nullable, kids[i]);
    if kids != [] {
      var l := |kids| - 1;
      assert Allowed(msg, t, nullable, kids[l]);
      KidsAllowed(msg, t, nullable, kids[..l]);
    }
  }

  lemma {:induction false} MapTyped(msg: Message, t: Type, a: nat, c: Checker)
    requires Fits(msg, c) && t.MapOf? && InMemory(msg.bytes, msg.base, a, 24)
    requires ValidateMap(msg.bytes, msg.base, t, a, 24, 0, c).err == NoError
    requires Held(ValidateMap(msg.bytes, msg.base, t, a, 24, 0, c).checker.claims)
    ensures var v := Node(0, [ReadSlot(msg, t.key, a + 8), ReadSlot(msg, t.value, a + 16)]);
      HasType(t, v) && (0 !in msg.items ==> Check(t, v) == NoError)
    decreases t, 1, 0
  {
    hide U32, ValidateSlot, Held, ReadSlot;
    var keys := ValidateSlot(msg.bytes, msg.base, t.key, false, a + 8, c).checker;
    HeldPrefix(keys.claims, ValidateMap(msg.bytes, msg.base, t, a, 24, 0, c).checker.claims);
    SlotTyped(msg, t.key, false, a + 8, c);
    SlotTyped(msg, t.value, false, a + 16, keys);
  }
}
