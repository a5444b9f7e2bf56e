/**
  Sizing a message and writing it, parent before children, into a buffer of
  exactly that size.
*/
module CppSerialize {
  import opened Wire
  import opened CppValues
  import opened CppImage
  import opened CppEncode

  // ---- Sizes ----

  lemma AlignHeader(n: nat)
    ensures Align8(8 + n) == 8 + Align8(n)
  {
  }

  /** A string, null or not, as an array of bytes. */
  function StringValue(input: Option<seq<byte>>): Option<Val> {
    if input.None? then None else Some(Pods(1, |input.value|, input.value))
  }

  /** GetSerializedSize_ of a string, which rounds header and bytes up together,
      is the size of that array, and 0 for null. */
  function GetStringSize(input: Option<seq<byte>>): (size: nat)
    ensures size == SizeOf(StringValue(input))
    ensures input.Some? ==> HasType(PodArray(1, 0), StringValue(input).value)
  {
    if input.None? then 0
    else
      AlignHeader(|input.value|);
      Align8(8 + |input.value|)
  }

  /** Bytes in front of the objects an array points to. */
  method GetBaseSize(t: Type, v: Val) returns (size: nat)
    requires WellFormed(t) && HasType(t, v) && !t.MapOf?
    ensures size == Block(v)
  {
    match t {
      case PodArray(_, _) => size := 8 + Align8(Times(t.size, v.count));
      case BoolArray(_) => size := 8 + Align8((|v.bits| + 7) / 8);
      case HandleArray(_, _) => size := 8 + Align8(4 * |v.handles|);
      case RefArray(_, _, _) => size := 8 + 8 * |v.kids|;
    }
  }

  /** GetSerializedSize_: the size of an object with everything it points to. */
  method GetSerializedSize(t: Type, v: Val) returns (size: nat)
    requires WellFormed(t) && HasType(t, v)
    ensures size == Size(v)
    decreases t, 1
  {
    if t.MapOf? {
      size := GetMapSize(t, v);
    } else {
      size := GetArraySize(t, v);
    }
  }

  lemma MapSize(v: Val)
    requires v.Node? && |v.kids| == 2 && v.kids[0].Some? && v.kids[1].Some?
    ensures Size(v) == 24 + Size(v.kids[0].value) + Size(v.kids[1].value)
  {
    assert Before(v.kids, 2) == Before(v.kids, 1) + SizeOf(v.kids[1]);
    assert Before(v.kids, 1) == Before(v.kids, 0) + SizeOf(v.kids[0]);
  }

  /** The size of an array, object by object. */
  method GetArraySize(t: Type, v: Val) returns (size: nat)
    requires WellFormed(t) && HasType(t, v) && !t.MapOf?
    ensures size == Size(v)
    decreases t, 0
  {
    size := GetBaseSize(t, v);
    if t.RefArray? {
      var i := 0;
      while i < |v.kids|
        invariant 0 <= i <= |v.kids| && size == Block(v) + Before(v.kids, i)
      {
        if v.kids[i].Some? {
          var item := GetSerializedSize(t.elem, v.kids[i].value);
          size := size + item;
        }
        i := i + 1;
      }
    }
  }

  /** The size of a map adds up the array headers, both base sizes and the items,
      key and value in turn. */
  method GetMapSize(t: Type, v: Val) returns (size: nat)
    requires WellFormed(t) && HasType(t, v) && t.MapOf?
    ensures size == Size(v)
    decreases t, 0
  {
    var keys, values := v.kids[0].value, v.kids[1].value;
    var keyBase := GetBaseSize(t.key, keys);
    var valueBase := GetBaseSize(t.value, values);
    var keyData, valueData, i := 0, 0, 0;
    while i < Count(keys)
      invariant 0 <= i <= Count(keys)
      invariant keyData == (if keys.Node? then Before(keys.kids, i) else 0)
      invariant valueData == (if values.Node? then Before(values.kids, i) else 0)
    {
      if t.key.RefArray? && keys.kids[i].Some? {
        var item := GetSerializedSize(t.key.elem, keys.kids[i].value);
        keyData := keyData + item;
      }
      if t.value.RefArray? && values.kids[i].Some? {
        var item := GetSerializedSize(t.value.elem, values.kids[i].value);
        valueData := valueData + item;
      }
      i := i + 1;
    }
    size := 24 + keyBase + keyData + valueBase + valueData;
    MapSize(v);
  }

  // ---- The buffer ----

  class FixedBuffer {
    const mem: array<byte>
    const base: nat
    var cursor: nat

    ghost predicate Valid()
      reads this
    {
      Placed(mem, base) && cursor <= mem.Length && cursor % 8 == 0
    }

    constructor (mem: array<byte>, base: nat)
      requires Placed(mem, base)
      ensures Valid() && this.mem == mem && this.base == base && cursor == 0
    {
      this.mem, this.base, cursor := mem, base, 0;
    }

    /** Hands out whole words; fails for an empty request or when too little is
        left. */
    method Allocate(delta: nat) returns (r: Option<nat>)
      requires Valid()
      modifies this
      ensures Valid()
      ensures r.Some? <==> 0 < delta && old(cursor) + Align8(delta) <= mem.Length
      ensures r.Some? ==> r.value == old(cursor) && cursor == old(cursor) + Align8(delta)
      ensures r.None? ==> cursor == old(cursor)
    {
      var aligned := Align8(delta);
      if aligned == 0 || aligned > mem.Length - cursor {
        return None;
      }
      r := Some(cursor);
      cursor := cursor + aligned;
    }
  }

  /** Allocates an object and writes its header. The room is there, so the
      allocation succeeds. */
  method New(buf: FixedBuffer, storage: nat, second: nat, ghost v: Val) returns (p: nat)
    requires buf.Valid() && buf.cursor + Size(v) <= buf.mem.Length && NoWrap(v)
    requires storage == Storage(v) && second == Count(v) < 0x1_0000_0000
    modifies buf, buf.mem
    ensures buf.Valid() && p == old(buf.cursor) && buf.cursor == p + Block(v)
    ensures HeaderAt(buf.mem[..], p, v)
    ensures Only(old(buf.mem[..]), buf.mem[..], p, p + 8)
  {
    hide U32, Size;
    SizeIsBlock(v);
    AlignHeader(storage);
    var r := buf.Allocate(8 + storage);
    p := r.value;
    PutU32(buf.mem, p, 8 + storage);
    ghost var before := buf.mem[..];
    PutU32(buf.mem, p + 4, second);
    U32Same(before, buf.mem[..], p);
  }

  /** Every array has fewer than 2^32 elements. */
  lemma CountFits(t: Type, v: Val)
    requires WellFormed(t) && HasType(t, v) && NoWrap(v)
    ensures Count(v) < 0x1_0000_0000
  {
  }

  // ---- Elements without pointers ----

  method SerializeBits(mem: array<byte>, p: nat, bits: seq<bool>)
    requires p + 8 + (|bits| + 7) / 8 <= mem.Length
    modifies mem
    ensures BitsAt(mem[..], p, bits)
    ensures Only(old(mem[..]), mem[..], p + 8, p + 8 + (|bits| + 7) / 8)
  {
    var i := 0;
    while i < |bits|
      invariant 0 <= i <= |bits|
      invariant forall j | 0 <= j < i :: Bit(mem[p + 8 + j / 8], j % 8) == bits[j]
      invariant Only(old(mem[..]), mem[..], p + 8, p + 8 + (|bits| + 7) / 8)
    {
      var a := p + 8 + i / 8;
      forall j | 0 <= j < i && j / 8 == i / 8
        ensures Bit(PutByteBit(mem[a], i % 8, bits[i]), j % 8) == Bit(mem[a], j % 8)
      {
        PutBitMeans(mem[a], i % 8, bits[i], j % 8);
      }
      PutBitMeans(mem[a], i % 8, bits[i], i % 8);
      mem[a] := PutByteBit(mem[a], i % 8, bits[i]);
      i := i + 1;
    }
  }

  /** Writes the handles one by one until one is missing that must not be. */
  method SerializeHandles(mem: array<byte>, ghost base: nat, p: nat, handles: seq<nat>, nullable: bool) returns (err: ValidationError)
    requires p + 8 + 4 * |handles| <= mem.Length && forall h | h in handles :: h < 0x1_0000_0000
    modifies mem
    ensures err == if !nullable && 0 in handles then UnexpectedInvalidHandle else NoError
    ensures err == NoError ==> HandlesAt(Raw(base), mem[..], p, handles)
    ensures Only(old(mem[..]), mem[..], p + 8, p + 8 + 4 * |handles|)
  {
    hide U32;
    var i := 0;
    while i < |handles|
      invariant 0 <= i <= |handles|
      invariant forall j | 0 <= j < i :: U32(mem[..], p + 8 + 4 * j) == handles[j]
      invariant !nullable ==> 0 !in handles[..i]
      invariant Only(old(mem[..]), mem[..], p + 8, p + 8 + 4 * |handles|)
    {
      ghost var before := mem[..];
      assert handles[i] in handles;
      PutU32(mem, p + 8 + 4 * i, handles[i]);
      forall j | 0 <= j < i ensures U32(mem[..], p + 8 + 4 * j) == handles[j] {
        U32Same(before, mem[..], p + 8 + 4 * j);
      }
      if !nullable && handles[i] == 0 {
        return UnexpectedInvalidHandle;
      }
      i := i + 1;
    }
    err := NoError;
    assert handles[..i] == handles;
  }

  // ---- Objects ----

  /** The first `i` pointers of an object are written, with what is behind them. */
  ghost predicate Begun(base: nat, mem: seq<byte>, p: nat, v: Val, i: nat)
    requires v.Node? && i <= |v.kids|
  {
    HeaderAt(mem, p, v) && forall j | 0 <= j < i :: KidAt(Raw(base), mem, p, v, v.kids, j)
  }

  lemma SlotWritten(base: nat, mem: seq<byte>, other: seq<byte>, p: nat, v: Val, i: nat)
    requires v.Node? && i < |v.kids| && Begun(base, mem, p, v, i)
    requires OnlyKid(mem, other, p, v, i) && KidAt(Raw(base), other, p, v, v.kids, i)
    ensures Begun(base, other, p, v, i + 1)
  {
    hide KidAt, U32, Size, Block, Before;
    KidInside(p, v, i);
    U32Same(mem, other, p);
    U32Same(mem, other, p + 4);
    forall j | 0 <= j < i ensures KidAt(Raw(base), other, p, v, v.kids, j) {
      OtherKid(Raw(base), mem, other, p, v, i, j);
    }
  }

  lemma {:induction false} CheckKidsPrefix(elem: Type, nullable: bool, kids: seq<Option<Val>>, i: nat)
    requires forall i | 0 <= i < |kids| && kids[i].Some? :: HasType(elem, kids[i].value)
    requires i <= |kids| && CheckKids(elem, nullable, kids[..i]) != NoError
    ensures CheckKids(elem, nullable, kids) == CheckKids(elem, nullable, kids[..i])
    decreases |kids|
  {
    if i == |kids| {
      assert kids[..i] == kids;
    } else {
      var l := |kids| - 1;
      assert kids[..l][..i] == kids[..i];
      CheckKidsPrefix(elem, nullable, kids[..l], i);
    }
  }

  /** The error that pointer `i` leads to. */
  function KidCheck(t: Type, v: Val, i: nat): ValidationError
    requires HasType(t, v) && v.Node? && i < |v.kids|
  {
    if v.kids[i].Some? then Check(KidType(t, i), v.kids[i].value)
    else if t.RefArray? && t.nullable then NoError else UnexpectedNullPointer
  }

  lemma CheckKidsNext(t: Type, v: Val, i: nat)
    requires HasType(t, v) && t.RefArray? && i < |v.kids|
    requires CheckKids(t.elem, t.nullable, v.kids[..i]) == NoError
    ensures CheckKids(t.elem, t.nullable, v.kids[..i + 1]) == KidCheck(t, v, i)
  {
    assert v.kids[..i + 1][..i] == v.kids[..i];
  }

  /** Serializes what one element points to, then sets the pointer. */
  method SerializeElement(buf: FixedBuffer, t: Type, p: nat, v: Val, i: nat) returns (err: ValidationError)
    requires buf.Valid() && WellFormed(t) && HasType(t, v) && NoWrap(v) && t.RefArray? && i < |v.kids|
    requires Begun(buf.base, buf.mem[..], p, v, i) && buf.cursor == KidPos(p, v, i)
    modifies buf, buf.mem
    ensures buf.Valid() && buf.cursor <= p + Size(v) && Only(old(buf.mem[..]), buf.mem[..], p, p + Size(v))
    ensures err == KidCheck(t, v, i)
    ensures err == NoError ==> Begun(buf.base, buf.mem[..], p, v, i + 1) && buf.cursor == KidPos(p, v, i + 1)
    decreases t, 0
  {
    hide U32, U64, Size, At, KidAt, Check;
    ghost var before := buf.mem[..];
    KidInside(p, v, i);
    KidPosNext(p, v, i);
    var a := p + 8 + 8 * i;
    if v.kids[i].Some? {
      KidNoWrap(v, i);
      var q;
      err, q := SerializeObject(buf, t.elem, v.kids[i].value);
      if err != NoError {
        return;
      }
      ghost var mid := buf.mem[..];
      PutU64(buf.mem, a, buf.base + q);
      AtSame(Raw(buf.base), mid, buf.mem[..], q, v.kids[i].value);
    } else {
      PutU64(buf.mem, a, 0);
      err := if t.nullable then NoError else UnexpectedNullPointer;
    }
    KidMeans(Raw(buf.base), buf.mem[..], p, v, i);
    SlotWritten(buf.base, before, buf.mem[..], p, v, i);
  }

  lemma KidPosNext(p: nat, v: Val, i: nat)
    requires v.Node? && i < |v.kids|
    ensures KidPos(p, v, i + 1) == KidPos(p, v, i) + SizeOf(v.kids[i])
    ensures KidPos(p, v, i + 1) <= p + Size(v)
  {
    KidInside(p, v, i);
  }

  /** Sets one pointer of a map to the array that is then allocated and
      serialized right there. */
  method SerializeMember(buf: FixedBuffer, t: Type, p: nat, v: Val, i: nat) returns (err: ValidationError)
    requires buf.Valid() && WellFormed(t) && HasType(t, v) && NoWrap(v) && t.MapOf? && i < |v.kids|
    requires Begun(buf.base, buf.mem[..], p, v, i) && buf.cursor == KidPos(p, v, i)
    modifies buf, buf.mem
    ensures buf.Valid() && buf.cursor <= p + Size(v) && Only(old(buf.mem[..]), buf.mem[..], p, p + Size(v))
    ensures err == KidCheck(t, v, i)
    ensures err == NoError ==> Begun(buf.base, buf.mem[..], p, v, i + 1) && buf.cursor == KidPos(p, v, i + 1)
    decreases t, 0
  {
    hide U32, U64, Size, At, KidAt, Check;
    ghost var before := buf.mem[..];
    KidInside(p, v, i);
    KidPosNext(p, v, i);
    KidNoWrap(v, i);
    KidWellFormed(t, i);
    KidHasType(t, v, i);
    PutU64(buf.mem, p + 8 + 8 * i, buf.base + buf.cursor);
    ghost var mid := buf.mem[..];
    var q;
    err, q := SerializeObject(buf, KidType(t, i), v.kids[i].value);
    if err == NoError {
      U64Same(mid, buf.mem[..], p + 8 + 8 * i);
      KidMeans(Raw(buf.base), buf.mem[..], p, v, i);
      SlotWritten(buf.base, before, buf.mem[..], p, v, i);
    }
  }

  method SerializeObject(buf: FixedBuffer, t: Type, v: Val) returns (err: ValidationError, p: nat)
    requires buf.Valid() && WellFormed(t) && HasType(t, v) && NoWrap(v)
    requires buf.cursor + Size(v) <= buf.mem.Length
    modifies buf, buf.mem
    ensures buf.Valid() && buf.cursor <= old(buf.cursor) + Size(v)
    ensures Only(old(buf.mem[..]), buf.mem[..], old(buf.cursor), old(buf.cursor) + Size(v))
    ensures err == Check(t, v)
    ensures err == NoError ==> p == old(buf.cursor) && buf.cursor == p + Size(v) && At(Raw(buf.base), buf.mem[..], p, v)
    decreases t, 2
  {
    p := buf.cursor;
    SizeIsBlock(v);
    CountFits(t, v);
    if Expected(t) != 0 && Count(v) != Expected(t) {
      return UnexpectedArrayHeader, p;
    }
    if t.MapOf? {
      p := New(buf, 16, 0, v);
      err := SerializeMember(buf, t, p, v, 0);
      if err == NoError {
        err := SerializeMember(buf, t, p, v, 1);
      }
    } else if t.RefArray? {
      p := New(buf, 8 * |v.kids|, |v.kids|, v);
      err := SerializeElements(buf, t, p, v);
    } else {
      err, p := SerializeLeaf(buf, t, v);
    }
  }

  method SerializeElements(buf: FixedBuffer, t: Type, p: nat, v: Val) returns (err: ValidationError)
    requires buf.Valid() && WellFormed(t) && HasType(t, v) && NoWrap(v) && t.RefArray?
    requires Begun(buf.base, buf.mem[..], p, v, 0) && buf.cursor == KidPos(p, v, 0)
    modifies buf, buf.mem
    ensures buf.Valid() && buf.cursor <= p + Size(v) && Only(old(buf.mem[..]), buf.mem[..], p, p + Size(v))
    ensures err == CheckKids(t.elem, t.nullable, v.kids)
    ensures err == NoError ==> Begun(buf.base, buf.mem[..], p, v, |v.kids|) && buf.cursor == p + Size(v)
    decreases t, 1
  {
    hide Begun, KidCheck, Check;
    err := NoError;
    var i := 0;
    while i < |v.kids|
      invariant 0 <= i <= |v.kids| && buf.Valid()
      invariant CheckKids(t.elem, t.nullable, v.kids[..i]) == NoError
      invariant Begun(buf.base, buf.mem[..], p, v, i) && buf.cursor == KidPos(p, v, i)
      invariant Only(old(buf.mem[..]), buf.mem[..], p, p + Size(v))
    {
      CheckKidsNext(t, v, i);
      err := SerializeElement(buf, t, p, v, i);
      if err != NoError {
        CheckKidsPrefix(t.elem, t.nullable, v.kids, i + 1);
        return;
      }
      i := i + 1;
    }
    err := NoError;
    assert v.kids[..i] == v.kids;
  }

  /** Arrays of plain data, bools and handles. */
  method SerializeLeaf(buf: FixedBuffer, t: Type, v: Val) returns (err: ValidationError, p: nat)
    requires buf.Valid() && WellFormed(t) && HasType(t, v) && NoWrap(v) && !t.MapOf? && !t.RefArray? && !WrongLength(t, v)
    requires buf.cursor + Size(v) <= buf.mem.Length
    modifies buf, buf.mem
    ensures buf.Valid() && buf.cursor == old(buf.cursor) + Size(v) && p == old(buf.cursor)
    ensures Only(old(buf.mem[..]), buf.mem[..], p, p + Size(v))
    ensures err == Check(t, v)
    ensures err == NoError ==> At(Raw(buf.base), buf.mem[..], p, v)
  {
    hide U32;
    CountFits(t, v);
    SizeIsBlock(v);
    err := NoError;
    match t {
      case PodArray(size, _) =>
        p := New(buf, Times(size, v.count), v.count, v);
        ghost var before := buf.mem[..];
        PutBytes(buf.mem, p + 8, v.data);
        HeaderSame(before, buf.mem[..], p, v);
        assert buf.mem[..][p + 8..p + 8 + |v.data|] == buf.mem[p + 8..p + 8 + |v.data|];
      case BoolArray(_) =>
        p := New(buf, (|v.bits| + 7) / 8, |v.bits|, v);
        ghost var before := buf.mem[..];
        SerializeBits(buf.mem, p, v.bits);
        HeaderSame(before, buf.mem[..], p, v);
      case HandleArray(nullable, _) =>
        p := New(buf, 4 * |v.handles|, |v.handles|, v);
        ghost var before := buf.mem[..];
        err := SerializeHandles(buf.mem, buf.base, p, v.handles, nullable);
        HeaderSame(before, buf.mem[..], p, v);
    }
  }
}
