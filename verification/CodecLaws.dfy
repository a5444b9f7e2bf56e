/**
  The Go decoder on arbitrary bytes: what a successful decode says about the value,
  about the blocks it was read from and about the handles it took.
*/
module CodecLaws {
  import opened Wire
  import opened Layout
  import opened Cursor
  import opened Codec

  // ---- Values of a type ----

  /** Null only where the type allows it, integers in range, maps with as many keys as
      values. */
  ghost predicate Typed(env: Env, t: Type, v: Val)
    decreases v, 1
  {
    match t
    case TBool => v.VBool?
    case TUint(w) => v.VUint? && v.v < Pow256(w.Bytes())
    case THandle(nullable) => v.VHandle? && (v.h == INVALID_HANDLE ==> nullable)
    case TInterface(nullable) => v.VInterface? && (v.h == INVALID_HANDLE ==> nullable)
    case TPointer(nullable, target) => (v.VNull? && nullable) || (v.VPointer? && TypedObject(env, target, v.obj))
  }

  ghost predicate TypedObject(env: Env, target: Target, obj: Object)
    decreases obj, 1
  {
    match target
    case TArray(t) => obj.OArray? && TypedAll(env, Repeat(t, |obj.elems|), obj.elems)
    case TMap(k, v) => obj.ORecord? && MapShape(obj.fields) && TypedAll(env, MapFields(k, v), obj.fields)
    case TStruct(name) => obj.ORecord? && name in env && TypedAll(env, env[name].fields, obj.fields)
  }

  ghost predicate TypedAll(env: Env, ts: seq<Type>, vs: seq<Val>)
    decreases vs, 0
  {
    |ts| == |vs| && forall i | 0 <= i < |vs| :: Typed(env, ts[i], vs[i])
  }

  // ---- The objects and the handles of a value, in order ----

  /** An object and what it is. */
  datatype Part = Part(target: Target, obj: Object)

  function PartsOf(env: Env, target: Target, obj: Object): seq<Part>
    decreases obj, 1
  {
    [Part(target, obj)]
    + match (target, obj)
      case (TArray(t), OArray(elems)) => PartsIn(env, Repeat(t, |elems|), elems)
      case (TMap(k, v), ORecord(fields)) => PartsIn(env, MapFields(k, v), fields)
      case (TStruct(name), ORecord(fields)) => if name in env then PartsIn(env, env[name].fields, fields) else []
      case (_, _) => []
  }

  function PartsIn(env: Env, ts: seq<Type>, vs: seq<Val>): seq<Part>
    decreases vs, 0
  {
    if ts == [] || vs == [] then [] else PartsAt(env, ts[0], vs[0]) + PartsIn(env, ts[1..], vs[1..])
  }

  function PartsAt(env: Env, t: Type, v: Val): seq<Part>
    decreases v, 1
  {
    if t.TPointer? && v.VPointer? then PartsOf(env, t.target, v.obj) else []
  }

  /** The valid handles of an object. */
  function HandlesOf(obj: Object): seq<Handle>
    decreases obj, 1
  {
    HandlesIn(if obj.OArray? then obj.elems else obj.fields)
  }

  function HandlesIn(vs: seq<Val>): seq<Handle>
    decreases vs, 0
  {
    if vs == [] then [] else HandlesAt(vs[0]) + HandlesIn(vs[1..])
  }

  function HandlesAt(v: Val): seq<Handle>
    decreases v, 1
  {
    match v
    case VHandle(h) => if h == INVALID_HANDLE then [] else [h]
    case VInterface(h) => if h == INVALID_HANDLE then [] else [h]
    case VPointer(obj) => HandlesOf(obj)
    case _ => []
  }

  // ---- What a decode used ----

  /** Where objects begin, and the indices of handles. */
  datatype Used = Used(blocks: seq<nat>, indices: seq<nat>)
  {
    function Then(more: Used): Used { Used(blocks + more.blocks, indices + more.indices) }
  }

  const NOTHING := Used([], [])

  /** The header at `a` is one that an object can have: an array with its number of
      elements and room for them, a map with its one header, a struct with the size and
      version of its declaration. */
  ghost predicate HeaderFits(env: Env, buf: seq<byte>, a: nat, part: Part) {
    && a + 8 <= |buf|
    && var size, second := Value(buf[a..a + 4]), Value(buf[a + 4..a + 8]);
       8 <= size && a + size <= |buf|
       && match part.target
          case TArray(t) => part.obj.OArray? && second == |part.obj.elems| && 8 + BytesForBits(second * t.BitSize()) <= size
          case TMap(_, _) => size == 24 && second == 0
          case TStruct(name) => name in env && size == 8 + env[name].size && second == env[name].version
  }

  function BlockEnd(buf: seq<byte>, a: nat): nat { if a + 4 <= |buf| then a + Value(buf[a..a + 4]) else a }

  /** The blocks begin at whole words, lie one after the other between `lo` and `hi`,
      and are the blocks of the parts. */
  ghost predicate Blocks(env: Env, buf: seq<byte>, blocks: seq<nat>, parts: seq<Part>, lo: nat, hi: nat) {
    && |blocks| == |parts|
    && (forall i | 0 <= i < |blocks| :: lo <= blocks[i] && BlockEnd(buf, blocks[i]) <= hi && blocks[i] % 8 == 0)
    && (forall i | 0 <= i < |blocks| :: HeaderFits(env, buf, blocks[i], parts[i]))
    && (forall i, j | 0 <= i < j < |blocks| :: BlockEnd(buf, blocks[i]) <= blocks[j])
  }

  /** The indices increase from `lo` up to `hi`, and stand for the handles. */
  ghost predicate Takes(handles: seq<Handle>, indices: seq<nat>, hs: seq<Handle>, lo: nat, hi: nat) {
    && |indices| == |hs|
    && (forall i | 0 <= i < |indices| :: lo <= indices[i] < hi && indices[i] < |handles| && handles[indices[i]] == hs[i])
    && (forall i, j | 0 <= i < j < |indices| :: indices[i] < indices[j])
  }

  ghost predicate Lawful(env: Env, buf: seq<byte>, handles: seq<Handle>, used: Used, parts: seq<Part>, hs: seq<Handle>, d: Decoding, d': Decoding) {
    && d.end <= d'.end <= |buf| && d.nextHandle <= d'.nextHandle
    && Blocks(env, buf, used.blocks, parts, d.end, d'.end) && Takes(handles, used.indices, hs, d.nextHandle, d'.nextHandle)
  }

  lemma LawfulThen(env: Env, buf: seq<byte>, handles: seq<Handle>, x: Used, xp: seq<Part>, xh: seq<Handle>, y: Used, yp: seq<Part>, yh: seq<Handle>,
                   d: Decoding, d1: Decoding, d2: Decoding)
    requires Lawful(env, buf, handles, x, xp, xh, d, d1) && Lawful(env, buf, handles, y, yp, yh, d1, d2)
    ensures Lawful(env, buf, handles, x.Then(y), xp + yp, xh + yh, d, d2)
  {
    hide HeaderFits, BlockEnd;
    var bs, ps, xs, hs := x.blocks + y.blocks, xp + yp, x.indices + y.indices, xh + yh;
    forall i, j | 0 <= i < j < |bs| ensures BlockEnd(buf, bs[i]) <= bs[j] {
      if i < |x.blocks| <= j {
        assert bs[i] == x.blocks[i] && bs[j] == y.blocks[j - |x.blocks|];
      }
    }
    forall i, j | 0 <= i < j < |xs| ensures xs[i] < xs[j] {
      if i < |x.indices| <= j {
        assert xs[i] == x.indices[i] && xs[j] == y.indices[j - |x.indices|];
      }
    }
    forall i | 0 <= i < |bs| ensures HeaderFits(env, buf, bs[i], ps[i]) {
      assert i >= |x.blocks| ==> bs[i] == y.blocks[i - |x.blocks|] && ps[i] == yp[i - |x.blocks|];
    }
  }

  lemma NothingUsed(env: Env, buf: seq<byte>, handles: seq<Handle>, d: Decoding, d': Decoding)
    requires d.end <= d'.end <= |buf| && d.nextHandle <= d'.nextHandle
    ensures Lawful(env, buf, handles, NOTHING, [], [], d, d')
  {
  }

  lemma LawfulClosed(env: Env, buf: seq<byte>, handles: seq<Handle>, used: Used, parts: seq<Part>, hs: seq<Handle>, d: Decoding, d1: Decoding, d2: Decoding)
    requires Lawful(env, buf, handles, used, parts, hs, d, d1) && d2.end == d1.end && d2.nextHandle == d1.nextHandle
    ensures Lawful(env, buf, handles, used, parts, hs, d, d2)
  {
  }

  // ---- Items ----

  lemma UintLaws(buf: seq<byte>, d: Decoding, n: nat)
    requires n in {1, 2, 4, 8} && ReadUint(buf, d, n).Some?
    ensures var r := ReadUint(buf, d, n).value; r.value < Pow256(n) && r.rest.end == d.end && r.rest.nextHandle == d.nextHandle
  {
    hide Guard;
    var at := d.Top().Pos(n);
    ValueBound(buf[at..at + n]);
  }

  lemma HandleLaws(env: Env, buf: seq<byte>, handles: seq<Handle>, d: Decoding) returns (used: Used)
    requires d.end <= |buf| && ReadHandle(buf, handles, d).Some?
    ensures var r := ReadHandle(buf, handles, d).value;
      Lawful(env, buf, handles, used, [], if r.value == INVALID_HANDLE then [] else [r.value], d, r.rest)
  {
    hide ReadUint;
    var r := ReadHandle(buf, handles, d).value;
    UintLaws(buf, d, 4);
    used := if r.value == INVALID_HANDLE then NOTHING else Used([], [ReadUint(buf, d, 4).value.value]);
  }

  lemma InterfaceLaws(env: Env, buf: seq<byte>, handles: seq<Handle>, d: Decoding) returns (used: Used)
    requires d.end <= |buf| && ReadInterface(buf, handles, d).Some?
    ensures var r := ReadInterface(buf, handles, d).value;
      Lawful(env, buf, handles, used, [], if r.value == INVALID_HANDLE then [] else [r.value], d, r.rest)
  {
    hide ReadUint, ReadHandle, Lawful;
    used := HandleLaws(env, buf, handles, d);
    var h := ReadHandle(buf, handles, d).value;
    var d1 := h.rest.WithTop(h.rest.Top().Uncount());
    UintLaws(buf, d1, 4);
    LawfulClosed(env, buf, handles, used, [], if h.value == INVALID_HANDLE then [] else [h.value], d, h.rest, ReadInterface(buf, handles, d).value.rest);
  }

  // ---- Values and objects ----

  lemma {:induction false} ValueLaws(env: Env, t: Type, buf: seq<byte>, handles: seq<Handle>, d: Decoding) returns (used: Used)
    requires d.end <= |buf| && DecodeValue(env, t, buf, handles, d).Some?
    ensures var r := DecodeValue(env, t, buf, handles, d).value;
      Typed(env, t, r.value) && Lawful(env, buf, handles, used, PartsAt(env, t, r.value), HandlesAt(r.value), d, r.rest)
    decreases |buf| - d.end, 1, 0
  {
    hide ReadUint, ReadHandle, ReadInterface, DecodeObject, Lawful, TypedObject, PartsOf, HandlesOf;
    used := NOTHING;
    match t
    case TBool =>
      BoolLaws(buf, d);
      NothingUsed(env, buf, handles, d, ReadBool(buf, d).value.rest);
    case TUint(w) =>
      UintLaws(buf, d, w.Bytes());
      NothingUsed(env, buf, handles, d, ReadUint(buf, d, w.Bytes()).value.rest);
    case THandle(_) =>
      used := HandleLaws(env, buf, handles, d);
    case TInterface(_) =>
      used := InterfaceLaws(env, buf, handles, d);
    case TPointer(_, target) =>
      UintLaws(buf, d, 8);
      var p := ReadPointer(buf, d).value;
      NothingUsed(env, buf, handles, d, p.rest);
      if p.value != 0 {
        used := ObjectLaws(env, target, buf, handles, p.rest);
        var o := DecodeObject(env, target, buf, handles, p.rest).value;
        LawfulThen(env, buf, handles, NOTHING, [], [], used, PartsOf(env, target, o.value), HandlesOf(o.value), d, p.rest, o.rest);
        assert NOTHING.Then(used) == used && [] + PartsOf(env, target, o.value) == PartsOf(env, target, o.value);
        assert [] + HandlesOf(o.value) == HandlesOf(o.value);
      }
  }

  lemma BoolLaws(buf: seq<byte>, d: Decoding)
    requires ReadBool(buf, d).Some?
    ensures var r := ReadBool(buf, d).value; r.rest.end == d.end && r.rest.nextHandle == d.nextHandle
  {
    hide Guard;
  }

  lemma {:induction false} ValuesLaws(env: Env, ts: seq<Type>, buf: seq<byte>, handles: seq<Handle>, d: Decoding) returns (used: Used)
    requires d.end <= |buf| && DecodeValues(env, ts, buf, handles, d).Some?
    ensures var r := DecodeValues(env, ts, buf, handles, d).value;
      TypedAll(env, ts, r.value) && Lawful(env, buf, handles, used, PartsIn(env, ts, r.value), HandlesIn(r.value), d, r.rest)
    decreases |buf| - d.end, 2, |ts|
  {
    hide DecodeValue, Lawful, Typed, PartsAt, HandlesAt;
    if ts == [] {
      used := NOTHING;
      NothingUsed(env, buf, handles, d, d);
    } else {
      var r1 := DecodeValue(env, ts[0], buf, handles, d).value;
      var r2 := DecodeValues(env, ts[1..], buf, handles, r1.rest).value;
      var x := ValueLaws(env, ts[0], buf, handles, d);
      var y := ValuesLaws(env, ts[1..], buf, handles, r1.rest);
      used := x.Then(y);
      LawfulThen(env, buf, handles, x, PartsAt(env, ts[0], r1.value), HandlesAt(r1.value),
                 y, PartsIn(env, ts[1..], r2.value), HandlesIn(r2.value), d, r1.rest, r2.rest);
      var vs := [r1.value] + r2.value;
      assert vs[1..] == r2.value;
    }
  }

  /** On any bytes from which an object is decoded: it has its type; the objects in it
      were read from blocks that begin at whole words, follow each other and have the
      headers of these objects; its handles come from table entries of increasing
      index. */
  lemma {:induction false} ObjectLaws(env: Env, target: Target, buf: seq<byte>, handles: seq<Handle>, d: Decoding) returns (used: Used)
    requires d.end <= |buf| && d.end % 8 == 0 && DecodeObject(env, target, buf, handles, d).Some?
    ensures var r := DecodeObject(env, target, buf, handles, d).value;
      TypedObject(env, target, r.value) && Lawful(env, buf, handles, used, PartsOf(env, target, r.value), HandlesOf(r.value), d, r.rest)
    decreases |buf| - d.end, 0, 0
  {
    hide DecodeValues, Lawful, TypedAll, PartsIn, HandlesIn, BytesForBits;
    var h := ReadHeader(buf, d).value;
    var ts := TypesOf(env, target, h.value).value;
    var d2 := OpenBlock(buf, h.rest, h.value, target.TArray?).value;
    var vs := DecodeValues(env, ts, buf, handles, d2).value;
    var obj := DecodeObject(env, target, buf, handles, d).value.value;
    var inner := ValuesLaws(env, ts, buf, handles, d2);
    TypedLength(env, ts, vs.value);
    var one := Used([d.end], []);
    OneBlock(env, buf, handles, Part(target, obj), d, d2);
    LawfulThen(env, buf, handles, one, [Part(target, obj)], [], inner, PartsIn(env, ts, vs.value), HandlesIn(vs.value), d, d2, vs.rest);
    used := one.Then(inner);
    assert [] + HandlesIn(vs.value) == HandlesIn(vs.value);
    LawfulClosed(env, buf, handles, used, PartsOf(env, target, obj), HandlesOf(obj), d, vs.rest, DecodeObject(env, target, buf, handles, d).value.rest);
  }

  lemma TypedLength(env: Env, ts: seq<Type>, vs: seq<Val>)
    requires TypedAll(env, ts, vs)
    ensures |ts| == |vs|
  {
  }

  lemma OneBlock(env: Env, buf: seq<byte>, handles: seq<Handle>, part: Part, d: Decoding, d2: Decoding)
    requires d.end % 8 == 0 && HeaderFits(env, buf, d.end, part) && d2.end == BlockEnd(buf, d.end) && d2.nextHandle == d.nextHandle
    ensures Lawful(env, buf, handles, Used([d.end], []), [part], [], d, d2)
  {
    hide BytesForBits;
  }
}
