/**
  From the Go encoder to the C++ bindings: what Go writes for an array, a string or a
  map, of whatever nesting, is the encoded image of the same value in C++. So the C++
  validator accepts it, and the value comes back.
*/
module Interop {
  import opened Wire
  import opened Layout
  import opened Cursor
  import opened Codec
  import opened CodecFrame
  import R = CodecRoundTrip
  import L = LayoutEncoder
  import V = CppValues
  import I = CppImage
  import E = CppEncode

  // ---- The same types and values on both sides ----

  /** What both sides have: arrays and maps of bools, integers, handles, and of
      pointers to such. */
  predicate Shared(target: Target) {
    match target
    case TArray(t) => SharedElem(t)
    case TMap(k, v) => SharedElem(k) && SharedElem(v)
    case TStruct(_) => false
  }

  predicate SharedElem(t: Type) {
    match t
    case TInterface(_) => false
    case TPointer(_, target) => Shared(target)
    case _ => true
  }

  function CppType(target: Target): V.Type
    requires Shared(target)
  {
    match target
    case TArray(t) => ArrayType(t)
    case TMap(k, v) => V.MapOf(ArrayType(k), ArrayType(v))
  }

  function ArrayType(t: Type): V.Type
    requires SharedElem(t)
  {
    match t
    case TBool => V.BoolArray(0)
    case TUint(w) => V.PodArray(w.Bytes(), 0)
    case THandle(nullable) => V.HandleArray(nullable, 0)
    case TPointer(nullable, target) => V.RefArray(CppType(target), nullable, 0)
  }

  /** The bytes of the first `n` integers. */
  function PodBytes(vs: seq<Val>, size: nat, n: nat): seq<byte>
    requires n <= |vs|
  {
    if n == 0 then [] else PodBytes(vs, size, n - 1) + LittleEndian(if vs[n - 1].VUint? then vs[n - 1].v else 0, size)
  }

  function CppVal(target: Target, obj: Object): V.Val
    requires Shared(target)
    decreases obj, 2
  {
    match (target, obj)
    case (TArray(t), OArray(elems)) => ArrayVal(t, elems)
    case (TMap(k, v), ORecord(fields)) =>
      if |fields| == 2 then V.Node(0, KidsOf(MapFields(k, v), fields, 2)) else V.Bits([])
    case (_, _) => V.Bits([])
  }

  function ArrayVal(t: Type, elems: seq<Val>): V.Val
    requires SharedElem(t)
    decreases elems, 1, 0
  {
    match t
    case TBool => V.Bits(seq(|elems|, i requires 0 <= i < |elems| => elems[i].VBool? && elems[i].b))
    case TUint(w) => V.Pods(w.Bytes(), |elems|, PodBytes(elems, w.Bytes(), |elems|))
    case THandle(_) => V.Handles(seq(|elems|, i requires 0 <= i < |elems| => if elems[i].VHandle? then elems[i].h else 0))
    case TPointer(_, _) => V.Node(|elems|, KidsOf(Repeat(t, |elems|), elems, |elems|))
  }

  /** Pointers to shared objects. */
  ghost predicate Pointers(ts: seq<Type>) { forall i | 0 <= i < |ts| :: ts[i].TPointer? && Shared(ts[i].target) }

  function KidsOf(ts: seq<Type>, vs: seq<Val>, n: nat): (kids: seq<Option<V.Val>>)
    requires n <= |vs| == |ts| && Pointers(ts)
    ensures |kids| == n
    decreases vs, 0, n
  {
    if n == 0 then [] else KidsOf(ts, vs, n - 1) + [Kid(ts[n - 1], vs[n - 1])]
  }

  function Kid(t: Type, v: Val): Option<V.Val>
    requires t.TPointer? && Shared(t.target)
    decreases v, 3
  {
    if v.VPointer? then Some(CppVal(t.target, v.obj)) else None
  }

  lemma {:induction false} KidAt(ts: seq<Type>, vs: seq<Val>, n: nat, i: nat)
    requires i < n <= |vs| == |ts| && Pointers(ts)
    ensures KidsOf(ts, vs, n)[i] == Kid(ts[i], vs[i])
    decreases n
  {
    if i < n - 1 {
      KidAt(ts, vs, n - 1, i);
    }
  }

  // ---- The elements of a block ----

  /** The encoder after the first `n` values. */
  function Upto(env: Env, ts: seq<Type>, vs: seq<Val>, e: Encoding, n: nat): Option<Encoding>
    requires n <= |ts| == |vs|
  {
    EncodeValues(env, ts[..n], vs[..n], e)
  }

  lemma UptoStep(env: Env, ts: seq<Type>, vs: seq<Val>, e: Encoding, n: nat)
    requires n < |ts| == |vs|
    ensures Upto(env, ts, vs, e, n + 1) ==
      match Upto(env, ts, vs, e, n)
      case None => None
      case Some(e1) => EncodeValue(env, ts[n], vs[n], e1)
    ensures Upto(env, ts, vs, e, 0) == Some(e)
  {
    hide EncodeValue;
    L.ValuesStep(env, ts[..n + 1], vs[..n + 1], e);
    assert ts[..n + 1][..n] == ts[..n] && vs[..n + 1][..n] == vs[..n];
  }

  lemma {:induction false} UptoSome(env: Env, ts: seq<Type>, vs: seq<Val>, e: Encoding, n: nat, i: nat)
    requires i <= n <= |ts| == |vs| && Good(e) && Upto(env, ts, vs, e, n).Some?
    ensures Upto(env, ts, vs, e, i).Some? && Good(Upto(env, ts, vs, e, i).value)
    ensures Extends(Upto(env, ts, vs, e, i).value, Upto(env, ts, vs, e, n).value)
    decreases n - i
  {
    hide Upto, EncodeValue, Good, Extends;
    if i == n {
      UptoKeeps(env, ts, vs, e, n);
      GoodWords(Upto(env, ts, vs, e, n).value);
      ExtendsSelf(Upto(env, ts, vs, e, n).value);
    } else {
      UptoSome(env, ts, vs, e, n, i + 1);
      UptoStep(env, ts, vs, e, i);
      UptoKeeps(env, ts, vs, e, i);
      var e0, e1 := Upto(env, ts, vs, e, i).value, Upto(env, ts, vs, e, i + 1).value;
      ValueKeeps(env, ts[i], vs[i], e0);
      ExtendsTrans(e0, e1, Upto(env, ts, vs, e, n).value);
    }
  }

  lemma UptoKeeps(env: Env, ts: seq<Type>, vs: seq<Val>, e: Encoding, n: nat)
    requires n <= |ts| == |vs| && Good(e) && Upto(env, ts, vs, e, n).Some?
    ensures Good(Upto(env, ts, vs, e, n).value) && Extends(e, Upto(env, ts, vs, e, n).value)
  {
    hide Good, Extends, EncodeValues;
    ValuesKeep(env, ts[..n], vs[..n], e);
  }

  /** A value that was written is in its place in all that follows. */
  lemma ElementLies(env: Env, ts: seq<Type>, vs: seq<Val>, e: Encoding, n: nat, i: nat)
    requires i < n <= |ts| == |vs| && Good(e) && Upto(env, ts, vs, e, n).Some?
    ensures Upto(env, ts, vs, e, i).Some? && Upto(env, ts, vs, e, i).value.stack != []
    ensures var e0 := Upto(env, ts, vs, e, i).value; var (at, bit) := L.At(e0.Top(), ts[i]);
      L.Lies(ts[i], vs[i], e0, at, bit, Upto(env, ts, vs, e, n).value.data)
  {
    hide Upto, EncodeValue, Good, Extends, L.Lies, L.Below, RoundUp;
    UptoSome(env, ts, vs, e, n, i);
    UptoSome(env, ts, vs, e, n, i + 1);
    UptoStep(env, ts, vs, e, i);
    var e0, e1 := Upto(env, ts, vs, e, i).value, Upto(env, ts, vs, e, i + 1).value;
    GoodWords(e0);
    L.ValueLies(env, ts[i], vs[i], e0);
    var (at, bit) := L.At(e0.Top(), ts[i]);
    L.LiesBelow(ts[i], vs[i], e0, at, bit, e1, Upto(env, ts, vs, e, n).value);
  }

  // ---- Where the elements are ----

  /** The bytes of an element that is no bool and no interface. */
  function Wide(t: Type): (n: nat)
    ensures n in {1, 2, 4, 8}
  {
    match t
    case TUint(w) => w.Bytes()
    case THandle(_) => 4
    case _ => 8
  }

  ghost predicate AllWide(ts: seq<Type>, size: nat) {
    forall i | 0 <= i < |ts| :: (ts[i].TUint? || ts[i].THandle? || ts[i].TPointer?) && Wide(ts[i]) == size
  }

  lemma TimesStep(size: nat, n: nat)
    requires size in {1, 2, 4, 8}
    ensures V.Times(size, n + 1) == V.Times(size, n) + size && V.Times(size, 0) == 0
  {
  }

  lemma TimesMultiple(size: nat, n: nat, base: nat)
    requires size in {1, 2, 4, 8} && Multiple(base, 8)
    ensures Multiple(base + V.Times(size, n), size)
  {
    MultipleOf8(base, size);
    TimesIsMultiple(size, n);
    MultipleSum(base, V.Times(size, n), size);
  }

  lemma TimesIsMultiple(size: nat, n: nat)
    requires size in {1, 2, 4, 8}
    ensures Multiple(V.Times(size, n), size)
  {
    hide Multiple;
    if size == 8 {
      Eights(n);
    } else if size == 4 {
      Fours(n);
    } else if size == 2 {
      Twos(n);
    } else {
      Ones(n);
    }
  }

  lemma Eights(n: nat)
    ensures Multiple(8 * n, 8)
  {
  }

  lemma Fours(n: nat)
    ensures Multiple(4 * n, 4)
  {
  }

  lemma Twos(n: nat)
    ensures Multiple(2 * n, 2)
  {
  }

  lemma Ones(n: nat)
    ensures Multiple(n, 1)
  {
  }

  /** Elements of `size` bytes follow each other. */
  lemma {:induction false} WideCursor(env: Env, ts: seq<Type>, vs: seq<Val>, e: Encoding, size: nat, n: nat)
    requires n <= |ts| == |vs| && Good(e) && e.Top().bitOffset == 0 && Multiple(e.Top().offset, 8)
    requires size in {1, 2, 4, 8} && AllWide(ts, size) && Upto(env, ts, vs, e, n).Some?
    ensures Upto(env, ts, vs, e, n).value.stack != []
    ensures var st := Upto(env, ts, vs, e, n).value.Top(); st.bitOffset == 0 && st.offset == e.Top().offset + V.Times(size, n)
    decreases n
  {
    hide Upto, EncodeValue, Good, Extends, RoundUp, Multiple, V.Times;
    GoodWords(e);
    TimesStep(size, 0);
    if n == 0 {
      UptoNone(env, ts, vs, e);
    } else {
      UptoSome(env, ts, vs, e, n, n - 1);
      WideCursor(env, ts, vs, e, size, n - 1);
      UptoStep(env, ts, vs, e, n - 1);
      var e0 := Upto(env, ts, vs, e, n - 1).value;
      R.EncodeAdvances(env, ts[n - 1], vs[n - 1], e0);
      TimesMultiple(size, n - 1, e.Top().offset);
      RoundUpLeast(e0.Top().offset, size, e0.Top().offset);
      TimesStep(size, n - 1);
    }
  }

  lemma UptoNone(env: Env, ts: seq<Type>, vs: seq<Val>, e: Encoding)
    requires |ts| == |vs|
    ensures Upto(env, ts, vs, e, 0) == Some(e)
  {
    L.NoValues(env, e);
    assert ts[..0] == [] && vs[..0] == [];
  }

  lemma WidePlace(env: Env, ts: seq<Type>, vs: seq<Val>, e: Encoding, size: nat, n: nat, i: nat)
    requires i < n <= |ts| == |vs| && Good(e) && e.Top().bitOffset == 0 && Multiple(e.Top().offset, 8)
    requires size in {1, 2, 4, 8} && AllWide(ts, size) && Upto(env, ts, vs, e, n).Some?
    ensures Upto(env, ts, vs, e, i).Some?
    ensures L.Lies(ts[i], vs[i], Upto(env, ts, vs, e, i).value, e.Top().offset + V.Times(size, i), 0, Upto(env, ts, vs, e, n).value.data)
  {
    hide Upto, EncodeValue, Good, Extends, RoundUp, Multiple, V.Times, L.Lies;
    GoodWords(e);
    UptoSome(env, ts, vs, e, n, i);
    WideCursor(env, ts, vs, e, size, i);
    ElementLies(env, ts, vs, e, n, i);
    TimesMultiple(size, i, e.Top().offset);
    var at := e.Top().offset + V.Times(size, i);
    RoundUpLeast(at, size, at);
  }

  /** Bools fill their bytes bit by bit. */
  lemma {:induction false} BitCursor(env: Env, vs: seq<Val>, e: Encoding, n: nat)
    requires n <= |vs| && Good(e) && e.Top().bitOffset == 0 && Upto(env, Repeat(TBool, |vs|), vs, e, n).Some?
    ensures var e' := Upto(env, Repeat(TBool, |vs|), vs, e, n).value;
      e'.stack != [] && e'.Top().offset == e.Top().offset + n / 8 && e'.Top().bitOffset == n % 8 && e'.handles == e.handles && |e'.data| == |e.data|
    decreases n
  {
    hide Upto, Good, Extends, Multiple, WriteBool;
    var ts := Repeat(TBool, |vs|);
    if n == 0 {
      UptoNone(env, ts, vs, e);
      GoodWords(e);
    } else {
      UptoSome(env, ts, vs, e, n, n - 1);
      BitCursor(env, vs, e, n - 1);
      UptoStep(env, ts, vs, e, n - 1);
      var e0 := Upto(env, ts, vs, e, n - 1).value;
      if vs[n - 1].VBool? {
        WriteBoolKeeps(e0, vs[n - 1].b);
        GoodWords(WriteBool(e0, vs[n - 1].b).value);
        NextBit(n - 1);
      }
    }
  }

  lemma NextBit(n: nat)
    ensures (n % 8 + 1) / 8 + n / 8 == (n + 1) / 8 && (n % 8 + 1) % 8 == (n + 1) % 8
  {
  }

  lemma BitPlace(env: Env, vs: seq<Val>, e: Encoding, n: nat, i: nat)
    requires i < n <= |vs| && Good(e) && e.Top().bitOffset == 0 && Upto(env, Repeat(TBool, |vs|), vs, e, n).Some?
    ensures var data, at := Upto(env, Repeat(TBool, |vs|), vs, e, n).value.data, e.Top().offset + i / 8;
      at < |data| && vs[i].VBool? && Bit(data[at], i % 8) == vs[i].b
  {
    hide Upto, EncodeValue, Good, Extends;
    UptoSome(env, Repeat(TBool, |vs|), vs, e, n, i);
    BitCursor(env, vs, e, i);
    ElementLies(env, Repeat(TBool, |vs|), vs, e, n, i);
  }

  // ---- What the bytes say ----

  lemma HasU32(data: seq<byte>, at: nat, x: nat)
    requires L.Has(data, at, LittleEndian(x, 4)) && x < 0x1_0000_0000
    ensures at + 4 <= |data| && I.U32(data, at) == x
  {
    Powers();
    LittleEndianRoundTrip(x, 4);
  }

  lemma HasU64(data: seq<byte>, at: nat, x: nat)
    requires L.Has(data, at, LittleEndian(x, 8)) && x < R.MEMORY
    ensures at + 8 <= |data| && I.U64(data, at) == x
  {
    Powers();
    LittleEndianRoundTrip(x, 8);
  }

  // ---- Images in growing data ----

  lemma LongerU32(data: seq<byte>, more: seq<byte>, a: nat)
    requires a + 4 <= |data| && data <= more
    ensures I.U32(more, a) == I.U32(data, a)
  {
    assert more[a..a + 4] == data[a..a + 4];
  }

  lemma LongerU64(data: seq<byte>, more: seq<byte>, a: nat)
    requires a + 8 <= |data| && data <= more
    ensures I.U64(more, a) == I.U64(data, a)
  {
    assert more[a..a + 8] == data[a..a + 8];
  }

  /** More data behind a value makes no difference to it. */
  lemma {:induction false} AtLonger(mode: I.Mode, data: seq<byte>, more: seq<byte>, p: nat, v: V.Val)
    requires I.At(mode, data, p, v) && data <= more
    ensures I.At(mode, more, p, v)
    decreases v, 0
  {
    hide I.U32, I.U64, V.Size, I.KidAt, V.Block;
    I.SizeIsBlock(v);
    LongerU32(data, more, p);
    LongerU32(data, more, p + 4);
    match v
    case Pods(_, _, bytes) => assert more[p + 8..p + 8 + |bytes|] == data[p + 8..p + 8 + |bytes|];
    case Bits(_) =>
    case Handles(handles) =>
      forall i | 0 <= i < |handles| ensures I.U32(more, p + 8 + 4 * i) == I.HandleCode(mode, handles, i) {
        LongerU32(data, more, p + 8 + 4 * i);
      }
    case Node(_, kids) =>
      forall i | 0 <= i < |kids| ensures I.KidAt(mode, more, p, v, kids, i) {
        I.KidInside(p, v, i);
        I.KidMeans(mode, data, p, v, i);
        LongerU64(data, more, I.Slot(p, i));
        if kids[i].Some? {
          AtLonger(mode.Later(|V.HandlesBefore(kids, i)|), data, more, I.KidPos(p, v, i), kids[i].value);
        }
        I.KidMeans(mode, more, p, v, i);
      }
  }

  /** What lies behind the open block stays as it is. */
  lemma AtExtends(mode: I.Mode, e: Encoding, e': Encoding, p: nat, v: V.Val)
    requires I.At(mode, e.data, p, v) && Extends(e, e') && e.Top().limit <= p
    ensures I.At(mode, e'.data, p, v)
  {
    hide I.At, V.Size, Low;
    var more := e.data + e'.data[|e.data|..];
    AtLonger(mode, e.data, more, p, v);
    AtInside(mode, e.data, p, v);
    I.AtSame(mode, more, e'.data, p, v);
  }

  lemma AtInside(mode: I.Mode, data: seq<byte>, p: nat, v: V.Val)
    requires I.At(mode, data, p, v)
    ensures p + V.Size(v) <= |data|
  {
  }

  lemma BlockSize(storage: nat)
    ensures RoundUp(8 + storage, 8) == 8 + V.Align8(storage)
  {
    hide RoundUp, Multiple;
    var a, b := RoundUp(8 + storage, 8), 8 + V.Align8(storage);
    assert Multiple(b, 8) by { WordsMultiple(V.Align8(storage)); }
    RoundUpLeast(8 + storage, 8, b);
    MultipleGap(a, b, 8);
  }

  lemma WordsMultiple(n: nat)
    requires n % 8 == 0
    ensures Multiple(8 + n, 8)
  {
  }

  // ---- Objects ----

  /** The block that was opened for an object, before its first element. */
  function Opened(env: Env, target: Target, obj: Object, e: Encoding): Encoding
    requires BodyOf(env, target, obj).Some?
  {
    var b := BodyOf(env, target, obj).value;
    if b.size >= HEADER_SIZE then Start(e, b.size, b.elements, b.check) else e
  }

  /** The header of the block that was opened stays until the end. */
  lemma HeaderStays(env: Env, b: Body, vs: seq<Val>, e: Encoding)
    requires Multiple(|e.data|, 8) && HEADER_SIZE <= b.size < UINT32 && b.elements < UINT32
    requires EncodeValues(env, b.types, vs, Start(e, b.size, b.elements, b.check)).Some?
    ensures var e2 := EncodeValues(env, b.types, vs, Start(e, b.size, b.elements, b.check)).value;
      |e.data| + 8 <= |e2.data| && I.U32(e2.data, |e.data|) == b.size && I.U32(e2.data, |e.data| + 4) == b.elements
  {
    hide EncodeValues, Start, RoundUp, Multiple, Good, Extends, LittleEndian, I.U32;
    var e1 := Start(e, b.size, b.elements, b.check);
    var e2 := EncodeValues(env, b.types, vs, e1).value;
    StartKeeps(e, b.size, b.elements, b.check);
    ValuesKeep(env, b.types, vs, e1);
    R.HeaderIsThere(b, e, e2, e2.data);
    HasU32(e2.data, |e.data|, b.size);
    HasU32(e2.data, |e.data| + 4, b.elements);
  }

  lemma ObjectOpened(env: Env, target: Target, obj: Object, e: Encoding)
    requires Multiple(|e.data|, 8) && EncodeObject(env, target, obj, e).Some?
    ensures var b := BodyOf(env, target, obj).value; var e1, e', vs := Opened(env, target, obj, e), EncodeObject(env, target, obj, e).value, R.Contents(obj);
      && BodyOf(env, target, obj).Some? && |b.types| == |vs|
      && Good(e1) && e1.Top().offset == |e.data| + 8 && e1.Top().bitOffset == 0 && Multiple(e1.Top().offset, 8)
      && e1.Top().limit == |e1.data| == |e.data| + RoundUp(b.size, 8) && e1.handles == e.handles
      && Upto(env, b.types, vs, e1, |vs|).Some?
      && e'.data == Upto(env, b.types, vs, e1, |vs|).value.data && e'.handles == Upto(env, b.types, vs, e1, |vs|).value.handles
      && |e.data| + 8 <= |e'.data| && I.U32(e'.data, |e.data|) == b.size && I.U32(e'.data, |e.data| + 4) == b.elements
  {
    hide EncodeValues, Start, RoundUp, Multiple, Good, Extends, LittleEndian, I.U32, Finish;
    R.EncodeObjectUnfold(env, target, obj, e, 0);
    R.BodySize(env, target, obj);
    var b, vs := BodyOf(env, target, obj).value, R.Contents(obj);
    var e1, e' := Start(e, b.size, b.elements, b.check), EncodeObject(env, target, obj, e).value;
    StartKeeps(e, b.size, b.elements, b.check);
    FreshBit(e, b.size, b.elements, b.check);
    NextMultiple(|e.data|, 8);
    var e2 := EncodeValues(env, b.types, vs, e1).value;
    ValuesFit(env, b.types, vs, e1);
    assert b.types[..|vs|] == b.types && vs[..|vs|] == vs;
    HeaderStays(env, b, vs, e);
    FinishKeeps(e2);
  }

  lemma FinishKeeps(e: Encoding)
    ensures Finish(e).Some? ==> Finish(e).value.data == e.data && Finish(e).value.handles == e.handles
  {
  }

  lemma FreshBit(e: Encoding, size: nat, elements: nat, check: bool)
    requires size >= HEADER_SIZE
    ensures Start(e, size, elements, check).stack != [] && Start(e, size, elements, check).Top().bitOffset == 0
  {
    hide RoundUp, LittleEndian;
  }

  lemma ValuesFit(env: Env, ts: seq<Type>, vs: seq<Val>, e: Encoding)
    requires EncodeValues(env, ts, vs, e).Some?
    ensures |ts| == |vs|
  {
  }

  /** The encoded object is the encoded image of the C++ value, with its handles. */
  ghost predicate Imaged(e: Encoding, e': Encoding, v: V.Val) {
    && I.At(I.Encoded(|e.handles|), e'.data, |e.data|, v)
    && |e'.data| == |e.data| + V.Size(v) && e'.handles == e.handles + V.HandlesOf(v)
  }

  lemma StorageMatches(t: Type, elems: seq<Val>)
    requires SharedElem(t)
    ensures V.Storage(ArrayVal(t, elems)) == BytesForBits(|elems| * t.BitSize()) && V.Count(ArrayVal(t, elems)) == |elems|
  {
    hide PodBytes, KidsOf;
    var n := |elems|;
    match t
    case TBool =>
    case TUint(w) => BitsAreBytes(n, w.Bytes());
    case THandle(_) => BitsAreBytes(n, 4);
    case TPointer(_, _) => BitsAreBytes(n, 8);
  }

  lemma BitsAreBytes(n: nat, size: nat)
    requires size in {1, 2, 4, 8}
    ensures BytesForBits(n * (8 * size)) == V.Times(size, n)
  {
    if size == 8 {
      assert n * 64 == 8 * (8 * n);
    } else if size == 4 {
      assert n * 32 == 8 * (4 * n);
    } else if size == 2 {
      assert n * 16 == 8 * (2 * n);
    } else {
      assert n * 8 == 8 * n;
    }
  }

  /** What is common to all arrays without pointers: once the elements are right, the
      image is. */
  lemma LeafImaged(env: Env, t: Type, elems: seq<Val>, e: Encoding)
    requires Multiple(|e.data|, 8) && SharedElem(t) && !t.TPointer? && EncodeObject(env, TArray(t), OArray(elems), e).Some?
    requires var e' := EncodeObject(env, TArray(t), OArray(elems), e).value; var v := ArrayVal(t, elems); var p := |e.data|;
      && |e'.data| == |Opened(env, TArray(t), OArray(elems), e).data| && e'.handles == e.handles + V.HandlesOf(v)
      && (v.Pods? ==> |v.data| == V.Times(v.size, v.count) && p + 8 + |v.data| <= |e'.data| && e'.data[p + 8..p + 8 + |v.data|] == v.data)
      && (v.Bits? ==> p + 8 + (|v.bits| + 7) / 8 <= |e'.data| && I.BitsAt(e'.data, p, v.bits))
      && (v.Handles? ==> p + 8 + 4 * |v.handles| <= |e'.data| && I.HandlesAt(I.Encoded(|e.handles|), e'.data, p, v.handles))
    ensures Imaged(e, EncodeObject(env, TArray(t), OArray(elems), e).value, ArrayVal(t, elems))
  {
    hide EncodeObject, Upto, Good, RoundUp, I.U32, I.BitsAt, I.HandlesAt, PodBytes, KidsOf, Opened, V.HandlesOf;
    ObjectOpened(env, TArray(t), OArray(elems), e);
    StorageMatches(t, elems);
    BlockSize(BytesForBits(|elems| * t.BitSize()));
    WordsOf(|e.data|);
  }

  lemma WordsOf(n: nat)
    requires Multiple(n, 8)
    ensures n % 8 == 0
  {
  }

  lemma BitsImaged(env: Env, elems: seq<Val>, e: Encoding)
    requires Multiple(|e.data|, 8) && EncodeObject(env, TArray(TBool), OArray(elems), e).Some?
    ensures Imaged(e, EncodeObject(env, TArray(TBool), OArray(elems), e).value, ArrayVal(TBool, elems))
  {
    hide EncodeObject, Upto, Good, RoundUp, I.U32, Multiple, Opened, Imaged;
    var n := |elems|;
    ObjectOpened(env, TArray(TBool), OArray(elems), e);
    var e1, e' := Opened(env, TArray(TBool), OArray(elems), e), EncodeObject(env, TArray(TBool), OArray(elems), e).value;
    BitCursor(env, elems, e1, n);
    StorageMatches(TBool, elems);
    BlockSize(BytesForBits(n * 1));
    var bits := ArrayVal(TBool, elems).bits;
    forall i | 0 <= i < n ensures Bit(e'.data[|e.data| + 8 + i / 8], i % 8) == bits[i] {
      BitPlace(env, elems, e1, n, i);
    }
    assert e.handles + [] == e.handles;
    LeafImaged(env, TBool, elems, e);
  }

  // ---- Integers ----

  lemma {:induction false} UintsKeep(env: Env, w: Width, vs: seq<Val>, e: Encoding, n: nat)
    requires n <= |vs| && Good(e) && Upto(env, Repeat(TUint(w), |vs|), vs, e, n).Some?
    ensures var e' := Upto(env, Repeat(TUint(w), |vs|), vs, e, n).value; e'.handles == e.handles && |e'.data| == |e.data|
    decreases n
  {
    hide Upto, Good, Extends, WriteUint;
    var ts := Repeat(TUint(w), |vs|);
    if n == 0 {
      UptoNone(env, ts, vs, e);
    } else {
      UptoSome(env, ts, vs, e, n, n - 1);
      UintsKeep(env, w, vs, e, n - 1);
      UptoStep(env, ts, vs, e, n - 1);
      if vs[n - 1].VUint? {
        WriteUintKeeps(Upto(env, ts, vs, e, n - 1).value, w.Bytes(), vs[n - 1].v);
      }
    }
  }

  lemma {:induction false} PodsPlaced(env: Env, w: Width, vs: seq<Val>, e: Encoding, n: nat, m: nat)
    requires n <= m <= |vs| && Good(e) && e.Top().bitOffset == 0 && Multiple(e.Top().offset, 8)
    requires Upto(env, Repeat(TUint(w), |vs|), vs, e, m).Some?
    ensures |PodBytes(vs, w.Bytes(), n)| == V.Times(w.Bytes(), n)
    ensures e.Top().offset <= |Upto(env, Repeat(TUint(w), |vs|), vs, e, m).value.data|
    ensures L.Has(Upto(env, Repeat(TUint(w), |vs|), vs, e, m).value.data, e.Top().offset, PodBytes(vs, w.Bytes(), n))
    decreases n
  {
    hide Upto, Good, Extends, Multiple, LittleEndian, V.Times;
    var ts, size := Repeat(TUint(w), |vs|), w.Bytes();
    TimesStep(size, 0);
    GoodWords(e);
    UintsKeep(env, w, vs, e, m);
    InBlock(e);
    if n > 0 {
      PodsPlaced(env, w, vs, e, n - 1, m);
      WidePlace(env, ts, vs, e, size, m, n - 1);
      TimesStep(size, n - 1);
      HasBoth(Upto(env, ts, vs, e, m).value.data, e.Top().offset, PodBytes(vs, size, n - 1), LittleEndian(vs[n - 1].v, size));
    }
  }

  lemma InBlock(e: Encoding)
    requires Good(e)
    ensures e.Top().offset <= |e.data|
  {
  }

  lemma HasBoth(data: seq<byte>, at: nat, x: seq<byte>, y: seq<byte>)
    requires L.Has(data, at, x) && L.Has(data, at + |x|, y)
    ensures L.Has(data, at, x + y)
  {
    assert data[at..at + |x| + |y|] == data[at..at + |x|] + data[at + |x|..at + |x| + |y|];
  }

  lemma PodsImaged(env: Env, w: Width, elems: seq<Val>, e: Encoding)
    requires Multiple(|e.data|, 8) && EncodeObject(env, TArray(TUint(w)), OArray(elems), e).Some?
    ensures Imaged(e, EncodeObject(env, TArray(TUint(w)), OArray(elems), e).value, ArrayVal(TUint(w), elems))
    ensures |ArrayVal(TUint(w), elems).data| == V.Times(w.Bytes(), |elems|)
  {
    hide EncodeObject, Upto, Good, RoundUp, I.U32, Multiple, Opened, Imaged, PodBytes;
    var n := |elems|;
    ObjectOpened(env, TArray(TUint(w)), OArray(elems), e);
    var e1 := Opened(env, TArray(TUint(w)), OArray(elems), e);
    UintsKeep(env, w, elems, e1, n);
    PodsPlaced(env, w, elems, e1, n, n);
    assert e.handles + [] == e.handles;
    LeafImaged(env, TUint(w), elems, e);
  }

  // ---- Handles ----

  function HandleSeq(vs: seq<Val>): (hs: seq<nat>)
    ensures |hs| == |vs|
  {
    seq(|vs|, i requires 0 <= i < |vs| => if vs[i].VHandle? then vs[i].h else 0)
  }

  lemma {:induction false} HandleElementsKeep(env: Env, nullable: bool, vs: seq<Val>, e: Encoding, n: nat)
    requires n <= |vs| && Good(e) && Upto(env, Repeat(THandle(nullable), |vs|), vs, e, n).Some?
    ensures var e' := Upto(env, Repeat(THandle(nullable), |vs|), vs, e, n).value;
      e'.handles == e.handles + V.Valid(HandleSeq(vs)[..n]) && |e'.data| == |e.data| && |e'.handles| <= INVALID_INDEX + |e.handles|
    ensures forall i | 0 <= i < n :: vs[i].VHandle? && (vs[i].h == 0 ==> nullable)
    decreases n
  {
    hide Upto, Good, Extends, WriteUint, WriteHandle, V.Valid;
    var ts, hs := Repeat(THandle(nullable), |vs|), HandleSeq(vs);
    if n == 0 {
      UptoNone(env, ts, vs, e);
      NoneValid(hs);
    } else {
      UptoSome(env, ts, vs, e, n, n - 1);
      HandleElementsKeep(env, nullable, vs, e, n - 1);
      UptoStep(env, ts, vs, e, n - 1);
      E.ValidNext(hs, n - 1);
      var e0 := Upto(env, ts, vs, e, n - 1).value;
      if vs[n - 1].VHandle? {
        if vs[n - 1].h != INVALID_HANDLE {
          WriteHandleKeeps(e0, vs[n - 1].h);
          HandleRoom(e0, vs[n - 1].h);
        } else {
          WriteUintKeeps(e0, 4, INVALID_INDEX);
        }
      }
    }
  }

  lemma NoneValid(hs: seq<nat>)
    ensures V.Valid(hs[..0]) == []
  {
  }

  lemma HandleRoom(e: Encoding, h: Handle)
    requires WriteHandle(e, h).Some?
    ensures |e.handles| < INVALID_INDEX
  {
    hide WriteUint;
  }

  lemma HandlesImaged(env: Env, nullable: bool, elems: seq<Val>, e: Encoding)
    requires Multiple(|e.data|, 8) && EncodeObject(env, TArray(THandle(nullable)), OArray(elems), e).Some?
    ensures Imaged(e, EncodeObject(env, TArray(THandle(nullable)), OArray(elems), e).value, ArrayVal(THandle(nullable), elems))
  {
    hide EncodeObject, Upto, Good, RoundUp, I.U32, Multiple, Opened, Imaged, V.Valid;
    var n, t, hs := |elems|, THandle(nullable), HandleSeq(elems);
    ObjectOpened(env, TArray(t), OArray(elems), e);
    var e1, e' := Opened(env, TArray(t), OArray(elems), e), EncodeObject(env, TArray(t), OArray(elems), e).value;
    HandleElementsKeep(env, nullable, elems, e1, n);
    assert hs[..n] == hs == ArrayVal(t, elems).handles;
    StorageMatches(t, elems);
    BlockSize(BytesForBits(n * 32));
    forall i | 0 <= i < n ensures I.U32(e'.data, |e.data| + 8 + 4 * i) == I.HandleCode(I.Encoded(|e.handles|), hs, i) {
      HandleImaged(env, nullable, elems, e1, i);
    }
    LeafImaged(env, t, elems, e);
  }

  lemma HandleImaged(env: Env, nullable: bool, elems: seq<Val>, e: Encoding, i: nat)
    requires i < |elems| && Good(e) && e.Top().bitOffset == 0 && Multiple(e.Top().offset, 8)
    requires Upto(env, Repeat(THandle(nullable), |elems|), elems, e, |elems|).Some?
    ensures var data, at := Upto(env, Repeat(THandle(nullable), |elems|), elems, e, |elems|).value.data, e.Top().offset + 4 * i;
      at + 4 <= |data| && I.U32(data, at) == I.HandleCode(I.Encoded(|e.handles|), HandleSeq(elems), i)
  {
    hide Upto, Good, I.U32, Multiple, V.Valid, LittleEndian, L.Has;
    var ts, n := Repeat(THandle(nullable), |elems|), |elems|;
    GoodWords(e);
    UptoSome(env, ts, elems, e, n, i);
    HandleElementsKeep(env, nullable, elems, e, n);
    HandleElementsKeep(env, nullable, elems, e, i);
    WidePlace(env, ts, elems, e, 4, n, i);
    var e0 := Upto(env, ts, elems, e, i).value;
    IndexFits(env, nullable, elems, e, n, i);
    HasU32(Upto(env, ts, elems, e, n).value.data, e.Top().offset + 4 * i, L.IndexOf(e0, elems[i].h));
  }

  lemma IndexFits(env: Env, nullable: bool, elems: seq<Val>, e: Encoding, n: nat, i: nat)
    requires i < n <= |elems| && Good(e) && Upto(env, Repeat(THandle(nullable), |elems|), elems, e, n).Some?
    ensures Upto(env, Repeat(THandle(nullable), |elems|), elems, e, i).Some?
    ensures elems[i].VHandle? ==> L.IndexOf(Upto(env, Repeat(THandle(nullable), |elems|), elems, e, i).value, elems[i].h) < 0x1_0000_0000
  {
    hide Upto, Good, WriteUint, WriteHandle, Extends;
    var ts := Repeat(THandle(nullable), |elems|);
    UptoSome(env, ts, elems, e, n, i);
    UptoSome(env, ts, elems, e, n, i + 1);
    UptoStep(env, ts, elems, e, i);
    if elems[i].VHandle? && elems[i].h != INVALID_HANDLE {
      HandleRoom(Upto(env, ts, elems, e, i).value, elems[i].h);
    }
  }

  // ---- Pointers ----

  /** What one pointer and the object behind it add. */
  lemma {:induction false} KidAdds(env: Env, t: Type, v: Val, e: Encoding)
    requires t.TPointer? && Shared(t.target) && Good(e) && EncodeValue(env, t, v, e).Some?
    requires |EncodeValue(env, t, v, e).value.data| < R.MEMORY
    ensures var e' := EncodeValue(env, t, v, e).value; var kid := Kid(t, v);
      && |e'.data| == |e.data| + V.SizeOf(kid) && e'.handles == e.handles + V.HandlesIn(kid)
      && (v.VNull? || v.VPointer?) && (v.VNull? ==> t.nullable)
      && (kid.Some? ==> I.At(I.Encoded(|e.handles|), e'.data, |e.data|, kid.value))
    decreases v, 3
  {
    hide Good, Extends, WriteUint, WritePointer, EncodeObject, CppVal, V.Size, V.HandlesOf, I.At;
    if v.VNull? {
      WriteUintKeeps(e, 8, 0);
      assert e.handles + [] == e.handles;
    } else {
      var e1 := WritePointer(e).value;
      WritePointerKeeps(e);
      GoodWords(e1);
      ObjectImaged(env, t.target, v.obj, e1);
    }
  }

  lemma {:induction false} KidsAdd(env: Env, ts: seq<Type>, vs: seq<Val>, e: Encoding, n: nat)
    requires n <= |ts| == |vs| && Pointers(ts) && Good(e) && Upto(env, ts, vs, e, n).Some? && |Upto(env, ts, vs, e, n).value.data| < R.MEMORY
    ensures var e', kids := Upto(env, ts, vs, e, n).value, KidsOf(ts, vs, |vs|);
      |e'.data| == |e.data| + V.Before(kids, n) && e'.handles == e.handles + V.HandlesBefore(kids, n)
    decreases vs, 2, n
  {
    hide Upto, Good, Extends, EncodeValue, KidsOf, Kid, V.SizeOf, V.HandlesIn, I.At;
    var kids := KidsOf(ts, vs, |vs|);
    if n == 0 {
      UptoNone(env, ts, vs, e);
      assert e.handles + [] == e.handles;
    } else {
      UptoSome(env, ts, vs, e, n, n - 1);
      Shorter(Upto(env, ts, vs, e, n - 1).value, Upto(env, ts, vs, e, n).value);
      KidsAdd(env, ts, vs, e, n - 1);
      UptoStep(env, ts, vs, e, n - 1);
      KidAt(ts, vs, |vs|, n - 1);
      KidAdds(env, ts[n - 1], vs[n - 1], Upto(env, ts, vs, e, n - 1).value);
      assert e.handles + V.HandlesBefore(kids, n) == e.handles + V.HandlesBefore(kids, n - 1) + V.HandlesIn(kids[n - 1]);
    }
  }

  lemma Shorter(e: Encoding, e': Encoding)
    requires Extends(e, e')
    ensures |e.data| <= |e'.data| && e.stack != [] && e'.stack != [] && e'.Top().limit == e.Top().limit
  {
  }

  /** One pointer and the object behind it, in the final data. */
  lemma {:induction false} KidImaged(env: Env, ts: seq<Type>, vs: seq<Val>, e: Encoding, i: nat, p: nat, v: V.Val)
    requires i < |ts| == |vs| && Pointers(ts) && Good(e) && e.Top().bitOffset == 0 && Multiple(e.Top().offset, 8)
    requires Upto(env, ts, vs, e, |vs|).Some? && |Upto(env, ts, vs, e, |vs|).value.data| < R.MEMORY
    requires v.Node? && v.kids == KidsOf(ts, vs, |vs|)
    requires e.Top().offset == p + 8 && e.Top().limit == |e.data| == p + V.Block(v)
    ensures p + V.Block(v) <= |Upto(env, ts, vs, e, |vs|).value.data|
    ensures I.KidAt(I.Encoded(|e.handles|), Upto(env, ts, vs, e, |vs|).value.data, p, v, v.kids, i)
    decreases vs, 3
  {
    hide Upto, Good, Extends, EncodeValue, KidsOf, V.Before, V.HandlesBefore, I.At, I.KidAt, I.U64, V.Block, L.Has, LittleEndian, Multiple, Kid;
    var n := |vs|;
    var all := Upto(env, ts, vs, e, n).value;
    UptoSome(env, ts, vs, e, n, i);
    UptoSome(env, ts, vs, e, n, i + 1);
    UptoKeeps(env, ts, vs, e, i);
    UptoKeeps(env, ts, vs, e, i + 1);
    UptoStep(env, ts, vs, e, i);
    var e0, e1 := Upto(env, ts, vs, e, i).value, Upto(env, ts, vs, e, i + 1).value;
    Shorter(e, e0);
    Shorter(e, e1);
    Shorter(e0, all);
    Shorter(e1, all);
    KidsAdd(env, ts, vs, e, i);
    KidAt(ts, vs, n, i);
    KidAdds(env, ts[i], vs[i], e0);
    WidePlace(env, ts, vs, e, 8, n, i);
    I.KidInside(p, v, i);
    var slot := I.Slot(p, i);
    KidSlot(ts[i], vs[i], e0, slot, all.data);
    if v.kids[i].Some? {
      AtExtends(I.Encoded(|e0.handles|), e1, all, |e0.data|, v.kids[i].value);
    }
    I.KidMeans(I.Encoded(|e.handles|), all.data, p, v, i);
    KidCases(ts[i], vs[i]);
  }

  lemma KidCases(t: Type, v: Val)
    requires t.TPointer? && Shared(t.target)
    ensures Kid(t, v).Some? <==> v.VPointer?
  {
  }

  lemma KidSlot(t: Type, v: Val, e: Encoding, at: nat, data: seq<byte>)
    requires t.TPointer? && L.Lies(t, v, e, at, 0, data) && |e.data| < R.MEMORY
    ensures at + 8 <= |data| && I.U64(data, at) == if v.VPointer? then |e.data| - at else 0
  {
    hide L.Has, I.U64, LittleEndian;
    HasU64(data, at, if v.VPointer? then |e.data| - at else 0);
  }

  /** An object of pointers, an array or a map. */
  lemma {:induction false} NodeImaged(env: Env, target: Target, obj: Object, e: Encoding, v: V.Val)
    requires Multiple(|e.data|, 8) && EncodeObject(env, target, obj, e).Some? && |EncodeObject(env, target, obj, e).value.data| < R.MEMORY
    requires BodyOf(env, target, obj).Some? && Pointers(BodyOf(env, target, obj).value.types)
    requires var b, vs := BodyOf(env, target, obj).value, R.Contents(obj);
      |b.types| == |vs| && v == V.Node(b.elements, KidsOf(b.types, vs, |vs|)) && b.size == 8 + 8 * |vs|
    ensures Imaged(e, EncodeObject(env, target, obj, e).value, v)
    decreases R.Contents(obj), 4
  {
    hide EncodeObject, Upto, Good, RoundUp, I.U32, Multiple, Opened, KidsOf, I.KidAt, BodyOf;
    ObjectOpened(env, target, obj, e);
    var b, vs, p := BodyOf(env, target, obj).value, R.Contents(obj), |e.data|;
    var e1, e' := Opened(env, target, obj, e), EncodeObject(env, target, obj, e).value;
    BlockSize(8 * |vs|);
    WordsOf(p);
    KidsAdd(env, b.types, vs, e1, |vs|);
    forall i | 0 <= i < |vs| ensures I.KidAt(I.Encoded(|e.handles|), e'.data, p, v, v.kids, i) {
      KidImaged(env, b.types, vs, e1, i, p, v);
    }
    assert V.Size(v) == V.Block(v) + V.Before(v.kids, |v.kids|);
    assert V.HandlesOf(v) == V.HandlesBefore(v.kids, |v.kids|);
    assert I.At(I.Encoded(|e.handles|), e'.data, p, v);
  }

  /** Whatever Go encodes is the encoded image of the same value in C++. */
  lemma {:induction false} ObjectImaged(env: Env, target: Target, obj: Object, e: Encoding)
    requires Shared(target) && Multiple(|e.data|, 8) && EncodeObject(env, target, obj, e).Some?
    requires |EncodeObject(env, target, obj, e).value.data| < R.MEMORY
    ensures Imaged(e, EncodeObject(env, target, obj, e).value, CppVal(target, obj))
    decreases obj, 5
  {
    hide EncodeObject, Imaged, Multiple, PodBytes, KidsOf;
    BodyKnown(env, target, obj, e);
    if target.TMap? {
      NodeImaged(env, target, obj, e, CppVal(target, obj));
    } else {
      match target.elem
      case TBool => BitsImaged(env, obj.elems, e);
      case TUint(w) => PodsImaged(env, w, obj.elems, e);
      case THandle(nullable) => HandlesImaged(env, nullable, obj.elems, e);
      case TPointer(_, _) =>
        BitsAreBytes(|obj.elems|, 8);
        assert CppVal(target, obj) == ArrayVal(target.elem, obj.elems);
        assert ArrayVal(target.elem, obj.elems) == V.Node(|obj.elems|, KidsOf(Repeat(target.elem, |obj.elems|), obj.elems, |obj.elems|));
        NodeImaged(env, target, obj, e, CppVal(target, obj));
    }
  }

  lemma BodyKnown(env: Env, target: Target, obj: Object, e: Encoding)
    requires Shared(target) && EncodeObject(env, target, obj, e).Some?
    ensures BodyOf(env, target, obj).Some? && (target.TArray? <==> obj.OArray?) && (target.TMap? ==> MapShape(obj.fields))
  {
    hide EncodeValues, Start;
  }
}
