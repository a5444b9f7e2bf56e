/**
  The types of values that go from Go to C++, and the whole way: what Go encodes, the
  C++ validator accepts, and the same value is read from it.
*/
module InteropTypes {
  import opened Wire
  import opened Layout
  import opened Codec
  import opened CodecFrame
  import opened CodecLaws
  import opened Interop
  import R = CodecRoundTrip
  import V = CppValues
  import I = CppImage
  import E = CppEncode
  import W = CppRewrite
  import C = CppRead
  import A = CppArrival
  import T = CppTransfer
  import D = CppVisit

  // ---- What Go encodes has its type ----

  lemma {:induction false} EncodedIsTyped(env: Env, t: Type, v: Val, e: Encoding)
    requires EncodeValue(env, t, v, e).Some?
    ensures Typed(env, t, v)
    decreases v, 1
  {
    hide WriteUint, WriteBool, WriteHandle, WriteInterface, WritePointer, EncodeObject, TypedObject;
    if t.TPointer? && v.VPointer? {
      EncodedObjectIsTyped(env, t.target, v.obj, WritePointer(e).value);
    }
  }

  lemma {:induction false} EncodedObjectIsTyped(env: Env, target: Target, obj: Object, e: Encoding)
    requires EncodeObject(env, target, obj, e).Some?
    ensures TypedObject(env, target, obj)
    decreases obj, 1
  {
    hide EncodeValues, TypedAll, Start, Finish;
    R.EncodeObjectUnfold(env, target, obj, e, 0);
    var b := BodyOf(env, target, obj).value;
    EncodedAllTyped(env, b.types, R.Contents(obj), Start(e, b.size, b.elements, b.check));
  }

  lemma {:induction false} EncodedAllTyped(env: Env, ts: seq<Type>, vs: seq<Val>, e: Encoding)
    requires EncodeValues(env, ts, vs, e).Some?
    ensures TypedAll(env, ts, vs)
    decreases vs, 0
  {
    hide EncodeValue, Typed;
    if vs != [] {
      EncodedIsTyped(env, ts[0], vs[0], e);
      EncodedAllTyped(env, ts[1..], vs[1..], EncodeValue(env, ts[0], vs[0], e).value);
    }
  }

  // ---- The type in C++ ----

  lemma {:induction false} TypeWellFormed(target: Target)
    requires Shared(target)
    ensures V.WellFormed(CppType(target))
    decreases target
  {
    match target
    case TArray(t) => ElemWellFormed(t);
    case TMap(k, v) =>
      ElemWellFormed(k);
      ElemWellFormed(v);
  }

  lemma {:induction false} ElemWellFormed(t: Type)
    requires SharedElem(t)
    ensures V.WellFormed(ArrayType(t)) && !ArrayType(t).MapOf? && V.Expected(ArrayType(t)) == 0
    decreases t
  {
    if t.TPointer? {
      TypeWellFormed(t.target);
    }
  }

  ghost predicate Small(v: V.Val) { forall h | h in V.HandlesOf(v) :: h < 0x1_0000_0000 }

  lemma {:induction false} PodLength(vs: seq<Val>, size: nat, n: nat)
    requires n <= |vs| && size in {1, 2, 4, 8}
    ensures |PodBytes(vs, size, n)| == V.Times(size, n)
    decreases n
  {
    hide V.Times;
    TimesStep(size, 0);
    if n > 0 {
      PodLength(vs, size, n - 1);
      TimesStep(size, n - 1);
    }
  }

  lemma {:induction false} ValidHas(hs: seq<nat>, h: nat)
    requires h in hs && h != 0
    ensures h in V.Valid(hs)
  {
    var l := |hs| - 1;
    if hs[l] != h {
      var i :| 0 <= i < |hs| && hs[i] == h;
      assert hs[..l][i] == h;
      ValidHas(hs[..l], h);
    }
  }

  lemma KidSmall(v: V.Val, i: nat)
    requires v.Node? && i < |v.kids| && v.kids[i].Some? && Small(v)
    ensures Small(v.kids[i].value)
  {
    E.KidsHandles(v.kids, i);
    var all, kid := V.HandlesBefore(v.kids, |v.kids|), V.HandlesIn(v.kids[i]);
    var before := V.HandlesBefore(v.kids, i);
    assert V.HandlesOf(v) == all && V.HandlesOf(v.kids[i].value) == kid;
    forall h | h in kid ensures h in all {
      var k :| 0 <= k < |kid| && kid[k] == h;
      assert (before + kid)[|before| + k] == h;
      assert all[|before| + k] == h;
    }
  }

  /** The value is one of the type, and one that C++ would send as well. */
  ghost predicate Fine(t: V.Type, v: V.Val) { V.HasType(t, v) && V.Check(t, v) == V.NoError }

  lemma {:induction false} AllChecked(elem: V.Type, nullable: bool, kids: seq<Option<V.Val>>)
    requires forall i | 0 <= i < |kids| :: if kids[i].Some? then Fine(elem, kids[i].value) else nullable
    ensures forall i | 0 <= i < |kids| && kids[i].Some? :: V.HasType(elem, kids[i].value)
    ensures V.CheckKids(elem, nullable, kids) == V.NoError
    decreases |kids|
  {
    hide V.HasType, V.Check;
    assert forall i | 0 <= i < |kids| && kids[i].Some? :: Fine(elem, kids[i].value);
    if kids != [] {
      var l := |kids| - 1;
      AllChecked(elem, nullable, kids[..l]);
      assert kids[l].Some? ==> Fine(elem, kids[l].value);
    }
  }

  lemma {:induction false} KidFine(env: Env, ts: seq<Type>, vs: seq<Val>, i: nat, v: V.Val)
    requires i < |ts| == |vs| && Pointers(ts) && TypedAll(env, ts, vs) && v.Node? && v.kids == KidsOf(ts, vs, |vs|) && Small(v)
    ensures if v.kids[i].Some? then Fine(CppType(ts[i].target), v.kids[i].value) else ts[i].nullable
    ensures v.kids[i] == Kid(ts[i], vs[i])
    decreases vs, 2
  {
    hide KidsOf, CppVal, TypedObject, Fine;
    KidAt(ts, vs, |vs|, i);
    assert Typed(env, ts[i], vs[i]);
    if vs[i].VPointer? {
      KidSmall(v, i);
    }
    ValueFine(env, ts[i], vs[i]);
  }

  lemma {:induction false} ValueFine(env: Env, t: Type, v: Val)
    requires t.TPointer? && Shared(t.target) && Typed(env, t, v) && (v.VPointer? ==> Small(CppVal(t.target, v.obj)))
    ensures v.VPointer? ==> Fine(CppType(t.target), CppVal(t.target, v.obj))
    decreases v, 5
  {
    if v.VPointer? {
      ObjectFine(env, t.target, v.obj);
    }
  }

  /** What Go can encode is a value of the C++ type. */
  lemma {:induction false} ObjectFine(env: Env, target: Target, obj: Object)
    requires Shared(target) && TypedObject(env, target, obj) && Small(CppVal(target, obj))
    ensures Fine(CppType(target), CppVal(target, obj))
    decreases obj, 4
  {
    hide TypedAll, KidsOf, PodBytes, Small;
    if target.TMap? {
      MapFine(env, target, obj);
    } else {
      ArrayFine(env, target.elem, obj.elems);
    }
  }

  lemma {:induction false} ArrayFine(env: Env, t: Type, elems: seq<Val>)
    requires SharedElem(t) && TypedAll(env, Repeat(t, |elems|), elems) && Small(ArrayVal(t, elems))
    ensures Fine(ArrayType(t), ArrayVal(t, elems)) && V.Count(ArrayVal(t, elems)) == |elems|
    decreases elems, 3
  {
    hide KidsOf, PodBytes, TypedObject, V.Valid;
    var v := ArrayVal(t, elems);
    match t
    case TBool =>
    case TUint(w) => PodLength(elems, w.Bytes(), |elems|);
    case THandle(nullable) =>
      forall h | h in v.handles ensures h < 0x1_0000_0000 && (h == 0 ==> nullable) {
        var i :| 0 <= i < |elems| && v.handles[i] == h;
        assert Typed(env, t, elems[i]);
        if h != 0 {
          ValidHas(v.handles, h);
          assert h in V.HandlesOf(v);
        }
      }
    case TPointer(nullable, target) =>
      var ts := Repeat(t, |elems|);
      forall i | 0 <= i < |v.kids| ensures if v.kids[i].Some? then Fine(CppType(target), v.kids[i].value) else nullable {
        KidFine(env, ts, elems, i, v);
      }
      AllChecked(CppType(target), nullable, v.kids);
  }

  lemma {:induction false} MapFine(env: Env, target: Target, obj: Object)
    requires target.TMap? && Shared(target) && TypedObject(env, target, obj) && Small(CppVal(target, obj))
    ensures Fine(CppType(target), CppVal(target, obj))
    decreases obj, 3
  {
    hide KidsOf, PodBytes;
    var ts, vs, v := MapFields(target.key, target.value), obj.fields, CppVal(target, obj);
    KidFine(env, ts, vs, 0, v);
    KidFine(env, ts, vs, 1, v);
    CountIs(target.key, vs[0].obj.elems);
    CountIs(target.value, vs[1].obj.elems);
    ElemWellFormed(target.key);
    ElemWellFormed(target.value);
  }

  lemma CountIs(t: Type, elems: seq<Val>)
    requires SharedElem(t)
    ensures V.Count(ArrayVal(t, elems)) == |elems|
  {
    StorageMatches(t, elems);
  }

  // ---- The whole way ----

  /** A message that Go encoded, at any address in C++: the validator accepts it, the
      value that was encoded is read from it, and its handles are all taken. */
  lemma GoToCpp(env: Env, target: Target, obj: Object, base: nat)
    requires Shared(target) && EncodeObject(env, target, obj, EMPTY).Some?
    requires var e := EncodeObject(env, target, obj, EMPTY).value;
      && V.NoWrap(CppVal(target, obj)) && |e.handles| < 0x8000_0000 && forall h | h in e.handles :: h < 0x1_0000_0000
    requires 0 < base && base % 8 == 0 && base + |EncodeObject(env, target, obj, EMPTY).value.data| < R.MEMORY
    ensures var e := EncodeObject(env, target, obj, EMPTY).value; var msg := W.Message(e.data, base, e.handles); var t := CppType(target);
      && T.Verdict(msg, t).err == V.NoError
      && C.Read(msg, t, base) == CppVal(target, obj)
      && A.Exhausts(D.Decoded(msg.bytes, base, t, base), 0, |e.handles|)
  {
    hide EncodeObject, CppVal, CppType, V.HasType, V.Check, V.NoWrap, V.WellFormed, V.HandlesOf, V.Size, I.At, Imaged;
    var e, v := EncodeObject(env, target, obj, EMPTY).value, CppVal(target, obj);
    EmptyWords();
    ObjectImaged(env, target, obj, EMPTY);
    ImagedMeans(e, v);
    EncodedObjectIsTyped(env, target, obj, EMPTY);
    ObjectFine(env, target, obj);
    TypeWellFormed(target);
    T.SentArrives(W.Message(e.data, base, e.handles), CppType(target), v);
  }

  lemma EmptyWords()
    ensures Multiple(|EMPTY.data|, 8)
  {
  }

  lemma ImagedMeans(e: Encoding, v: V.Val)
    requires Imaged(EMPTY, e, v)
    ensures I.At(I.Encoded(0), e.data, 0, v) && |e.data| == V.Size(v) && e.handles == V.HandlesOf(v)
  {
    assert [] + V.HandlesOf(v) == V.HandlesOf(v);
  }
}
