/**
  A condition on the declared types under which decoding always succeeds: no
  struct ends in an 8-byte item that follows a pending bool.
*/
module CodecClear {
  import opened Wire
  import opened Layout
  import opened Versions
  import opened Cursor
  import opened Codec
  import opened CodecFrame
  import opened CodecRoundTrip

  predicate IsWord(t: Type) { t == TUint(W64) || t.TPointer? }

  /** An 8-byte item at the cursor starts at bit 0 or does not end the block. */
  predicate LooseItem(st: State, t: Type) {
    IsWord(t) ==> st.bitOffset == 0 || st.Pos(8) + 8 != st.limit
  }

  /** The same for all fields of a block, from the cursor on. */
  predicate Loose(ts: seq<Type>, st: State) {
    ts == [] || (LooseItem(st, ts[0]) && Loose(ts[1..], Advance(st, ts[0])))
  }

  /** The cursor at the first field of a struct, in a block of its own. */
  function FirstField(size: nat): State {
    State(HEADER_SIZE, 0, RoundUp(HEADER_SIZE + size, 8), 0, 0, false)
  }

  /** No struct is declared so that an 8-byte item ends it behind a pending bool. */
  ghost predicate LooseTypes(env: Env) {
    forall name | name in env :: Loose(env[name].fields, FirstField(env[name].size))
  }

  /** Bits pending in front of field `k`. */
  function PendingBits(ts: seq<Type>, k: nat): nat
    requires k <= |ts|
  {
    if k == 0 || !ts[k - 1].TBool? then 0 else (PendingBits(ts, k - 1) + 1) % 8
  }

  /** The cursor in a block that starts `base` bytes into the buffer. */
  ghost predicate At(st: State, here: State, base: nat) {
    here.offset == base + st.offset && here.bitOffset == st.bitOffset && here.limit == base + st.limit
  }

  lemma AdvanceAt(st: State, here: State, base: nat, t: Type)
    requires Multiple(base, 8) && At(st, here, base)
    ensures At(Advance(st, t), Advance(here, t), base)
  {
    hide RoundUp, Multiple;
    if t.TBool? {
      assert st.bitOffset + 1 == here.bitOffset + 1;
    } else {
      var n := match t case TUint(w) => w.Bytes() case THandle(_) => 4 case TInterface(_) => 4 case _ => 8;
      assert here.ByteOffset() == base + st.ByteOffset();
      RoundUpShift(st.ByteOffset(), base, n);
    }
  }

  lemma LooseIsClear(st: State, e: Encoding, base: nat, t: Type, n: nat, s: nat)
    requires n in {1, 2, 4, 8} && (n == 8 ==> IsWord(t)) && e.stack != []
    requires Multiple(base, 8) && Multiple(s, 8) && At(st, e.Top(), base) && LooseItem(st, t)
    ensures ClearItem(e, n, s)
  {
    hide RoundUp, Multiple;
    PosShift(e.Top(), st, base, 8);
    if s <= e.Top().offset && s <= e.Top().limit {
      PosShift(e.Top(), Shift(e.Top(), s), s, 8);
    }
  }

  /** Looseness of the types is all that the values of a block need. */
  lemma {:induction false} ValuesAreClear(env: Env, ts: seq<Type>, vs: seq<Val>, e: Encoding, s: nat, st: State, base: nat)
    requires LooseTypes(env) && Good(e) && Loose(ts, st) && At(st, e.Top(), base) && Multiple(base, 8) && Multiple(s, 8)
    ensures ClearValues(env, ts, vs, e, s)
    decreases vs, 0
  {
    hide RoundUp, Multiple, LooseTypes, EncodeValue, Good, LooseItem, ClearItem, Extends;
    if |ts| == |vs| && vs != [] {
      GoodWords(e);
      ValueIsClear(env, ts[0], vs[0], e, s, st, base);
      if EncodeValue(env, ts[0], vs[0], e).Some? {
        var e1 := EncodeValue(env, ts[0], vs[0], e).value;
        ValueKeeps(env, ts[0], vs[0], e);
        EncodeAdvances(env, ts[0], vs[0], e);
        SameLimit(e, e1);
        AdvanceAt(st, e.Top(), base, ts[0]);
        ValuesAreClear(env, ts[1..], vs[1..], e1, s, Advance(st, ts[0]), base);
      }
    }
  }

  lemma SameLimit(e: Encoding, e': Encoding)
    requires Extends(e, e')
    ensures e.stack != [] && e'.stack != [] && e'.Top().limit == e.Top().limit
  {
  }

  lemma {:induction false} ValueIsClear(env: Env, t: Type, v: Val, e: Encoding, s: nat, st: State, base: nat)
    requires LooseTypes(env) && Good(e) && LooseItem(st, t) && At(st, e.Top(), base) && Multiple(base, 8) && Multiple(s, 8)
    ensures ClearValue(env, t, v, e, s)
    decreases v, 1
  {
    hide RoundUp, Multiple, LooseTypes, WritePointer, Good, LooseItem, ClearItem, Extends, ClearObject;
    GoodWords(e);
    match (t, v)
    case (TUint(w), VUint(_)) => LooseIsClear(st, e, base, t, w.Bytes(), s);
    case (TPointer(_, _), VNull) => LooseIsClear(st, e, base, t, 8, s);
    case (TPointer(_, target), VPointer(obj)) =>
      LooseIsClear(st, e, base, t, 8, s);
      if WritePointer(e).Some? {
        WritePointerKeeps(e);
        GoodWords(WritePointer(e).value);
        ObjectIsClear(env, target, obj, WritePointer(e).value, s);
      }
    case (_, _) =>
  }

  lemma {:induction false} ObjectIsClear(env: Env, target: Target, obj: Object, e: Encoding, s: nat)
    requires LooseTypes(env) && Multiple(|e.data|, 8) && Multiple(s, 8)
    ensures ClearObject(env, target, obj, e, s)
    decreases obj
  {
    hide RoundUp, Multiple, ClearValues, Start, Good, Loose;
    if BodyOf(env, target, obj).Some? {
      var b := BodyOf(env, target, obj).value;
      var vs := if obj.OArray? then obj.elems else obj.fields;
      var e1 := Start(e, b.size, b.elements, b.check);
      StartKeeps(e, b.size, b.elements, b.check);
      GoodWords(e1);
      StartBit(e, b.size, b.elements, b.check);
      var st := FirstField(b.size - HEADER_SIZE);
      BodyIsLoose(env, target, obj, st);
      ValuesAreClear(env, b.types, vs, e1, s, st, |e.data|);
    }
  }

  lemma StartBit(e: Encoding, size: nat, elements: nat, check: bool)
    requires size >= HEADER_SIZE
    ensures Start(e, size, elements, check).stack != [] && Start(e, size, elements, check).Top().bitOffset == 0
  {
    hide RoundUp, LittleEndian;
  }

  lemma BodyIsLoose(env: Env, target: Target, obj: Object, st: State)
    requires LooseTypes(env) && BodyOf(env, target, obj).Some?
    requires st == FirstField(BodyOf(env, target, obj).value.size - HEADER_SIZE)
    ensures Loose(BodyOf(env, target, obj).value.types, st)
  {
    hide RoundUp, Loose;
    match target
    case TArray(t) => LooseRepeat(t, |obj.elems|, st);
    case TMap(key, value) => LooseMap(key, value, st);
    case TStruct(name) =>
  }

  lemma LooseMap(key: Type, value: Type, st: State)
    requires st.bitOffset == 0
    ensures Loose(MapFields(key, value), st)
  {
    hide RoundUp;
    var ts := MapFields(key, value);
    var second := Advance(st, ts[0]);
    assert ts[1..] == [ts[1]] && [ts[1]][1..] == [];
    assert Loose([], Advance(second, ts[1]));
    assert Loose([ts[1]], second);
  }

  /** An array has bits pending only between bools. */
  lemma {:induction false} LooseRepeat(t: Type, n: nat, st: State)
    requires IsWord(t) ==> st.bitOffset == 0
    ensures Loose(Repeat(t, n), st)
    decreases n
  {
    hide RoundUp;
    if n > 0 {
      assert Repeat(t, n)[1..] == Repeat(t, n - 1);
      LooseRepeat(t, n - 1, Advance(st, t));
    }
  }

  /** With such types decoding gives back every value that was encoded, from every
      start of whole words. */
  lemma AlwaysDecodes(env: Env, target: Target, obj: Object, e: Encoding)
    requires WholeWords(env) && LooseTypes(env)
    requires e.stack == [] && Multiple(|e.data|, 8)
    requires EncodeObject(env, target, obj, e).Some? && |EncodeObject(env, target, obj, e).value.data| < MEMORY
    ensures var e' := EncodeObject(env, target, obj, e).value; var s := |e.data|;
      && s <= |e'.data|
      && DecodeObject(env, target, e'.data[s..], e'.handles, START).Some?
      && DecodeObject(env, target, e'.data[s..], e'.handles, START).value.value == obj
  {
    hide EncodeObject, DecodeObject, ClearObject, WholeWords, Multiple, LooseTypes;
    RoundTrip(env, target, obj, e);
    ObjectIsClear(env, target, obj, e, |e.data|);
  }

  // ---- Simple cases ----

  /** In particular it is enough that no bool is pending in front of an 8-byte
      field. */
  lemma {:induction false} NothingPending(ts: seq<Type>, k: nat, st: State)
    requires k <= |ts| && st.bitOffset == PendingBits(ts, k)
    requires forall i | 0 <= i < |ts| && IsWord(ts[i]) :: PendingBits(ts, i) == 0
    ensures Loose(ts[k..], st)
    decreases |ts| - k
  {
    hide RoundUp;
    if k < |ts| {
      assert ts[k..][0] == ts[k] && ts[k..][1..] == ts[k + 1..];
      NothingPending(ts, k + 1, Advance(st, ts[k]));
    }
  }

  // ---- The exact condition for a struct that points to nothing ----

  /** No field of the block is the wasteful case, at the positions that its type
      alone determines. */
  predicate Clear(ts: seq<Type>, st: State) {
    ts == [] || ((IsWord(ts[0]) ==> !Wasteful(st, 8)) && Clear(ts[1..], Advance(st, ts[0])))
  }

  predicate Flat(vs: seq<Val>) { forall v | v in vs :: !v.VPointer? }

  lemma SameWaste(st: State, e: Encoding, s: nat, n: nat)
    requires n in {1, 2, 4, 8} && e.stack != [] && At(st, e.Top(), s)
    ensures ClearItem(e, n, s) <==> !Wasteful(st, n)
  {
    hide RoundUp;
  }

  lemma {:induction false} FlatIsClear(env: Env, ts: seq<Type>, vs: seq<Val>, e: Encoding, s: nat, st: State)
    requires Good(e) && EncodeValues(env, ts, vs, e).Some? && Flat(vs) && At(st, e.Top(), s) && Multiple(s, 8)
    ensures ClearValues(env, ts, vs, e, s) <==> Clear(ts, st)
    decreases vs
  {
    hide RoundUp, Multiple, EncodeValue, Good, ClearItem, Extends, Wasteful;
    if vs != [] {
      GoodWords(e);
      assert vs[0] in vs;
      FlatValue(env, ts[0], vs[0], e, s, st);
      var e1 := EncodeValue(env, ts[0], vs[0], e).value;
      ValueKeeps(env, ts[0], vs[0], e);
      EncodeAdvances(env, ts[0], vs[0], e);
      SameLimit(e, e1);
      AdvanceAt(st, e.Top(), s, ts[0]);
      FlatIsClear(env, ts[1..], vs[1..], e1, s, Advance(st, ts[0]));
    }
  }

  lemma FlatValue(env: Env, t: Type, v: Val, e: Encoding, s: nat, st: State)
    requires e.stack != [] && EncodeValue(env, t, v, e).Some? && !v.VPointer? && At(st, e.Top(), s)
    ensures ClearValue(env, t, v, e, s) <==> (IsWord(t) ==> !Wasteful(st, 8))
  {
    hide RoundUp, ClearItem, WriteUint, WriteBool, WriteHandle, WriteInterface;
    match (t, v)
    case (TUint(w), VUint(_)) => SameWaste(st, e, s, w.Bytes());
    case (TPointer(_, _), VNull) => SameWaste(st, e, s, 8);
    case (_, _) =>
  }

  /** A struct without objects behind it decodes if and only if none of its fields
      is the wasteful case, which its declaration tells. */
  lemma FlatDecodesExactly(env: Env, name: nat, fields: seq<Val>, e: Encoding)
    requires WholeWords(env) && name in env && Flat(fields)
    requires e.stack == [] && Multiple(|e.data|, 8)
    requires EncodeObject(env, TStruct(name), ORecord(fields), e).Some?
    requires |EncodeObject(env, TStruct(name), ORecord(fields), e).value.data| < MEMORY
    ensures var e' := EncodeObject(env, TStruct(name), ORecord(fields), e).value; var s := |e.data|;
      && s <= |e'.data|
      && (DecodeObject(env, TStruct(name), e'.data[s..], e'.handles, START).Some? <==>
            Clear(env[name].fields, FirstField(env[name].size)))
  {
    hide DecodeObject, ClearValues, WholeWords, Multiple, RoundUp, Start, Good, EncodeValues, Clear;
    var obj, s := ORecord(fields), |e.data|;
    RoundTrip(env, TStruct(name), obj, e);
    var b := BodyOf(env, TStruct(name), obj).value;
    var e1 := Start(e, b.size, b.elements, b.check);
    StartKeeps(e, b.size, b.elements, b.check);
    GoodWords(e1);
    StartBit(e, b.size, b.elements, b.check);
    FlatIsClear(env, b.types, fields, e1, s, FirstField(env[name].size));
  }
}
