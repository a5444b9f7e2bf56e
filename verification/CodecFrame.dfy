/**
  What every encoder run keeps: the open block stays blank behind its cursor,
  nothing outside it changes, and new objects only ever append whole words.
*/
module CodecFrame {
  import opened Wire
  import opened Layout
  import opened Cursor
  import opened Codec

  /** The block of `st` lies in the buffer in whole words and is zero from the
      cursor on. */
  ghost predicate Blank(data: seq<byte>, st: State) {
    && st.offset <= st.limit <= |data|
    && Multiple(st.limit, 8)
    && st.bitOffset < 8
    && (st.bitOffset > 0 ==> st.offset < st.limit)
    && (st.offset < st.limit ==> Fits(data[st.offset], st.bitOffset))
    && (forall p | st.offset < p < st.limit :: data[p] == 0)
  }

  /** The invariant of an encoder with an open block. */
  ghost predicate Good(e: Encoding) {
    Multiple(|e.data|, 8) && e.stack != [] && Blank(e.data, e.Top())
  }

  ghost predicate Before(a: State, b: State) {
    a.offset < b.offset || (a.offset == b.offset && a.bitOffset <= b.bitOffset)
  }

  /** `e'` comes from `e` by writes into its open block and by new objects. */
  ghost predicate Extends(e: Encoding, e': Encoding) {
    && e.stack != [] && e'.stack != []
    && e'.stack[..|e'.stack| - 1] == e.stack[..|e.stack| - 1]
    && e'.Top().limit == e.Top().limit
    && e'.Top().elements == e.Top().elements
    && e'.Top().check == e.Top().check
    && Before(e.Top(), e'.Top())
    && |e.data| <= |e'.data|
    && e.handles <= e'.handles
    && (forall p | 0 <= p < |e.data| && !(e.Top().offset <= p < e.Top().limit) :: e'.data[p] == e.data[p])
    && (e.Top().offset < e.Top().limit <= |e.data| ==>
          Low(e'.data[e.Top().offset], e.Top().bitOffset) == Low(e.data[e.Top().offset], e.Top().bitOffset))
  }

  lemma ExtendsSelf(e: Encoding)
    requires e.stack != []
    ensures Extends(e, e)
  {
  }

  lemma ExtendsTrans(e: Encoding, e1: Encoding, e2: Encoding)
    requires Good(e) && Good(e1) && Extends(e, e1) && Extends(e1, e2)
    ensures Extends(e, e2)
  {
    hide Multiple, Fits;
    var a, b := e.Top(), e1.Top();
    if a.offset < a.limit {
      if a.offset == b.offset {
        LowShorter(e2.data[a.offset], e1.data[a.offset], a.bitOffset, b.bitOffset);
      } else {
        assert e2.data[a.offset] == e1.data[a.offset];
      }
    }
  }

  lemma WriteUintKeeps(e: Encoding, n: nat, v: nat)
    requires n in {1, 2, 4, 8} && Good(e) && WriteUint(e, n, v).Some?
    ensures var e' := WriteUint(e, n, v).value;
      && Good(e') && Extends(e, e') && |e'.data| == |e.data| && e'.handles == e.handles
      && e'.Top() == e.Top().SkipItem(n) && e.Top().Quota() && e.Top().Pos(n) + n <= e.Top().limit
      && e'.data == Put(e.data, e.Top().Pos(n), LittleEndian(v, n))
  {
    hide RoundUp, Guard, LittleEndian;
    var st, e' := e.Top(), WriteUint(e, n, v).value;
    GuardExact(st, n);
    assert st.ByteOffset() <= st.Pos(n);
    assert e'.Top().offset < st.limit ==> e'.data[e'.Top().offset] == 0;
  }

  lemma WriteBoolKeeps(e: Encoding, b: bool)
    requires Good(e) && WriteBool(e, b).Some?
    ensures var e' := WriteBool(e, b).value;
      && Good(e') && Extends(e, e') && |e'.data| == |e.data| && e'.handles == e.handles
      && e'.Top() == e.Top().SkipBit() && e.Top().offset < e.Top().limit
      && Bit(e'.data[e.Top().offset], e.Top().bitOffset) == b
  {
    hide RoundUp, Guard, Multiple;
    var st, e' := e.Top(), WriteBool(e, b).value;
    GuardBit(st);
    FitsNoBit(e.data[st.offset], st.bitOffset);
    SetBitMeans(e.data[st.offset], st.bitOffset);
    if st.bitOffset == 7 {
      assert e'.Top().offset < st.limit ==> e'.data[e'.Top().offset] == 0;
    }
  }

  lemma HandlesKeep(e: Encoding, hs: seq<Handle>)
    requires Good(e) && e.handles <= hs
    ensures Good(e.(handles := hs)) && Extends(e, e.(handles := hs))
  {
  }

  lemma WriteHandleKeeps(e: Encoding, h: Handle)
    requires Good(e) && WriteHandle(e, h).Some?
    ensures var e' := WriteHandle(e, h).value;
      && Good(e') && Extends(e, e') && |e'.data| == |e.data| && e'.handles == e.handles + [h]
      && e'.Top() == e.Top().SkipItem(4) && e.Top().Quota() && e.Top().Pos(4) + 4 <= e.Top().limit
      && e'.data == Put(e.data, e.Top().Pos(4), LittleEndian(|e.handles|, 4))
  {
    hide WriteUint, Good, Extends, Put, LittleEndian;
    var e1 := e.(handles := e.handles + [h]);
    HandlesKeep(e, e1.handles);
    WriteUintKeeps(e1, 4, |e.handles|);
    ExtendsTrans(e, e1, WriteHandle(e, h).value);
  }

  lemma UncountKeeps(e: Encoding)
    requires Good(e)
    ensures Good(Uncount(e)) && Extends(e, Uncount(e))
    ensures Uncount(e).data == e.data && Uncount(e).handles == e.handles
  {
    hide Multiple, Fits, Low;
  }

  /** The first half of an interface. */
  function InterfaceHandle(e: Encoding, h: Handle): Option<Encoding> {
    if h == INVALID_HANDLE then WriteUint(e, 4, INVALID_INDEX) else WriteHandle(e, h)
  }

  lemma InterfaceHandleKeeps(e: Encoding, h: Handle)
    requires Good(e) && InterfaceHandle(e, h).Some?
    ensures var e' := InterfaceHandle(e, h).value;
      && Good(e') && Extends(e, e') && |e'.data| == |e.data|
      && e'.Top() == e.Top().SkipItem(4)
  {
    hide WriteUint, WriteHandle, Good, Extends;
    if h == INVALID_HANDLE {
      WriteUintKeeps(e, 4, INVALID_INDEX);
    } else {
      WriteHandleKeeps(e, h);
    }
  }

  lemma WriteInterfaceKeeps(e: Encoding, h: Handle)
    requires Good(e) && WriteInterface(e, h).Some?
    ensures var e' := WriteInterface(e, h).value;
      && Good(e') && Extends(e, e') && |e'.data| == |e.data|
  {
    hide WriteUint, WriteHandle, Uncount, Good, Extends;
    var e1, e' := InterfaceHandle(e, h).value, WriteInterface(e, h).value;
    InterfaceHandleKeeps(e, h);
    UncountKeeps(e1);
    WriteUintKeeps(Uncount(e1), 4, 0);
    ExtendsTrans(e, e1, Uncount(e1));
    ExtendsTrans(e, Uncount(e1), e');
  }

  lemma AlignKeeps(e: Encoding)
    requires Good(e) && e.Top().Pos(8) <= e.Top().limit
    ensures var e' := e.WithTop(e.Top().AlignToPointer()); Good(e') && Extends(e, e')
  {
    hide RoundUp, Multiple, Low;
    assert e.Top().ByteOffset() <= e.Top().Pos(8);
    assert Fits(0, 0);
  }

  lemma WritePointerKeeps(e: Encoding)
    requires Good(e) && WritePointer(e).Some?
    ensures var e' := WritePointer(e).value; var at := e.Top().Pos(8);
      && Good(e') && Extends(e, e') && |e'.data| == |e.data| && e'.handles == e.handles
      && e'.Top() == e.Top().SkipItem(8) && e.Top().Quota() && at + 8 <= e.Top().limit
      && e'.data == Put(e.data, at, LittleEndian(|e.data| - at, 8))
  {
    hide RoundUp, Guard, LittleEndian, Good, Extends, Put;
    var st := e.Top().AlignToPointer();
    var e1 := e.WithTop(st);
    assert st.Pos(8) == st.offset by { AlignTwice(e.Top()); }
    assert st.offset + 8 <= st.limit by { GuardWhole(st, 8); }
    AlignKeeps(e);
    WriteUintKeeps(e1, 8, |e.data| - st.offset);
    ExtendsTrans(e, e1, WritePointer(e).value);
  }

  lemma AlignTwice(st: State)
    ensures st.AlignToPointer().Pos(8) == st.Pos(8)
  {
    hide RoundUp, Multiple;
    RoundUpLeast(st.Pos(8), 8, st.Pos(8));
  }

  lemma StartKeeps(e: Encoding, size: nat, elements: nat, check: bool)
    requires Multiple(|e.data|, 8) && size >= HEADER_SIZE
    ensures var e' := Start(e, size, elements, check);
      && Good(e') && e.data <= e'.data && e'.handles == e.handles
      && e'.stack[..|e'.stack| - 1] == e.stack
      && e'.Top().offset == |e.data| + HEADER_SIZE
      && e'.Top().limit == |e'.data| == |e.data| + RoundUp(size, 8)
  {
    hide RoundUp, LittleEndian;
    var e' := Start(e, size, elements, check);
    assert e'.stack[..|e'.stack| - 1] == e.stack;
    assert Multiple(|e'.data|, 8) by {
      var a, b := |e.data|, RoundUp(size, 8);
      assert a + b == 8 * (a / 8 + b / 8);
    }
  }

  // ------------------------------------------------------------ whole values

  ghost predicate Appends(e: Encoding, e': Encoding) {
    && e'.stack == e.stack
    && e.data <= e'.data && |e.data| + HEADER_SIZE <= |e'.data|
    && Multiple(|e'.data|, 8)
    && e.handles <= e'.handles
  }

  lemma AppendsKeep(e: Encoding, e': Encoding)
    requires Good(e) && Appends(e, e')
    ensures Good(e') && Extends(e, e')
  {
    hide Multiple, Fits, Low;
  }

  /** Encoding a value keeps the invariant and touches only its own block. */
  lemma {:induction false} ValueKeeps(env: Env, t: Type, v: Val, e: Encoding)
    requires Good(e) && EncodeValue(env, t, v, e).Some?
    ensures var e' := EncodeValue(env, t, v, e).value; Good(e') && Extends(e, e')
    decreases v, 1
  {
    hide Good, Extends, WriteUint, WriteBool, WriteHandle, WriteInterface, WritePointer, EncodeObject, Appends;
    match (t, v)
    case (TBool, VBool(b)) => WriteBoolKeeps(e, b);
    case (TUint(w), VUint(x)) => WriteUintKeeps(e, w.Bytes(), x);
    case (THandle(nullable), VHandle(h)) =>
      if h != INVALID_HANDLE { WriteHandleKeeps(e, h); } else { WriteUintKeeps(e, 4, INVALID_INDEX); }
    case (TInterface(nullable), VInterface(h)) => WriteInterfaceKeeps(e, h);
    case (TPointer(nullable, _), VNull) => WriteUintKeeps(e, 8, 0);
    case (TPointer(_, target), VPointer(obj)) =>
      var e1 := WritePointer(e).value;
      WritePointerKeeps(e);
      GoodWords(e1);
      ObjectKeeps(env, target, obj, e1);
      var e2 := EncodeObject(env, target, obj, e1).value;
      AppendsKeep(e1, e2);
      ExtendsTrans(e, e1, e2);
    case (_, _) =>
  }

  lemma GoodWords(e: Encoding)
    requires Good(e)
    ensures Multiple(|e.data|, 8) && e.stack != []
  {
  }

  /** Encoding an object only appends, whole words at a time. */
  lemma {:induction false} ObjectKeeps(env: Env, target: Target, obj: Object, e: Encoding)
    requires Multiple(|e.data|, 8) && EncodeObject(env, target, obj, e).Some?
    ensures Appends(e, EncodeObject(env, target, obj, e).value)
    decreases obj
  {
    hide RoundUp, Multiple, Blank, EncodeValues, Start, Low;
    var b := BodyOf(env, target, obj).value;
    var vs := if obj.OArray? then obj.elems else obj.fields;
    var e1 := Start(e, b.size, b.elements, b.check);
    StartKeeps(e, b.size, b.elements, b.check);
    ValuesKeep(env, b.types, vs, e1);
    var e2 := EncodeValues(env, b.types, vs, e1).value;
    assert forall p | 0 <= p < |e.data| :: e2.data[p] == e1.data[p];
  }

  lemma {:induction false} ValuesKeep(env: Env, ts: seq<Type>, vs: seq<Val>, e: Encoding)
    requires Good(e) && EncodeValues(env, ts, vs, e).Some?
    ensures var e' := EncodeValues(env, ts, vs, e).value; Good(e') && Extends(e, e')
    decreases vs, 0
  {
    hide Good, Extends, EncodeValue;
    if vs == [] {
      GoodWords(e);
      ExtendsSelf(e);
    } else {
      var e1 := EncodeValue(env, ts[0], vs[0], e).value;
      ValueKeeps(env, ts[0], vs[0], e);
      ValuesKeep(env, ts[1..], vs[1..], e1);
      ExtendsTrans(e, e1, EncodeValues(env, ts, vs, e).value);
    }
  }

  // ------------------------------------------------------- all open blocks

  /** Every open block is blank behind its cursor, and inner blocks lie behind
      the outer ones. */
  ghost predicate Sound(e: Encoding) {
    && Multiple(|e.data|, 8)
    && (forall i | 0 <= i < |e.stack| :: Blank(e.data, e.stack[i]))
    && (forall i, j | 0 <= i < j < |e.stack| :: e.stack[i].limit <= e.stack[j].offset)
  }

  lemma SoundIsGood(e: Encoding)
    requires Sound(e) && e.stack != []
    ensures Good(e)
  {
  }

  /** A step in the innermost block leaves all blocks sound. */
  lemma ExtendsSound(e: Encoding, e': Encoding)
    requires Sound(e) && Good(e') && Extends(e, e')
    ensures Sound(e')
  {
    hide Multiple, Fits, Low;
    var n := |e.stack| - 1;
    assert |e'.stack| == |e.stack|;
    forall i | 0 <= i < |e'.stack| ensures Blank(e'.data, e'.stack[i]) {
      if i < n {
        assert e'.stack[i] == e'.stack[..n][i] == e.stack[..n][i] == e.stack[i];
        assert Blank(e.data, e.stack[i]);
        assert e.stack[i].limit <= e.stack[n].offset;
      }
    }
    forall i, j | 0 <= i < j < |e'.stack| ensures e'.stack[i].limit <= e'.stack[j].offset {
      assert e'.stack[i] == e'.stack[..n][i] == e.stack[..n][i];
      if j < n {
        assert e'.stack[j] == e'.stack[..n][j] == e.stack[..n][j];
      }
    }
  }

  lemma BlankLonger(data: seq<byte>, data': seq<byte>, st: State)
    requires Blank(data, st) && data <= data'
    ensures Blank(data', st)
  {
    hide Multiple, Fits;
  }

  lemma StartSound(e: Encoding, size: nat, elements: nat, check: bool)
    requires Sound(e) && size >= HEADER_SIZE
    ensures Sound(Start(e, size, elements, check))
  {
    hide Multiple, Blank, Start, RoundUp;
    StartKeeps(e, size, elements, check);
    var e' := Start(e, size, elements, check);
    var n := |e.stack|;
    assert |e'.stack| == n + 1;
    forall i | 0 <= i < n ensures e'.stack[i] == e.stack[i] && Blank(e'.data, e'.stack[i]) && e.stack[i].limit <= |e.data| {
      assert e'.stack[i] == e'.stack[..n][i];
      BlankLonger(e.data, e'.data, e.stack[i]);
      BlankLimit(e.data, e.stack[i]);
    }
  }

  lemma BlankLimit(data: seq<byte>, st: State)
    requires Blank(data, st)
    ensures st.limit <= |data|
  {
  }

  lemma WriteUintSound(e: Encoding, n: nat, v: nat)
    requires n in {1, 2, 4, 8} && Sound(e) && WriteUint(e, n, v).Some?
    ensures Sound(WriteUint(e, n, v).value)
  {
    hide Sound, Good, Extends, WriteUint;
    WriteNeedsBlock(e, n, v);
    SoundIsGood(e);
    WriteUintKeeps(e, n, v);
    ExtendsSound(e, WriteUint(e, n, v).value);
  }

  lemma WriteNeedsBlock(e: Encoding, n: nat, v: nat)
    requires n in {1, 2, 4, 8} && WriteUint(e, n, v).Some?
    ensures e.stack != []
  {
  }

  lemma WriteBoolSound(e: Encoding, b: bool)
    requires Sound(e) && e.stack != [] && WriteBool(e, b).Some?
    ensures Sound(WriteBool(e, b).value)
  {
    hide Sound, Good, Extends, WriteBool;
    SoundIsGood(e);
    WriteBoolKeeps(e, b);
    ExtendsSound(e, WriteBool(e, b).value);
  }
}
