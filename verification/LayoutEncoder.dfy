/**
  Writing the fields of a struct in packing order with the real encoder steps:
  every accepted field ends up in the bytes and bits that the compiler computed
  for it, and it is accepted in all cases but one.
*/
module LayoutEncoder {
  import opened Wire
  import opened Layout
  import opened Versions
  import opened Cursor
  import opened Codec
  import opened CodecFrame
  import opened CodecRoundTrip
  import opened LayoutCursor

  /** The value of a field; a union has a tag and a member, or is null. */
  datatype Item = Single(v: Val) | Tagged(tag: nat, v: Val) | NullUnion

  // ------------------------------------------------------------------ unions

  /** Size and tag of a union; the room for its member is checked as well. */
  function WriteUnionHeader(e: Encoding, tag: nat): Option<Encoding> {
    if e.stack == [] || !Guard(e.Top(), 64) || e.Top().Pos(8) + 8 > |e.data| || tag >= UINT32 then None
    else
      var at := e.Top().Pos(8);
      var e1 := e.(data := Put(e.data, at, LittleEndian(16, 4) + LittleEndian(tag, 4)))
                 .WithTop(e.Top().(offset := at + 8, bitOffset := 0));
      if Guard(e1.Top(), 64) then Some(e1) else None
  }

  function FinishUnion(e: Encoding): Encoding
    requires e.stack != []
  {
    e.WithTop(Finished(e.Top()))
  }

  function WriteNullUnion(e: Encoding): Option<Encoding> {
    match WriteUint(e, 8, 0)
    case None => None
    case Some(e1) => WriteUint(Uncount(e1), 8, 0)
  }

  /** The calls that generated code makes for one field. */
  function EncodeField(env: Env, f: Field, x: Item, e: Encoding): Option<Encoding> {
    match (f, x)
    case (Plain(t), Single(v)) => EncodeValue(env, t, v, e)
    case (Union(_), NullUnion) => WriteNullUnion(e)
    case (Union(t), Tagged(tag, v)) =>
      (match WriteUnionHeader(e, tag)
       case None => None
       case Some(e1) =>
         match EncodeValue(env, t, v, e1)
         case None => None
         case Some(e2) => if e2.stack == [] then None else Some(FinishUnion(e2)))
    case (_, _) => None
  }

  /** The first `n` fields in packing order. */
  function EncodeFields(env: Env, fs: seq<Field>, order: seq<Slot>, xs: seq<Item>, e: Encoding, n: nat): Option<Encoding>
    requires n <= |order| && |xs| == |fs| && forall s | s in order :: s.ord < |fs|
  {
    if n == 0 then Some(e)
    else
      assert order[n - 1] in order;
      match EncodeFields(env, fs, order, xs, e, n - 1)
      case None => None
      case Some(e1) => EncodeField(env, fs[order[n - 1].ord], xs[order[n - 1].ord], e1)
  }

  lemma UnionHeaderKeeps(e: Encoding, tag: nat)
    requires Good(e) && WriteUnionHeader(e, tag).Some?
    ensures var e' := WriteUnionHeader(e, tag).value; var at := e.Top().Pos(8);
      && Good(e') && Extends(e, e') && |e'.data| == |e.data| && e'.handles == e.handles
      && e'.Top() == e.Top().(offset := at + 8, bitOffset := 0) && at + 16 <= e.Top().limit
      && e'.data == Put(e.data, at, LittleEndian(16, 4) + LittleEndian(tag, 4))
  {
    hide RoundUp, Guard, LittleEndian;
    var st, e' := e.Top(), WriteUnionHeader(e, tag).value;
    GuardExact(st, 8);
    assert st.ByteOffset() <= st.Pos(8);
    assert e'.Top().offset < st.limit ==> e'.data[e'.Top().offset] == 0;
    NextWord(st.Pos(8));
    GuardWhole(e'.Top(), 8);
  }

  lemma NextWord(at: nat)
    requires Multiple(at, 8)
    ensures RoundUp(at + 8, 8) == at + 8
  {
    hide RoundUp, Multiple;
    MultipleOf8Plus(at);
    RoundUpLeast(at + 8, 8, at + 8);
  }

  lemma FinishUnionKeeps(e: Encoding)
    requires Good(e) && e.Top().bitOffset == 0 && e.Top().Pos(8) <= e.Top().limit
    ensures FinishUnion(e) == e.WithTop(e.Top().AlignToPointer())
    ensures Good(FinishUnion(e)) && Extends(e, FinishUnion(e)) && FinishUnion(e).data == e.data
  {
    hide RoundUp, Good, Extends;
    AlignKeeps(e);
  }

  lemma NullUnionKeeps(e: Encoding)
    requires Good(e) && WriteNullUnion(e).Some?
    ensures var e' := WriteNullUnion(e).value; var at := e.Top().Pos(8);
      && Good(e') && Extends(e, e') && |e'.data| == |e.data|
      && e'.Top().offset == at + 16 && e'.Top().bitOffset == 0 && at + 16 <= e.Top().limit
      && e'.data == Put(Put(e.data, at, LittleEndian(0, 8)), at + 8, LittleEndian(0, 8))
  {
    hide RoundUp, WriteUint, Good, Extends, LittleEndian, Put, Guard;
    var e1, e' := WriteUint(e, 8, 0).value, WriteNullUnion(e).value;
    GoodWords(e);
    WriteUintKeeps(e, 8, 0);
    GoodWords(e1);
    UncountKeeps(e1);
    NextWord(e.Top().Pos(8));
    WriteUintKeeps(Uncount(e1), 8, 0);
    ExtendsTrans(e, e1, Uncount(e1));
    ExtendsTrans(e, Uncount(e1), e');
  }

  // -------------------------------------------------------- the cursor moves

  ghost predicate SamePlace(a: State, b: State) {
    a.offset == b.offset && a.bitOffset == b.bitOffset && a.limit == b.limit && a.check == b.check
  }

  lemma TaggedKeeps(env: Env, f: Field, tag: nat, v: Val, e: Encoding)
    requires Good(e) && f.Union? && EncodeField(env, f, Tagged(tag, v), e).Some?
    ensures var e' := EncodeField(env, f, Tagged(tag, v), e).value; var e1 := WriteUnionHeader(e, tag).value;
      && Good(e') && Extends(e, e') && SamePlace(e'.Top(), Past(e.Top(), f))
      && EncodeValue(env, f.member, v, e1).Some? && e'.data == EncodeValue(env, f.member, v, e1).value.data
  {
    hide RoundUp, WriteUnionHeader, EncodeValue, Good, Extends, LittleEndian, Put, Guard;
    var e1 := WriteUnionHeader(e, tag).value;
    GoodWords(e);
    UnionHeaderKeeps(e, tag);
    ValueKeeps(env, f.member, v, e1);
    EncodeAdvances(env, f.member, v, e1);
    var e2 := EncodeValue(env, f.member, v, e1).value;
    UnionPast(e.Top(), f);
    KeptLimit(e, e1);
    KeptLimit(e1, e2);
    FinishUnionKeeps(e2);
    ExtendsTrans(e, e1, e2);
    ExtendsTrans(e, e2, FinishUnion(e2));
  }

  lemma KeptLimit(e: Encoding, e': Encoding)
    requires Extends(e, e')
    ensures e.stack != [] && e'.stack != [] && e'.Top().limit == e.Top().limit && e'.Top().check == e.Top().check
  {
  }

  /** Writing a field keeps the encoder's invariant and moves the cursor past it. */
  lemma FieldKeeps(env: Env, f: Field, x: Item, e: Encoding)
    requires Good(e) && EncodeField(env, f, x, e).Some?
    ensures var e' := EncodeField(env, f, x, e).value;
      Good(e') && Extends(e, e') && e'.stack != [] && SamePlace(e'.Top(), Past(e.Top(), f))
  {
    hide RoundUp, WriteUnionHeader, WriteNullUnion, EncodeValue, Good, Extends;
    var e' := EncodeField(env, f, x, e).value;
    GoodWords(e);
    match (f, x) {
      case (Plain(t), Single(v)) =>
        ValueKeeps(env, t, v, e);
        EncodeAdvances(env, t, v, e);
        KeptLimit(e, e');
        PastKeeps(e.Top(), f);
      case (Union(_), NullUnion) =>
        NullUnionKeeps(e);
        UnionPast(e.Top(), f);
        KeptLimit(e, e');
        PastKeeps(e.Top(), f);
      case (Union(t), Tagged(tag, v)) =>
        TaggedKeeps(env, f, tag, v, e);
        GoodWords(e');
      case (_, _) =>
    }
  }

  lemma AdvanceSame(a: State, b: State, t: Type)
    requires SamePlace(a, b)
    ensures SamePlace(Advance(a, t), Advance(b, t))
  {
    hide RoundUp;
    if t.TBool? {
      assert a.bitOffset + 1 == b.bitOffset + 1;
    } else {
      assert a.ByteOffset() == b.ByteOffset();
    }
  }

  lemma PastSame(a: State, b: State, f: Field)
    requires SamePlace(a, b)
    ensures SamePlace(Past(a, f), Past(b, f))
  {
    hide RoundUp, Advance;
    if f.Plain? {
      AdvanceSame(a, b, f.t);
    } else {
      assert a.ByteOffset() == b.ByteOffset();
      AdvanceSame(a.(offset := a.Pos(8) + 8, bitOffset := 0), b.(offset := b.Pos(8) + 8, bitOffset := 0), f.member);
    }
  }

  /** After the first `n` fields the encoder stands where the bare cursor does. */
  lemma {:induction false} FieldsKeep(env: Env, fs: seq<Field>, order: seq<Slot>, xs: seq<Item>, e: Encoding, n: nat)
    requires Good(e) && n <= |order| && |xs| == |fs| && (forall s | s in order :: s.ord < |fs|)
    requires EncodeFields(env, fs, order, xs, e, n).Some?
    ensures var e' := EncodeFields(env, fs, order, xs, e, n).value;
      Good(e') && Extends(e, e') && e'.stack != [] && e.stack != [] && SamePlace(e'.Top(), CursorAt(e.Top(), fs, order, n))
  {
    hide Good, Extends, EncodeField, Past;
    GoodWords(e);
    if n == 0 {
      ExtendsSelf(e);
    } else {
      FieldsKeep(env, fs, order, xs, e, n - 1);
      assert order[n - 1] in order;
      var e1, f, x := EncodeFields(env, fs, order, xs, e, n - 1).value, fs[order[n - 1].ord], xs[order[n - 1].ord];
      FieldKeeps(env, f, x, e1);
      PastSame(e1.Top(), CursorAt(e.Top(), fs, order, n - 1), f);
      ExtendsTrans(e, e1, EncodeField(env, f, x, e1).value);
    }
  }

  // ------------------------------------------------------ the bytes that land

  /** `bytes` are in the data at `at`. */
  ghost predicate Has(data: seq<byte>, at: nat, bytes: seq<byte>) {
    at + |bytes| <= |data| && data[at..at + |bytes|] == bytes
  }

  /** The table index of a handle that is written next. */
  function IndexOf(e: Encoding, h: Handle): nat {
    if h == INVALID_HANDLE then INVALID_INDEX else |e.handles|
  }

  /** The value, written from state `e` on, is in the data at byte `at`, a bool at
      bit `bit` of it. */
  ghost predicate Lies(t: Type, v: Val, e: Encoding, at: nat, bit: nat, data: seq<byte>) {
    match (t, v)
    case (TBool, VBool(b)) => at < |data| && Bit(data[at], bit) == b
    case (TUint(w), VUint(x)) => Has(data, at, LittleEndian(x, w.Bytes()))
    case (THandle(_), VHandle(h)) => Has(data, at, LittleEndian(IndexOf(e, h), 4))
    case (TInterface(_), VInterface(h)) => Has(data, at, LittleEndian(IndexOf(e, h), 4)) && Has(data, at + 4, LittleEndian(0, 4))
    case (TPointer(_, _), VNull) => Has(data, at, LittleEndian(0, 8))
    case (TPointer(_, _), VPointer(_)) => |e.data| >= at && Has(data, at, LittleEndian(|e.data| - at, 8))
    case (_, _) => false
  }

  ghost predicate ItemLies(f: Field, x: Item, e: Encoding, at: nat, bit: nat, data: seq<byte>) {
    match (f, x)
    case (Plain(t), Single(v)) => Lies(t, v, e, at, bit, data)
    case (Union(_), NullUnion) => Has(data, at, LittleEndian(0, 8)) && Has(data, at + 8, LittleEndian(0, 8))
    case (Union(t), Tagged(tag, v)) =>
      Has(data, at, LittleEndian(16, 4) + LittleEndian(tag, 4)) && Lies(t, v, e, at + 8, 0, data)
    case (_, _) => false
  }

  lemma PutHas(data: seq<byte>, at: nat, bytes: seq<byte>)
    requires at + |bytes| <= |data|
    ensures Has(Put(data, at, bytes), at, bytes)
  {
  }

  lemma HasStays(data: seq<byte>, data': seq<byte>, at: nat, bytes: seq<byte>)
    requires Has(data, at, bytes) && |data| <= |data'| && forall p | at <= p < at + |bytes| :: data'[p] == data[p]
    ensures Has(data', at, bytes)
  {
    assert data'[at..at + |bytes|] == data[at..at + |bytes|];
  }

  /** What lies below the cursor stays. */
  lemma HasBelow(e: Encoding, e': Encoding, at: nat, bytes: seq<byte>)
    requires Extends(e, e') && Has(e.data, at, bytes) && at + |bytes| <= e.Top().offset
    ensures Has(e'.data, at, bytes)
  {
    HasStays(e.data, e'.data, at, bytes);
  }

  lemma BitBelow(e: Encoding, e': Encoding, at: nat, bit: nat)
    requires Good(e) && Extends(e, e') && at < |e.data|
    requires at < e.Top().offset || (at == e.Top().offset && bit < e.Top().bitOffset)
    ensures at < |e'.data| && Bit(e'.data[at], bit) == Bit(e.data[at], bit)
  {
    if at == e.Top().offset {
      LowBit(e'.data[at], e.data[at], bit, e.Top().bitOffset);
    }
  }

  /** The bytes a value takes in its block. */
  function Bytes(t: Type): nat { KindOf(Plain(t)).size }

  ghost predicate Below(t: Type, at: nat, bit: nat, st: State) {
    if t.TBool? then at < st.offset || (at == st.offset && bit < st.bitOffset) else at + Bytes(t) <= st.offset
  }

  lemma LiesBelow(t: Type, v: Val, e0: Encoding, at: nat, bit: nat, e: Encoding, e': Encoding)
    requires Good(e) && Extends(e, e') && e.stack != [] && Lies(t, v, e0, at, bit, e.data) && Below(t, at, bit, e.Top())
    ensures Lies(t, v, e0, at, bit, e'.data)
  {
    hide Good, Extends, Has, LittleEndian;
    match (t, v)
    case (TBool, VBool(_)) => BitBelow(e, e', at, bit);
    case (TUint(w), VUint(x)) => HasBelow(e, e', at, LittleEndian(x, w.Bytes()));
    case (THandle(_), VHandle(h)) => HasBelow(e, e', at, LittleEndian(IndexOf(e0, h), 4));
    case (TInterface(_), VInterface(h)) =>
      HasBelow(e, e', at, LittleEndian(IndexOf(e0, h), 4));
      HasBelow(e, e', at + 4, LittleEndian(0, 4));
    case (TPointer(_, _), VNull) => HasBelow(e, e', at, LittleEndian(0, 8));
    case (TPointer(_, _), VPointer(_)) => HasBelow(e, e', at, LittleEndian(|e0.data| - at, 8));
    case (_, _) =>
  }

  /** Where a value of type `t` goes. */
  function At(st: State, t: Type): (nat, nat) { WritesAt(st, Plain(t)) }

  /** A written value is in its place, and its place is below the cursor. */
  lemma ValueLies(env: Env, t: Type, v: Val, e: Encoding)
    requires Good(e) && EncodeValue(env, t, v, e).Some?
    ensures var e' := EncodeValue(env, t, v, e).value; var (at, bit) := At(e.Top(), t);
      e'.stack != [] && Lies(t, v, e, at, bit, e'.data) && Below(t, at, bit, e'.Top())
  {
    hide RoundUp, Good, Extends, WriteUint, WriteBool, WriteHandle, WriteInterface, WritePointer, EncodeObject, LittleEndian, Has, Put, Guard;
    GoodWords(e);
    EncodeAdvances(env, t, v, e);
    match (t, v)
    case (TBool, VBool(b)) => WriteBoolKeeps(e, b); BoolBelow(e); DataAt(e);
    case (TUint(w), VUint(x)) => UintLies(e, w.Bytes(), x);
    case (THandle(_), VHandle(h)) => HandleLies(e, h);
    case (TInterface(_), VInterface(h)) => InterfaceLies(e, h);
    case (TPointer(_, _), VNull) => UintLies(e, 8, 0);
    case (TPointer(_, target), VPointer(obj)) => PointerLies(env, target, obj, e);
    case (_, _) =>
  }

  lemma DataAt(e: Encoding)
    requires Good(e)
    ensures e.Top().limit <= |e.data|
  {
  }

  lemma BoolBelow(e: Encoding)
    requires Good(e)
    ensures Below(TBool, e.Top().offset, e.Top().bitOffset, e.Top().SkipBit())
  {
    if e.Top().bitOffset == 7 {
      assert e.Top().SkipBit().offset == e.Top().offset + 1;
    } else {
      assert e.Top().SkipBit().bitOffset == e.Top().bitOffset + 1;
    }
  }

  lemma UintLies(e: Encoding, n: nat, x: nat)
    requires n in {1, 2, 4, 8} && Good(e) && WriteUint(e, n, x).Some?
    ensures Has(WriteUint(e, n, x).value.data, e.Top().Pos(n), LittleEndian(x, n))
  {
    hide RoundUp, Good, Extends, WriteUint, LittleEndian, Has, Put;
    GoodWords(e);
    WriteUintKeeps(e, n, x);
    DataAt(e);
    PutHas(e.data, e.Top().Pos(n), LittleEndian(x, n));
  }

  lemma HandleLies(e: Encoding, h: Handle)
    requires Good(e) && InterfaceHandle(e, h).Some?
    ensures Has(InterfaceHandle(e, h).value.data, e.Top().Pos(4), LittleEndian(IndexOf(e, h), 4))
  {
    hide RoundUp, Good, Extends, WriteUint, WriteHandle, LittleEndian, Has, Put;
    GoodWords(e);
    if h == INVALID_HANDLE {
      UintLies(e, 4, INVALID_INDEX);
    } else {
      WriteHandleKeeps(e, h);
      DataAt(e);
      PutHas(e.data, e.Top().Pos(4), LittleEndian(|e.handles|, 4));
    }
  }

  lemma InterfaceLies(e: Encoding, h: Handle)
    requires Good(e) && WriteInterface(e, h).Some?
    ensures var data := WriteInterface(e, h).value.data;
      Has(data, e.Top().Pos(4), LittleEndian(IndexOf(e, h), 4)) && Has(data, e.Top().Pos(4) + 4, LittleEndian(0, 4))
  {
    hide RoundUp, Good, Extends, WriteUint, WriteHandle, LittleEndian, Has, Uncount;
    GoodWords(e);
    var e1 := InterfaceHandle(e, h).value;
    InterfaceHandleKeeps(e, h);
    HandleLies(e, h);
    GoodWords(e1);
    UncountKeeps(e1);
    var e2 := Uncount(e1);
    GoodWords(e2);
    UncountPlace(e1);
    AlignedAgain(e.Top(), 4);
    WriteUintKeeps(e2, 4, 0);
    UintLies(e2, 4, 0);
    HasBelow(e2, WriteUint(e2, 4, 0).value, e.Top().Pos(4), LittleEndian(IndexOf(e, h), 4));
  }

  lemma UncountPlace(e: Encoding)
    requires e.stack != []
    ensures Uncount(e).stack != [] && SamePlace(Uncount(e).Top(), e.Top())
  {
  }

  lemma PointerLies(env: Env, target: Target, obj: Object, e: Encoding)
    requires Good(e) && WritePointer(e).Some? && EncodeObject(env, target, obj, WritePointer(e).value).Some?
    ensures var data := EncodeObject(env, target, obj, WritePointer(e).value).value.data; var at := e.Top().Pos(8);
      |e.data| >= at && Has(data, at, LittleEndian(|e.data| - at, 8))
  {
    hide RoundUp, Good, Extends, WritePointer, EncodeObject, LittleEndian, Has, Put;
    GoodWords(e);
    var e1, at := WritePointer(e).value, e.Top().Pos(8);
    WritePointerKeeps(e);
    GoodWords(e1);
    DataAt(e);
    PutHas(e.data, at, LittleEndian(|e.data| - at, 8));
    ObjectKeeps(env, target, obj, e1);
    Prefixed(e1.data, EncodeObject(env, target, obj, e1).value.data, at, LittleEndian(|e.data| - at, 8));
  }

  lemma Prefixed(data: seq<byte>, more: seq<byte>, at: nat, bytes: seq<byte>)
    requires data <= more && Has(data, at, bytes)
    ensures Has(more, at, bytes)
  {
    HasStays(data, more, at, bytes);
  }

  ghost predicate ItemBelow(f: Field, at: nat, bit: nat, st: State) {
    if f.Union? then at + 16 <= st.offset else Below(f.t, at, bit, st)
  }

  lemma ItemLiesBelow(f: Field, x: Item, e0: Encoding, at: nat, bit: nat, e: Encoding, e': Encoding)
    requires Good(e) && Extends(e, e') && e.stack != [] && ItemLies(f, x, e0, at, bit, e.data) && ItemBelow(f, at, bit, e.Top())
    ensures ItemLies(f, x, e0, at, bit, e'.data)
  {
    hide Good, Extends, Has, LittleEndian, Lies;
    match (f, x)
    case (Plain(t), Single(v)) => LiesBelow(t, v, e0, at, bit, e, e');
    case (Union(_), NullUnion) =>
      HasBelow(e, e', at, LittleEndian(0, 8));
      HasBelow(e, e', at + 8, LittleEndian(0, 8));
    case (Union(t), Tagged(tag, v)) =>
      HasBelow(e, e', at, LittleEndian(16, 4) + LittleEndian(tag, 4));
      LiesBelow(t, v, e0, at + 8, 0, e, e');
    case (_, _) =>
  }

  /** A member starts right behind the union's header. */
  lemma MemberAt(st: State, at: nat, t: Type)
    requires Multiple(at, 8) && st.offset == at + 8 && st.bitOffset == 0
    ensures At(st, t) == (at + 8, 0)
  {
    hide RoundUp, Multiple;
    MultipleOf8Plus(at);
    if !t.TBool? {
      var n := FirstItem(Plain(t));
      MultipleOf8(at + 8, n);
      RoundUpLeast(at + 8, n, at + 8);
    }
  }

  lemma TaggedLies(env: Env, f: Field, tag: nat, v: Val, e: Encoding)
    requires Good(e) && f.Union? && EncodeField(env, f, Tagged(tag, v), e).Some?
    ensures var e' := EncodeField(env, f, Tagged(tag, v), e).value;
      ItemLies(f, Tagged(tag, v), e, e.Top().Pos(8), 0, e'.data)
  {
    hide RoundUp, WriteUnionHeader, EncodeValue, Good, Extends, LittleEndian, Put, Guard, Has, Lies, Multiple;
    GoodWords(e);
    var e1, at := WriteUnionHeader(e, tag).value, e.Top().Pos(8);
    var header := LittleEndian(16, 4) + LittleEndian(tag, 4);
    UnionHeaderKeeps(e, tag);
    TaggedKeeps(env, f, tag, v, e);
    DataAt(e);
    PutHas(e.data, at, header);
    ValueKeeps(env, f.member, v, e1);
    ValueLies(env, f.member, v, e1);
    GoodWords(e1);
    MemberAt(e1.Top(), at, f.member);
    HasBelow(e1, EncodeValue(env, f.member, v, e1).value, at, header);
    LiesFrom(f.member, v, e1, e, at + 8, EncodeValue(env, f.member, v, e1).value.data);
  }

  /** Only the handle table and the end of the buffer enter. */
  lemma LiesFrom(t: Type, v: Val, e: Encoding, e0: Encoding, at: nat, data: seq<byte>)
    requires Lies(t, v, e, at, 0, data) && e.handles == e0.handles && |e.data| == |e0.data|
    ensures Lies(t, v, e0, at, 0, data)
  {
    hide Has, LittleEndian;
  }

  lemma NullUnionLies(e: Encoding)
    requires Good(e) && WriteNullUnion(e).Some?
    ensures var data := WriteNullUnion(e).value.data; var at := e.Top().Pos(8);
      Has(data, at, LittleEndian(0, 8)) && Has(data, at + 8, LittleEndian(0, 8))
  {
    hide RoundUp, WriteNullUnion, Good, Extends, LittleEndian, Guard;
    GoodWords(e);
    var at, zero := e.Top().Pos(8), LittleEndian(0, 8);
    NullUnionKeeps(e);
    DataAt(e);
    var data := Put(e.data, at, zero);
    PutHas(e.data, at, zero);
    PutHas(data, at + 8, zero);
    HasStays(data, Put(data, at + 8, zero), at, zero);
  }

  /** A written field is in its place, and its place is below the cursor. */
  lemma FieldLies(env: Env, f: Field, x: Item, e: Encoding)
    requires Good(e) && EncodeField(env, f, x, e).Some?
    ensures var e' := EncodeField(env, f, x, e).value; var (at, bit) := WritesAt(e.Top(), f);
      e'.stack != [] && ItemLies(f, x, e, at, bit, e'.data) && ItemBelow(f, at, bit, e'.Top())
  {
    hide RoundUp, WriteUnionHeader, WriteNullUnion, EncodeValue, Good, Extends, LittleEndian, Has, Lies;
    GoodWords(e);
    FieldKeeps(env, f, x, e);
    match (f, x) {
      case (Plain(t), Single(v)) =>
        ValueLies(env, t, v, e);
      case (Union(_), NullUnion) =>
        UnionPast(e.Top(), f);
        NullUnionLies(e);
      case (Union(t), Tagged(tag, v)) =>
        UnionPast(e.Top(), f);
        TaggedLies(env, f, tag, v, e);
      case (_, _) =>
    }
  }

  lemma {:induction false} FieldsLie(env: Env, fs: seq<Field>, order: seq<Slot>, xs: seq<Item>, e: Encoding, n: nat, i: nat)
    requires Good(e) && i < n <= |order| && |xs| == |fs| && (forall s | s in order :: s.ord < |fs|)
    requires EncodeFields(env, fs, order, xs, e, n).Some?
    ensures order[i] in order && e.stack != [] && EncodeFields(env, fs, order, xs, e, i).Some?
    ensures var e' := EncodeFields(env, fs, order, xs, e, n).value; var before := EncodeFields(env, fs, order, xs, e, i).value;
      var f := fs[order[i].ord]; var (at, bit) := WritesAt(CursorAt(e.Top(), fs, order, i), f);
      e'.stack != [] && ItemLies(f, xs[order[i].ord], before, at, bit, e'.data) && ItemBelow(f, at, bit, e'.Top())
    decreases n
  {
    hide Good, Extends, EncodeField, Past, ItemLies, WritesAt, ItemBelow;
    assert order[n - 1] in order;
    GoodWords(e);
    FieldsKeep(env, fs, order, xs, e, n - 1);
    var e1, f1, x1 := EncodeFields(env, fs, order, xs, e, n - 1).value, fs[order[n - 1].ord], xs[order[n - 1].ord];
    var e' := EncodeField(env, f1, x1, e1).value;
    FieldKeeps(env, f1, x1, e1);
    if i == n - 1 {
      FieldLies(env, f1, x1, e1);
      WritesSame(e1.Top(), CursorAt(e.Top(), fs, order, i), f1);
    } else {
      FieldsLie(env, fs, order, xs, e, n - 1, i);
      assert order[i] in order;
      var f := fs[order[i].ord];
      var (at, bit) := WritesAt(CursorAt(e.Top(), fs, order, i), f);
      ItemLiesBelow(f, xs[order[i].ord], EncodeFields(env, fs, order, xs, e, i).value, at, bit, e1, e');
      BelowLater(f, at, bit, e1, e');
    }
  }

  lemma WritesSame(a: State, b: State, f: Field)
    requires SamePlace(a, b)
    ensures WritesAt(a, f) == WritesAt(b, f)
  {
    hide RoundUp;
    assert a.ByteOffset() == b.ByteOffset();
  }

  lemma BelowLater(f: Field, at: nat, bit: nat, e: Encoding, e': Encoding)
    requires Extends(e, e') && e.stack != [] && e'.stack != [] && ItemBelow(f, at, bit, e.Top())
    ensures ItemBelow(f, at, bit, e'.Top())
  {
    hide KindOf;
  }

  /** The packing order that the compiler computes. */
  function Packing(fs: seq<Field>): (order: seq<Slot>)
    ensures order == Pack(KindsOf(fs)) && Packed(fs, order)
  {
    PackIsPacked(fs);
    Pack(KindsOf(fs))
  }

  /** Writing the first `n` fields of a struct in packing order, from the start of
      its payload, puts each of them in the bytes and the bit that the compiler
      computed for it, and there it stays. */
  lemma EncoderFindsLayout(env: Env, fs: seq<Field>, xs: seq<Item>, e: Encoding, n: nat, i: nat)
    requires Good(e) && Multiple(e.Top().offset, 8) && e.Top().bitOffset == 0
    requires i < n <= |fs| == |xs| && EncodeFields(env, fs, Packing(fs), xs, e, n).Some?
    ensures var order := Packing(fs); var e' := EncodeFields(env, fs, order, xs, e, n).value;
      && order[i] in order && EncodeFields(env, fs, order, xs, e, i).Some?
      && ItemLies(fs[order[i].ord], xs[order[i].ord], EncodeFields(env, fs, order, xs, e, i).value,
                  e.Top().offset + order[i].offset, order[i].bit, e'.data)
  {
    hide Pack, Chain, KindOf, WritesAt, CursorAt, Good, EncodeFields, ItemLies;
    var order := Packing(fs);
    FieldsLie(env, fs, order, xs, e, n, i);
    CursorFindsSlot(e.Top(), e.Top().offset, fs, order, i);
  }

  // --------------------------------------------------- structs as objects

  /** Types and values of a struct without unions, in packing order. */
  function TypesIn(fs: seq<Field>, order: seq<Slot>): (ts: seq<Type>)
    requires forall i | 0 <= i < |order| :: order[i].ord < |fs| && fs[order[i].ord].Plain?
    ensures |ts| == |order|
  {
    seq(|order|, i requires 0 <= i < |order| => fs[order[i].ord].t)
  }

  function ValuesIn(xs: seq<Item>, order: seq<Slot>): (vs: seq<Val>)
    requires forall i | 0 <= i < |order| :: order[i].ord < |xs| && xs[order[i].ord].Single?
    ensures |vs| == |order|
  {
    seq(|order|, i requires 0 <= i < |order| => xs[order[i].ord].v)
  }

  lemma {:induction false} ValuesStep(env: Env, ts: seq<Type>, vs: seq<Val>, e: Encoding)
    requires |ts| == |vs| && vs != []
    ensures var l := |vs| - 1;
      EncodeValues(env, ts, vs, e) ==
        match EncodeValues(env, ts[..l], vs[..l], e)
        case None => None
        case Some(e1) => EncodeValue(env, ts[l], vs[l], e1)
    decreases |vs|
  {
    hide EncodeValue;
    var l := |vs| - 1;
    if l == 0 {
      assert ts[1..] == [] && vs[1..] == [] && ts[..0] == [] && vs[..0] == [];
      NoValues(env, e);
      assert EncodeValues(env, ts, vs, e) ==
        match EncodeValue(env, ts[0], vs[0], e) case None => None case Some(e1) => EncodeValues(env, [], [], e1);
      if EncodeValue(env, ts[0], vs[0], e).Some? {
        NoValues(env, EncodeValue(env, ts[0], vs[0], e).value);
      }
    } else if EncodeValue(env, ts[0], vs[0], e).Some? {
      ValuesStep(env, ts[1..], vs[1..], EncodeValue(env, ts[0], vs[0], e).value);
      assert ts[1..][..l - 1] == ts[..l][1..] && vs[1..][..l - 1] == vs[..l][1..];
    }
  }

  lemma NoValues(env: Env, e: Encoding)
    ensures EncodeValues(env, [], [], e) == Some(e)
  {
  }

  /** For a struct without unions the fields are written as the values of an
      object whose declaration lists them in packing order. */
  lemma {:induction false} FieldsAreValues(env: Env, fs: seq<Field>, order: seq<Slot>, xs: seq<Item>, e: Encoding, n: nat)
    requires n <= |order| && |xs| == |fs| && (forall s | s in order :: s.ord < |fs|)
    requires forall i | 0 <= i < |order| :: order[i].ord < |fs| && fs[order[i].ord].Plain? && xs[order[i].ord].Single?
    ensures EncodeFields(env, fs, order, xs, e, n) == EncodeValues(env, TypesIn(fs, order)[..n], ValuesIn(xs, order)[..n], e)
  {
    hide EncodeValue;
    var ts, vs := TypesIn(fs, order), ValuesIn(xs, order);
    if n == 0 {
      NoValues(env, e);
    } else {
      FieldsAreValues(env, fs, order, xs, e, n - 1);
      ValuesStep(env, ts[..n], vs[..n], e);
      assert ts[..n][..n - 1] == ts[..n - 1] && vs[..n][..n - 1] == vs[..n - 1];
    }
  }

  // -------------------------------------------------------------- acceptance

  /** What a value needs apart from room in its block: that it is a value of its
      type, a free place in the handle table, and that what it points to can be
      encoded. */
  ghost predicate Storable(env: Env, t: Type, v: Val, e: Encoding) {
    match (t, v)
    case (TBool, VBool(_)) => true
    case (TUint(w), VUint(x)) => x < Pow256(w.Bytes())
    case (THandle(nullable), VHandle(h)) => if h == INVALID_HANDLE then nullable else |e.handles| < INVALID_INDEX
    case (TInterface(nullable), VInterface(h)) => if h == INVALID_HANDLE then nullable else |e.handles| < INVALID_INDEX
    case (TPointer(nullable, _), VNull) => nullable
    case (TPointer(_, target), VPointer(obj)) =>
      WritePointer(e).Some? ==> EncodeObject(env, target, obj, WritePointer(e).value).Some?
    case (_, _) => false
  }

  ghost predicate ItemStorable(env: Env, f: Field, x: Item, e: Encoding) {
    match (f, x)
    case (Plain(t), Single(v)) => Storable(env, t, v, e)
    case (Union(_), NullUnion) => true
    case (Union(t), Tagged(tag, v)) =>
      tag < UINT32 && (WriteUnionHeader(e, tag).Some? ==> Storable(env, t, v, WriteUnionHeader(e, tag).value))
    case (_, _) => false
  }

  /** An 8-byte item that the encoder does not align before it checks the room: an
      integer or a null pointer, but not the pointer to an object. */
  predicate Unaligned(t: Type, v: Val) {
    t == TUint(W64) || (t.TPointer? && v.VNull?)
  }

  /** The block has room for the value at the cursor. */
  ghost predicate HasRoom(st: State, t: Type) {
    if t.TBool? then st.offset < st.limit else st.Pos(FirstItem(Plain(t))) + Bytes(t) <= st.limit
  }

  lemma UintAccepted(e: Encoding, n: nat, x: nat)
    requires Good(e) && n in {1, 2, 4, 8} && !e.Top().check && e.Top().Pos(n) + n <= e.Top().limit
    ensures WriteUint(e, n, x).Some? <==> !Wasteful(e.Top(), n)
  {
    hide RoundUp, Guard, LittleEndian, Put;
    LimitWords(e.Top());
    GuardExact(e.Top(), n);
  }

  lemma HandleAccepted(e: Encoding, h: Handle)
    requires Good(e) && !e.Top().check && e.Top().Pos(4) + 4 <= e.Top().limit
    ensures InterfaceHandle(e, h).Some? <==> h == INVALID_HANDLE || |e.handles| < INVALID_INDEX
  {
    hide RoundUp, WriteUint, Good, Multiple;
    GoodWords(e);
    if h == INVALID_HANDLE {
      UintAccepted(e, 4, INVALID_INDEX);
    } else if |e.handles| < INVALID_INDEX {
      HandlesKeep(e, e.handles + [h]);
      UintAccepted(e.(handles := e.handles + [h]), 4, |e.handles|);
    }
  }

  lemma InterfaceAccepted(e: Encoding, h: Handle)
    requires Good(e) && !e.Top().check && e.Top().Pos(4) + 8 <= e.Top().limit
    ensures WriteInterface(e, h).Some? <==> h == INVALID_HANDLE || |e.handles| < INVALID_INDEX
  {
    hide RoundUp, WriteUint, WriteHandle, Good, Extends, Uncount, Multiple;
    GoodWords(e);
    HandleAccepted(e, h);
    if InterfaceHandle(e, h).Some? {
      var e1 := InterfaceHandle(e, h).value;
      InterfaceHandleKeeps(e, h);
      GoodWords(e1);
      UncountKeeps(e1);
      UncountPlace(e1);
      GoodWords(Uncount(e1));
      AlignedAgain(e.Top(), 4);
      UintAccepted(Uncount(e1), 4, 0);
    }
  }

  lemma PointerAccepted(e: Encoding)
    requires Good(e) && !e.Top().check && e.Top().Pos(8) + 8 <= e.Top().limit
    ensures WritePointer(e).Some?
  {
    hide RoundUp, WriteUint, Good, Extends, Multiple;
    GoodWords(e);
    DataAt(e);
    AlignTwice(e.Top());
    AlignKeeps(e);
    UintAccepted(e.WithTop(e.Top().AlignToPointer()), 8, |e.data| - e.Top().Pos(8));
  }

  /** Where there is room, a value is written if and only if it can be stored and
      is not the wasteful case. */
  lemma ValueAccepted(env: Env, t: Type, v: Val, e: Encoding)
    requires Good(e) && !e.Top().check && HasRoom(e.Top(), t)
    ensures EncodeValue(env, t, v, e).Some? <==> Storable(env, t, v, e) && !(Unaligned(t, v) && Wasteful(e.Top(), 8))
  {
    hide RoundUp, Good, WriteUint, WriteHandle, WriteInterface, WritePointer, EncodeObject, Multiple, Wasteful;
    GoodWords(e);
    DataAt(e);
    match (t, v)
    case (TBool, VBool(b)) => BoolAccepted(e, b);
    case (TUint(w), VUint(x)) => UintAccepted(e, w.Bytes(), x); ShortIsClear(e.Top(), w.Bytes());
    case (THandle(_), VHandle(h)) => HandleAccepted(e, h);
    case (TInterface(_), VInterface(h)) => InterfaceAccepted(e, h);
    case (TPointer(_, _), VNull) => UintAccepted(e, 8, 0);
    case (TPointer(_, _), VPointer(_)) => PointerAccepted(e);
    case (_, _) =>
  }

  lemma ShortIsClear(st: State, n: nat)
    requires n in {1, 2, 4, 8}
    ensures n != 8 ==> !Wasteful(st, n)
  {
  }

  lemma BoolAccepted(e: Encoding, b: bool)
    requires Good(e) && !e.Top().check && e.Top().offset < e.Top().limit
    ensures WriteBool(e, b).Some?
  {
    hide Guard, SetByteBit;
    GuardBit(e.Top());
  }

  /** A field is refused in one case only: an unaligned 8-byte item that ends the
      block and directly follows an open byte of bools in the upper half of a
      16-byte line. */
  predicate Refused(fs: seq<Field>, order: seq<Slot>, xs: seq<Item>, base: nat, limit: nat, i: nat)
    requires i < |order| && |xs| == |fs| && forall s | s in order :: s.ord < |fs|
  {
    assert order[i] in order;
    var f, x := fs[order[i].ord], xs[order[i].ord];
    && i > 0
    && f.Plain? && x.Single? && Unaligned(f.t, x.v)
    && order[i - 1].kind.isBool && order[i - 1].bit < 7
    && (base + order[i - 1].offset) % 16 >= 8
    && limit == base + order[i].offset + 8
  }

  lemma UnionHeaderAccepted(e: Encoding, tag: nat)
    requires Good(e) && !e.Top().check && e.Top().Pos(8) + 16 <= e.Top().limit
    ensures WriteUnionHeader(e, tag).Some? <==> tag < UINT32
  {
    hide RoundUp, Guard, LittleEndian, Put;
    LimitWords(e.Top());
    GuardExact(e.Top(), 8);
    var at := e.Top().Pos(8);
    NextWord(at);
    GuardWhole(e.Top().(offset := at + 8, bitOffset := 0), 8);
  }

  lemma NullUnionAccepted(e: Encoding)
    requires Good(e) && !e.Top().check && e.Top().Pos(8) + 16 <= e.Top().limit
    ensures WriteNullUnion(e).Some?
  {
    hide RoundUp, WriteUint, Good, Extends, Uncount, Multiple;
    GoodWords(e);
    UintAccepted(e, 8, 0);
    var e1 := WriteUint(e, 8, 0).value;
    WriteUintKeeps(e, 8, 0);
    GoodWords(e1);
    UncountKeeps(e1);
    UncountPlace(e1);
    GoodWords(Uncount(e1));
    NextWord(e.Top().Pos(8));
    UintAccepted(Uncount(e1), 8, 0);
  }

  lemma TaggedAccepted(env: Env, f: Field, tag: nat, v: Val, e: Encoding)
    requires Good(e) && f.Union? && !e.Top().check && e.Top().Pos(8) + 16 <= e.Top().limit
    ensures EncodeField(env, f, Tagged(tag, v), e).Some? <==> ItemStorable(env, f, Tagged(tag, v), e)
  {
    hide RoundUp, WriteUnionHeader, EncodeValue, Good, Extends, LittleEndian, Put, Guard, Storable, Multiple;
    GoodWords(e);
    UnionHeaderAccepted(e, tag);
    if tag < UINT32 {
      var e1 := WriteUnionHeader(e, tag).value;
      UnionHeaderKeeps(e, tag);
      GoodWords(e1);
      MemberAt(e1.Top(), e.Top().Pos(8), f.member);
      ValueAccepted(env, f.member, v, e1);
      if EncodeValue(env, f.member, v, e1).Some? {
        ValueKeeps(env, f.member, v, e1);
        GoodWords(EncodeValue(env, f.member, v, e1).value);
      }
    }
  }

  /** The condition of the wasteful case, read off the slots. */
  lemma WastefulSlot(fs: seq<Field>, order: seq<Slot>, st: State, here: State, i: nat)
    requires Packed(fs, order) && i < |order| && order[i].kind.align == 8 && !order[i].kind.isBool
    requires Multiple(st.offset, 8) && st.bitOffset == 0
    requires SamePlace(here, CursorAt(st, fs, order, i)) && here.Pos(8) == st.offset + order[i].offset
    ensures Wasteful(here, 8) <==>
      && i > 0 && order[i - 1].kind.isBool && order[i - 1].bit < 7
      && (st.offset + order[i - 1].offset) % 16 >= 8 && here.limit == st.offset + order[i].offset + 8
  {
    hide RoundUp, Multiple, Past, Chain, KindOf;
    if i > 0 {
      CursorFindsSlot(st, st.offset, fs, order, i);
    }
  }

  /** The fields of a struct, in packing order and in a block of the size that the
      compiler computed: with the first `i` fields written, the next one is written
      if and only if it can be stored at all and is not the refused case. */
  lemma EncoderAcceptsLayout(env: Env, fs: seq<Field>, xs: seq<Item>, e: Encoding, i: nat)
    requires Good(e) && Multiple(e.Top().offset, 8) && e.Top().bitOffset == 0 && !e.Top().check
    requires i < |fs| == |xs| && e.Top().limit == e.Top().offset + PayloadSize(KindsOf(fs), |fs|) - HEADER_SIZE
    requires EncodeFields(env, fs, Packing(fs), xs, e, i).Some?
    ensures var order := Packing(fs); var before := EncodeFields(env, fs, order, xs, e, i).value;
      && order[i] in order
      && (EncodeField(env, fs[order[i].ord], xs[order[i].ord], before).Some? <==>
            && ItemStorable(env, fs[order[i].ord], xs[order[i].ord], before)
            && !Refused(fs, order, xs, e.Top().offset, e.Top().limit, i))
  {
    hide Pack, Chain, Multiple, PayloadSize, Good, EncodeFields, EncodeValue, Past, RoundUp, Storable, Wasteful, WriteUnionHeader, WriteNullUnion;
    var order := Packing(fs);
    var before := EncodeFields(env, fs, order, xs, e, i).value;
    GoodWords(e);
    FieldsKeep(env, fs, order, xs, e, i);
    GoodWords(before);
    CursorFindsSlot(e.Top(), e.Top().offset, fs, order, i);
    SlotInPayload(KindsOf(fs), i);
    assert order[i] in order;
    var f, x := fs[order[i].ord], xs[order[i].ord];
    WritesSame(before.Top(), CursorAt(e.Top(), fs, order, i), f);
    if f.Union? {
      if x.NullUnion? {
        NullUnionAccepted(before);
      } else if x.Tagged? {
        TaggedAccepted(env, f, x.tag, x.v, before);
      }
    } else if x.Single? {
      ValueAccepted(env, f.t, x.v, before);
      if Unaligned(f.t, x.v) {
        WastefulSlot(fs, order, e.Top(), before.Top(), i);
      }
    }
  }

  // -------------------------------------------------------- the size of a struct

  /** The bytes from the header to the end of the last field, in whole words. */
  function FieldBytes(order: seq<Slot>): nat { if order == [] then 0 else RoundUp(order[|order| - 1].End(), 8) }

  /** A struct whose block has room for exactly its packed fields: the size word that
      the encoder writes for it, and the bytes it claims, are the number of bytes in
      the last entry of the compiler's version table. */
  lemma SizeWordIsNumBytes(fields: seq<FieldDecl>, version: nat, e: Encoding)
    requires VersionInfo(fields).Ok? && HEADER_SIZE + FieldBytes(Pack(Kinds(fields))) < UINT32
    ensures var info := VersionInfo(fields).value; var s := |e.data|;
      var e' := Start(e, HEADER_SIZE + FieldBytes(Pack(Kinds(fields))), version, false);
      && info != []
      && |e'.data| == s + info[|info| - 1].numBytes && s + 4 <= |e'.data|
      && Value(e'.data[s..s + 4]) == info[|info| - 1].numBytes
  {
    hide RoundUp, Multiple, Pack, LittleEndian, VersionInfo, Kinds, PayloadSize;
    var kinds := Kinds(fields);
    var size := HEADER_SIZE + FieldBytes(Pack(kinds));
    LastEntrySize(fields);
    PayloadSizeIsLastEnd(kinds);
    PayloadSizeBounds(kinds);
    RoundUpLeast(size, 8, size);
    var e' := Start(e, size, version, false);
    assert e'.data[|e.data|..|e.data| + 4] == LittleEndian(size, 4);
    Powers();
    LittleEndianRoundTrip(size, 4);
  }
}
