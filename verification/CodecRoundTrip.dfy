/**
  Decoding what was encoded.  The decoder runs on a suffix of the encoded bytes
  (a message payload behind its header), so its positions are the encoder's
  less a shift of whole words.
*/
module CodecRoundTrip {
  import opened Wire
  import opened Layout
  import opened Cursor
  import opened Codec
  import opened CodecFrame

  // ------------------------------------------------- when decoding succeeds

  function Shift(st: State, s: nat): State
    requires s <= st.offset && s <= st.limit
  {
    st.(offset := st.offset - s, limit := st.limit - s)
  }

  /** The decoder's check lets the item in. */
  ghost predicate ClearItem(e: Encoding, n: nat, s: nat)
    requires n in {1, 2, 4, 8}
  {
    e.stack != [] && s <= e.Top().offset && s <= e.Top().limit ==> !Wasteful(Shift(e.Top(), s), n)
  }

  /** No 8-byte item of the value meets the wasteful case of the decoder's
      check.  Only the cursor positions of the run enter here. */
  ghost predicate ClearValue(env: Env, t: Type, v: Val, e: Encoding, s: nat)
    decreases v, 1
  {
    match (t, v)
    case (TUint(w), VUint(_)) => ClearItem(e, w.Bytes(), s)
    case (TPointer(_, _), VNull) => ClearItem(e, 8, s)
    case (TPointer(_, target), VPointer(obj)) =>
      ClearItem(e, 8, s) && (WritePointer(e).Some? ==> ClearObject(env, target, obj, WritePointer(e).value, s))
    case (_, _) => true
  }

  ghost predicate ClearObject(env: Env, target: Target, obj: Object, e: Encoding, s: nat)
    decreases obj
  {
    match BodyOf(env, target, obj)
    case None => true
    case Some(b) =>
      var vs := if obj.OArray? then obj.elems else obj.fields;
      ClearValues(env, b.types, vs, Start(e, b.size, b.elements, b.check), s)
  }

  ghost predicate ClearValues(env: Env, ts: seq<Type>, vs: seq<Val>, e: Encoding, s: nat)
    decreases vs, 0
  {
    |ts| == |vs| && vs != [] ==>
      && ClearValue(env, ts[0], vs[0], e, s)
      && (EncodeValue(env, ts[0], vs[0], e).Some? ==>
            ClearValues(env, ts[1..], vs[1..], EncodeValue(env, ts[0], vs[0], e).value, s))
  }

  /** Struct sizes are whole words. */
  ghost predicate WholeWords(env: Env) {
    forall name | name in env :: Multiple(env[name].size, 8)
  }

  // ----------------------------------------------------- encoder and decoder

  /** The decoder stands where the encoder stood. */
  ghost predicate Matches(e: Encoding, d: Decoding, s: nat) {
    && e.stack != [] && d.stack != []
    && e.Top().offset == d.Top().offset + s
    && e.Top().bitOffset == d.Top().bitOffset
    && d.Top().limit + s <= e.Top().limit
    && e.Top().elements == d.Top().elements
    && e.Top().processed == d.Top().processed
    && e.Top().check == d.Top().check
    && d.end + s <= |e.data|
    && d.nextHandle <= |e.handles|
  }

  /** `full` has what the run from `e` to `e'` wrote. */
  ghost predicate Agree(full: seq<byte>, e: Encoding, e': Encoding) {
    && e.stack != [] && e'.stack != []
    && e'.Top().limit <= |e'.data| <= |full|
    && e'.Top().offset <= e'.Top().limit
    && (forall p | |e.data| <= p < |e'.data| :: full[p] == e'.data[p])
    && (forall p | e.Top().offset <= p < e'.Top().offset :: full[p] == e'.data[p])
    && (e'.Top().bitOffset > 0 && e'.Top().offset < e'.Top().limit ==>
          Low(full[e'.Top().offset], e'.Top().bitOffset) == Low(e'.data[e'.Top().offset], e'.Top().bitOffset))
  }

  /** Only the top block's cursor moved. */
  ghost predicate Kept(d: Decoding, d': Decoding) {
    && d.stack != [] && d'.stack != []
    && d'.stack[..|d'.stack| - 1] == d.stack[..|d.stack| - 1]
    && d'.Top().limit == d.Top().limit
  }

  /** The decoder's block has room for the next item. */
  ghost predicate ItemRoom(e: Encoding, d: Decoding, s: nat, n: nat)
    requires e.stack != [] && d.stack != [] && n in {1, 2, 4, 8}
  {
    || d.Top().limit + s == e.Top().limit
    || (d.Top().bitOffset == 0 && d.Top().Pos(n) + n <= d.Top().limit)
  }

  /** Room for `n` more array elements of type `t`. */
  ghost predicate ArrayRoom(st: State, t: Type, n: nat) {
    match t
    case TBool => 8 * st.offset + st.bitOffset + n <= 8 * st.limit
    case TUint(w) => ElementRoom(st, w.Bytes(), n)
    case THandle(_) => ElementRoom(st, 4, n)
    case TInterface(_) => ElementRoom(st, 8, n)
    case TPointer(_, _) => ElementRoom(st, 8, n)
  }

  ghost predicate ElementRoom(st: State, size: nat, n: nat)
    requires size in {1, 2, 4, 8}
  {
    st.bitOffset == 0 && Multiple(st.offset, size) && st.offset + n * size <= st.limit
  }

  ghost predicate Room(e: Encoding, d: Decoding, s: nat, ts: seq<Type>)
    requires e.stack != [] && d.stack != []
  {
    || d.Top().limit + s == e.Top().limit
    || (ts != [] ==> (forall i | 0 <= i < |ts| :: ts[i] == ts[0]) && ArrayRoom(d.Top(), ts[0], |ts|))
  }

  lemma MultipleShift(r: nat, s: nat, n: nat)
    requires n in {1, 2, 4, 8} && Multiple(r, n) && Multiple(s, 8)
    ensures Multiple(r + s, n)
  {
    hide Multiple;
    MultipleOf8(s, n);
    MultipleSum(r, s, n);
  }

  lemma RoundUpShift(x: nat, s: nat, n: nat)
    requires n in {1, 2, 4, 8} && Multiple(s, 8)
    ensures RoundUp(x + s, n) == RoundUp(x, n) + s
  {
    hide RoundUp, Multiple;
    var a, b := RoundUp(x + s, n), RoundUp(x, n);
    MultipleShift(b, s, n);
    RoundUpLeast(x + s, n, b + s);
    MultipleGap(a, b + s, n);
  }

  lemma PosShift(a: State, b: State, s: nat, n: nat)
    requires n in {1, 2, 4, 8} && Multiple(s, 8)
    requires a.offset == b.offset + s && a.bitOffset == b.bitOffset
    ensures a.Pos(n) == b.Pos(n) + s
  {
    hide RoundUp, Multiple;
    RoundUpShift(b.ByteOffset(), s, n);
  }

  /** Restricting agreement to the first part of a run. */
  lemma AgreeFirst(full: seq<byte>, e: Encoding, e1: Encoding, e2: Encoding)
    requires Good(e) && Good(e1) && Good(e2) && Extends(e, e1) && Extends(e1, e2) && Agree(full, e, e2)
    ensures Agree(full, e, e1)
  {
    hide Multiple, Fits;
    var b, c := e1.Top(), e2.Top();
    if b.bitOffset > 0 && b.offset < b.limit {
      if b.offset == c.offset {
        LowShorter(full[b.offset], e2.data[b.offset], b.bitOffset, c.bitOffset);
      }
    }
  }

  lemma AgreeSecond(full: seq<byte>, e: Encoding, e1: Encoding, e2: Encoding)
    requires Good(e) && Good(e1) && Good(e2) && Extends(e, e1) && Extends(e1, e2) && Agree(full, e, e2)
    ensures Agree(full, e1, e2)
  {
    hide Multiple, Fits, Low;
  }

  // ------------------------------------------------------------------- items

  lemma DecoderGuard(e: Encoding, d: Decoding, s: nat, n: nat)
    requires n in {1, 2, 4, 8} && Good(e) && Matches(e, d, s) && Multiple(s, 8)
    requires e.Top().Quota() && e.Top().Pos(n) + n <= e.Top().limit
    requires ItemRoom(e, d, s, n)
    ensures Guard(d.Top(), 8 * n) <==> ClearItem(e, n, s)
  {
    hide Guard, RoundUp;
    PosShift(e.Top(), d.Top(), s, n);
    if d.Top().bitOffset == 0 {
      GuardWhole(d.Top(), n);
    } else {
      assert Multiple(d.Top().limit, 8) by {
        assert e.Top().limit == 8 * (e.Top().limit / 8) && s == 8 * (s / 8);
        assert d.Top().limit == 8 * (e.Top().limit / 8 - s / 8);
      }
      GuardExact(d.Top(), n);
      assert Shift(e.Top(), s) == d.Top();
    }
  }

  /** The part of the decoder's input that an item of `n` bytes occupies. */
  lemma ItemBytes(e: Encoding, e': Encoding, n: nat, bytes: seq<byte>, full: seq<byte>, s: nat, d: Decoding)
    requires n in {1, 2, 4, 8} && Good(e) && Matches(e, d, s) && Multiple(s, 8)
    requires e'.stack != [] && e'.Top() == e.Top().SkipItem(n) && |e'.data| == |e.data|
    requires e.Top().Pos(n) + n <= e.Top().limit && |bytes| == n
    requires e'.data == Put(e.data, e.Top().Pos(n), bytes)
    requires Agree(full, e, e')
    ensures var at := d.Top().Pos(n);
      at + n <= |full| - s && full[s..][at..at + n] == bytes
  {
    hide RoundUp, Fits, Low;
    PosShift(e.Top(), d.Top(), s, n);
    var at := e.Top().Pos(n);
    assert e.Top().offset <= at;
    forall i | 0 <= i < n ensures full[at + i] == bytes[i] {
      assert e'.data[at + i] == bytes[i];
    }
  }

  lemma ReadItem(e: Encoding, e': Encoding, n: nat, v: nat, full: seq<byte>, s: nat, d: Decoding)
    requires n in {1, 2, 4, 8} && v < Pow256(n)
    requires Good(e) && Matches(e, d, s) && Multiple(s, 8)
    requires e'.stack != [] && e'.Top() == e.Top().SkipItem(n) && |e'.data| == |e.data| && e.handles <= e'.handles
    requires e.Top().Quota() && e.Top().Pos(n) + n <= e.Top().limit
    requires e'.data == Put(e.data, e.Top().Pos(n), LittleEndian(v, n))
    requires Agree(full, e, e')
    ensures var r := ReadUint(full[s..], d, n);
      && (ItemRoom(e, d, s, n) ==> (r.Some? <==> ClearItem(e, n, s)))
      && (r.Some? ==> r.value.value == v && Matches(e', r.value.rest, s) && Kept(d, r.value.rest)
                      && r.value.rest == d.WithTop(d.Top().SkipItem(n)))
  {
    hide Guard, RoundUp, LittleEndian, Good, Agree, Put, Wasteful, ItemRoom;
    assert s <= |e.data| <= |full| by { WithinFull(full, e, e'); }
    LittleEndianRoundTrip(v, n);
    ItemBytes(e, e', n, LittleEndian(v, n), full, s, d);
    PosShift(e.Top(), d.Top(), s, n);
    if ItemRoom(e, d, s, n) {
      DecoderGuard(e, d, s, n);
    }
  }

  lemma WithinFull(full: seq<byte>, e: Encoding, e': Encoding)
    requires Agree(full, e, e')
    ensures |e'.data| <= |full|
  {
  }

  lemma ReadBoolItem(e: Encoding, e': Encoding, b: bool, full: seq<byte>, s: nat, d: Decoding)
    requires Good(e) && Matches(e, d, s) && WriteBool(e, b) == Some(e') && Agree(full, e, e')
    ensures var r := ReadBool(full[s..], d);
      && (d.Top().offset < d.Top().limit ==> r.Some?)
      && (r.Some? ==> r.value.value == b && Matches(e', r.value.rest, s) && Kept(d, r.value.rest))
  {
    hide Guard, Multiple, SetBit, Fits;
    WriteBoolKeeps(e, b);
    GuardBit(e.Top());
    GuardBit(d.Top());
    var at, k := e.Top().offset, e.Top().bitOffset;
    assert full[s..][at - s] == full[at];
    if k < 7 {
      LowBit(full[at], e'.data[at], k, k + 1);
    } else {
      assert full[at] == e'.data[at];
    }
  }

  lemma ReadHandleItem(e: Encoding, e': Encoding, h: Handle, full: seq<byte>, hs: seq<Handle>, s: nat, d: Decoding)
    requires Good(e) && Matches(e, d, s) && Multiple(s, 8)
    requires InterfaceHandle(e, h) == Some(e') && Agree(full, e, e') && e'.handles <= hs
    ensures var r := ReadHandle(full[s..], hs, d);
      && (ItemRoom(e, d, s, 4) ==> r.Some?)
      && (r.Some? ==> r.value.value == h && Matches(e', r.value.rest, s) && Kept(d, r.value.rest)
                      && r.value.rest.Top() == d.Top().SkipItem(4))
  {
    hide Guard, RoundUp, LittleEndian, Good, Agree, Put, ItemRoom, ReadUint, Wasteful;
    Powers();
    assert ClearItem(e, 4, s) by { NotWasteful(e, s); }
    if h == INVALID_HANDLE {
      WriteUintKeeps(e, 4, INVALID_INDEX);
      ReadItem(e, e', 4, INVALID_INDEX, full, s, d);
    } else {
      WriteHandleKeeps(e, h);
      ReadItem(e, e', 4, |e.handles|, full, s, d);
      assert hs[|e.handles|] == e'.handles[|e.handles|] == h;
    }
  }

  lemma NotWasteful(e: Encoding, s: nat)
    ensures ClearItem(e, 4, s) && ClearItem(e, 2, s) && ClearItem(e, 1, s)
  {
  }

  lemma ReadInterfaceItem(e: Encoding, e': Encoding, h: Handle, full: seq<byte>, hs: seq<Handle>, s: nat, d: Decoding)
    requires Good(e) && Matches(e, d, s) && Multiple(s, 8)
    requires WriteInterface(e, h) == Some(e') && Agree(full, e, e') && e'.handles <= hs
    ensures var r := ReadInterface(full[s..], hs, d);
      && (InterfaceRoom(e, d, s) ==> r.Some?)
      && (r.Some? ==> r.value.value == h && Matches(e', r.value.rest, s) && Kept(d, r.value.rest)
                      && r.value.rest.Top().offset == d.Top().Pos(4) + 8 && r.value.rest.Top().bitOffset == 0)
  {
    hide Guard, RoundUp, LittleEndian, Good, Agree, Put, ItemRoom, ReadUint, ReadHandle, Wasteful, WriteUint, Extends;
    var e1 := InterfaceHandle(e, h).value;
    var e2 := Uncount(e1);
    InterfaceHandleKeeps(e, h);
    UncountKeeps(e1);
    WriteUintKeeps(e2, 4, 0);
    ExtendsTrans(e, e1, e2);
    ExtendsTrans(e1, e2, e');
    AgreeFirst(full, e, e1, e');
    AgreeSecond(full, e, e2, e');
    ExtendedHandles(e2, e');
    ReadHandleItem(e, e1, h, full, hs, s, d);
    WithinFull(full, e, e');
    GoodWords(e');
    var r := ReadHandle(full[s..], hs, d);
    if r.Some? {
      var d1 := r.value.rest;
      var d2 := d1.WithTop(d1.Top().Uncount());
      assert Matches(e2, d2, s) && Kept(d, d2);
      Powers();
      NotWasteful(e2, s);
      ReadItem(e2, e', 4, 0, full, s, d2);
      AlignedAgain(d.Top(), 4);
      if InterfaceRoom(e, d, s) {
        SecondHalfRoom(e, d, e2, d2, s);
      }
    }
    if InterfaceRoom(e, d, s) {
      FirstHalfRoom(e, d, s);
    }
  }

  /** Room for both halves of an interface. */
  ghost predicate InterfaceRoom(e: Encoding, d: Decoding, s: nat)
    requires e.stack != [] && d.stack != []
  {
    || d.Top().limit + s == e.Top().limit
    || (d.Top().bitOffset == 0 && d.Top().Pos(4) + 8 <= d.Top().limit)
  }

  lemma FirstHalfRoom(e: Encoding, d: Decoding, s: nat)
    requires e.stack != [] && d.stack != [] && InterfaceRoom(e, d, s)
    ensures ItemRoom(e, d, s, 4)
  {
  }

  lemma SecondHalfRoom(e: Encoding, d: Decoding, e2: Encoding, d2: Decoding, s: nat)
    requires e.stack != [] && d.stack != [] && e2.stack != [] && d2.stack != [] && InterfaceRoom(e, d, s)
    requires e2.Top().limit == e.Top().limit && d2.Top().limit == d.Top().limit
    requires d2.Top().bitOffset == 0 && d2.Top().offset == d.Top().Pos(4) + 4
    ensures ItemRoom(e2, d2, s, 4)
  {
    hide RoundUp;
    AlignedAgain(d.Top(), 4);
    assert d2.Top().Pos(4) == d2.Top().offset by {
      RoundUpLeast(d2.Top().offset, 4, d2.Top().offset) by { MultipleShift4(d.Top().Pos(4)); }
    }
  }

  lemma MultipleShift4(x: nat)
    requires Multiple(x, 4)
    ensures Multiple(x + 4, 4)
  {
    assert x + 4 == 4 * (x / 4 + 1);
  }

  /** A cursor behind an item is aligned for another one of the same size. */
  lemma AlignedAgain(st: State, n: nat)
    requires n in {1, 2, 4, 8}
    ensures RoundUp(st.Pos(n) + n, n) == st.Pos(n) + n
  {
    hide RoundUp, Multiple;
    RoundUpPlus(st.Pos(n), n);
    RoundUpLeast(st.Pos(n), n, st.Pos(n));
  }

  lemma ExtendedHandles(e: Encoding, e': Encoding)
    requires Extends(e, e')
    ensures e.handles <= e'.handles && e'.Top().limit == e.Top().limit && |e.data| <= |e'.data|
  {
  }

  /** A non-null pointer leads the decoder to where the encoder put the object. */
  lemma ReadPointerItem(e: Encoding, e': Encoding, full: seq<byte>, s: nat, d: Decoding)
    requires Good(e) && Matches(e, d, s) && Multiple(s, 8)
    requires WritePointer(e) == Some(e') && Agree(full, e, e') && |e.data| < |full| && |e.data| < 0x1_0000_0000_0000_0000
    ensures var r := ReadPointer(full[s..], d);
      && (ItemRoom(e, d, s, 8) ==> (r.Some? <==> ClearItem(e, 8, s)))
      && (r.Some? ==> r.value.value != 0 && Matches(e', r.value.rest, s) && Kept(d, r.value.rest)
                      && r.value.rest.end + s == |e.data|
                      && r.value.rest.Top() == d.Top().SkipItem(8))
  {
    hide Guard, RoundUp, LittleEndian, Agree, Put, ItemRoom, ReadUint, Wasteful, Extends, Blank, WritePointer;
    WritePointerKeeps(e);
    Powers();
    var at := e.Top().Pos(8);
    var p := |e.data| - at;
    BlankBounds(e);
    ReadItem(e, e', 8, p, full, s, d);
    PosShift(e.Top(), d.Top(), s, 8);
    assert (|e.data| - s) % 8 == 0 by {
      assert |e.data| == 8 * (|e.data| / 8) && s == 8 * (s / 8);
    }
  }

  lemma BlankBounds(e: Encoding)
    requires Good(e)
    ensures e.Top().limit <= |e.data|
  {
  }

  // ----------------------------------------------------------------- values

  const MEMORY: nat := 0x1_0000_0000_0000_0000

  /** Room for one value of type `t`. */
  ghost predicate ValueRoom(e: Encoding, d: Decoding, s: nat, t: Type)
    requires e.stack != [] && d.stack != []
  {
    match t
    case TBool => d.Top().limit + s == e.Top().limit || d.Top().offset < d.Top().limit
    case TUint(w) => ItemRoom(e, d, s, w.Bytes())
    case THandle(_) => ItemRoom(e, d, s, 4)
    case TInterface(_) => InterfaceRoom(e, d, s)
    case TPointer(_, _) => ItemRoom(e, d, s, 8)
  }

  /** What decoding a value from a matching state yields. */
  ghost predicate ReadsBack(e': Encoding, s: nat, d: Decoding, r: Option<Read<Val>>, v: Val) {
    r.Some? ==> r.value.value == v && Matches(e', r.value.rest, s) && Kept(d, r.value.rest)
  }

  lemma {:induction false} ValueReadsBack(
    env: Env, t: Type, v: Val, e: Encoding, e': Encoding, full: seq<byte>, hs: seq<Handle>, s: nat, d: Decoding)
    requires Good(e) && Matches(e, d, s) && Multiple(s, 8) && d.end <= |full| - s
    requires EncodeValue(env, t, v, e) == Some(e') && Agree(full, e, e') && e'.handles <= hs && |full| < MEMORY
    ensures var r := DecodeValue(env, t, full[s..], hs, d);
      && ReadsBack(e', s, d, r, v)
      && (WholeWords(env) && ValueRoom(e, d, s, t) ==> (r.Some? <==> ClearValue(env, t, v, e, s)))
    decreases v, 1
  {
    hide Good, Agree, Extends, Matches, Kept, WriteUint, WriteBool, WriteHandle, WriteInterface, WritePointer,
         EncodeObject, ReadUint, ReadBool, ReadHandle, ReadInterface, ReadPointer, DecodeObject, Guard, Wasteful,
         RoundUp, Multiple, ClearItem, ClearObject, ItemRoom, InterfaceRoom, WholeWords;
    match (t, v)
    case (TBool, VBool(b)) =>
      BoolRoom(e, d, s, b);
      ReadBoolItem(e, e', b, full, s, d);
    case (TUint(w), VUint(x)) =>
      UintReadsBack(e, e', w.Bytes(), x, full, s, d);
    case (THandle(nullable), VHandle(h)) => ReadHandleItem(e, e', h, full, hs, s, d);
    case (TInterface(nullable), VInterface(h)) => ReadInterfaceItem(e, e', h, full, hs, s, d);
    case (TPointer(nullable, _), VNull) =>
      NullReadsBack(e, e', full, s, d);
    case (TPointer(nullable, target), VPointer(obj)) => PointerReadsBack(env, nullable, target, obj, e, e', full, hs, s, d);
    case (_, _) =>
  }

  lemma UintReadsBack(e: Encoding, e': Encoding, n: nat, v: nat, full: seq<byte>, s: nat, d: Decoding)
    requires n in {1, 2, 4, 8} && v < Pow256(n)
    requires Good(e) && Matches(e, d, s) && Multiple(s, 8) && WriteUint(e, n, v) == Some(e') && Agree(full, e, e')
    ensures var r := ReadUint(full[s..], d, n);
      && (ItemRoom(e, d, s, n) ==> (r.Some? <==> ClearItem(e, n, s)))
      && (r.Some? ==> r.value.value == v && Matches(e', r.value.rest, s) && Kept(d, r.value.rest))
  {
    hide Good, Agree, Extends, Matches, Kept, WriteUint, ReadUint, RoundUp, Multiple, ClearItem, ItemRoom, Put, LittleEndian, Pow256;
    WriteUintKeeps(e, n, v);
    GoodWords(e);
    GoodWords(e');
    ReadItem(e, e', n, v, full, s, d);
  }

  lemma NullReadsBack(e: Encoding, e': Encoding, full: seq<byte>, s: nat, d: Decoding)
    requires Good(e) && Matches(e, d, s) && Multiple(s, 8) && WriteUint(e, 8, 0) == Some(e') && Agree(full, e, e')
    ensures var r := ReadPointer(full[s..], d);
      && (ItemRoom(e, d, s, 8) ==> (r.Some? <==> ClearItem(e, 8, s)))
      && (r.Some? ==> r.value.value == 0 && Matches(e', r.value.rest, s) && Kept(d, r.value.rest))
  {
    hide Good, Agree, Extends, Matches, Kept, WriteUint, ReadUint, RoundUp, Multiple, ClearItem, ItemRoom, Pow256, ReadPointer;
    Powers();
    UintReadsBack(e, e', 8, 0, full, s, d);
    assert |e'.data| == |e.data| by { WriteUintKeeps(e, 8, 0); }
    MatchesWithin(e, e', full, s, d);
    NullPointer(full[s..], d);
  }

  lemma MatchesWithin(e: Encoding, e': Encoding, full: seq<byte>, s: nat, d: Decoding)
    requires Matches(e, d, s) && Agree(full, e, e') && |e.data| <= |e'.data|
    ensures s <= |full|
  {
  }

  lemma NullPointer(buf: seq<byte>, d: Decoding)
    ensures ReadUint(buf, d, 8).Some? && ReadUint(buf, d, 8).value.value == 0 ==> ReadPointer(buf, d) == ReadUint(buf, d, 8)
    ensures ReadUint(buf, d, 8).None? ==> ReadPointer(buf, d).None?
  {
  }

  lemma BoolRoom(e: Encoding, d: Decoding, s: nat, b: bool)
    requires Good(e) && Matches(e, d, s) && WriteBool(e, b).Some?
    ensures d.Top().limit + s == e.Top().limit ==> d.Top().offset < d.Top().limit
  {
    hide Guard, SetBit;
    GuardBit(e.Top());
  }

  lemma {:induction false} PointerReadsBack(
    env: Env, nullable: bool, target: Target, obj: Object, e: Encoding, e': Encoding, full: seq<byte>, hs: seq<Handle>, s: nat, d: Decoding)
    requires Good(e) && Matches(e, d, s) && Multiple(s, 8) && d.end <= |full| - s && |full| < MEMORY
    requires WritePointer(e).Some? && EncodeObject(env, target, obj, WritePointer(e).value) == Some(e')
    requires Agree(full, e, e') && e'.handles <= hs
    ensures var r := DecodeValue(env, TPointer(nullable, target), full[s..], hs, d);
      && ReadsBack(e', s, d, r, VPointer(obj))
      && (WholeWords(env) && ItemRoom(e, d, s, 8) ==>
            (r.Some? <==> ClearItem(e, 8, s) && ClearObject(env, target, obj, WritePointer(e).value, s)))
    decreases obj, 1
  {
    hide Good, Extends, WritePointer, EncodeObject, ReadPointer, DecodeObject, RoundUp, Multiple, ClearItem,
         ClearObject, ItemRoom, WholeWords, DecodeValue, Matches, Kept, Agree;
    var e1 := WritePointer(e).value;
    WritePointerKeeps(e);
    GoodWords(e1);
    ObjectKeeps(env, target, obj, e1);
    AppendsKeep(e1, e');
    AgreeFirst(full, e, e1, e');
    WithinFull(full, e, e');
    MatchesEnd(e, s, d);
    ReadPointerItem(e, e1, full, s, d);
    var rp := ReadPointer(full[s..], d);
    DecodePointerUnfold(env, nullable, target, full[s..], hs, d);
    if rp.Some? {
      var d1 := rp.value.rest;
      AgreeNew(full, e, e1, e');
      MatchesEnd(e1, s, d1);
      ObjectReadsBack(env, target, obj, e1, e', full, hs, s, d1);
      var r := DecodeObject(env, target, full[s..], hs, d1);
      if r.Some? {
        MatchesAfter(e1, e', s, d, d1, r.value.rest);
      }
    }
  }

  lemma MatchesEnd(e: Encoding, s: nat, d: Decoding)
    requires Matches(e, d, s)
    ensures d.end + s <= |e.data| && d.nextHandle <= |e.handles|
  {
  }

  lemma AgreeNew(full: seq<byte>, e: Encoding, e1: Encoding, e': Encoding)
    requires Agree(full, e, e') && |e1.data| == |e.data|
    ensures |e'.data| <= |full| && forall p | |e1.data| <= p < |e'.data| :: full[p] == e'.data[p]
  {
  }

  lemma MatchesAfter(e1: Encoding, e': Encoding, s: nat, d: Decoding, d1: Decoding, d2: Decoding)
    requires Matches(e1, d1, s) && Kept(d, d1) && Appends(e1, e')
    requires d2.stack == d1.stack && d2.end + s <= |e'.data| && d2.nextHandle <= |e'.handles|
    ensures Matches(e', d2, s) && Kept(d, d2)
  {
    hide Multiple;
  }

  lemma DecodePointerUnfold(env: Env, nullable: bool, target: Target, buf: seq<byte>, hs: seq<Handle>, d: Decoding)
    requires d.end <= |buf|
    ensures var r, rp := DecodeValue(env, TPointer(nullable, target), buf, hs, d), ReadPointer(buf, d);
      && (rp.None? ==> r.None?)
      && (rp.Some? && rp.value.value != 0 ==>
            var o := DecodeObject(env, target, buf, hs, rp.value.rest);
            r == if o.None? then None else Some(Read(VPointer(o.value.value), o.value.rest)))
  {
    hide ReadPointer, DecodeObject;
  }

  lemma {:induction false} ObjectReadsBack(
    env: Env, target: Target, obj: Object, e: Encoding, e': Encoding, full: seq<byte>, hs: seq<Handle>, s: nat, d: Decoding)
    requires Multiple(|e.data|, 8) && Multiple(s, 8) && d.end + s == |e.data| && d.nextHandle <= |e.handles|
    requires EncodeObject(env, target, obj, e) == Some(e') && |full| < MEMORY
    requires |e.data| <= |e'.data| <= |full| && (forall p | |e.data| <= p < |e'.data| :: full[p] == e'.data[p])
    requires e'.handles <= hs
    ensures var r := DecodeObject(env, target, full[s..], hs, d);
      && (WholeWords(env) ==> (r.Some? <==> ClearObject(env, target, obj, e, s)))
      && (r.Some? ==> r.value.value == obj && r.value.rest.stack == d.stack
                      && r.value.rest.end + s <= |e'.data| && r.value.rest.nextHandle <= |e'.handles|)
    decreases obj, 0
  {
    hide Good, Extends, EncodeObject, EncodeValues, Start, ClearObject, ClearValues, RoundUp, Multiple, LittleEndian,
         DecodeObject, DecodeValues, ReadHeader, OpenBlock, TypesOf, BodyOf, WholeWords, Room;
    EncodeObjectUnfold(env, target, obj, e, s);
    var b := BodyOf(env, target, obj).value;
    var vs := Contents(obj);
    BodySize(env, target, obj);
    var e1 := Start(e, b.size, b.elements, b.check);
    var e2 := EncodeValues(env, b.types, vs, e1).value;
    StartKeeps(e, b.size, b.elements, b.check);
    ValuesKeep(env, b.types, vs, e1);
    ExtendedHandles(e1, e2);
    HeaderReadsBack(env, target, obj, b, e, e2, full, s, d);
    var d1 := d.(end := d.end + HEADER_SIZE);
    BlockOpens(e, b, e2, full, s, d1);
    var d2 := OpenBlock(full[s..], d1, Header(b.size, b.elements), b.check).value;
    BlockMatches(e, b, s, d, d2);
    BlockAgrees(e, b, e2, full);
    ValuesReadBack(env, b.types, vs, e1, e2, full, hs, s, d2);
    DecodeObjectUnfold(env, target, full[s..], hs, d, d1, Header(b.size, b.elements), b.types, d2);
    var r := DecodeValues(env, b.types, full[s..], hs, d2);
    if r.Some? {
      BlockCloses(e2, e', s, d, d2, r.value.rest);
    }
    if WholeWords(env) {
      BlockHasRoom(env, target, obj, b, e, s, d2);
    }
  }

  function Contents(obj: Object): seq<Val> {
    if obj.OArray? then obj.elems else obj.fields
  }

  lemma EncodeObjectUnfold(env: Env, target: Target, obj: Object, e: Encoding, s: nat)
    requires EncodeObject(env, target, obj, e).Some?
    ensures BodyOf(env, target, obj).Some?
    ensures var b := BodyOf(env, target, obj).value; var vs := Contents(obj);
      && b.size < UINT32 && b.elements < UINT32 && b.size >= HEADER_SIZE
      && EncodeValues(env, b.types, vs, Start(e, b.size, b.elements, b.check)).Some?
      && Finish(EncodeValues(env, b.types, vs, Start(e, b.size, b.elements, b.check)).value) == EncodeObject(env, target, obj, e)
      && ClearObject(env, target, obj, e, s) == ClearValues(env, b.types, vs, Start(e, b.size, b.elements, b.check), s)
  {
    hide EncodeValues, Start, ClearValues, Finish;
  }

  lemma DecodeObjectUnfold(env: Env, target: Target, buf: seq<byte>, hs: seq<Handle>, d: Decoding, d1: Decoding,
                           header: Header, ts: seq<Type>, d2: Decoding)
    requires d.end <= |buf| && d2.end <= |buf|
    requires ReadHeader(buf, d) == Some(Read(header, d1)) && TypesOf(env, target, header) == Some(ts)
    requires OpenBlock(buf, d1, header, target.TArray?) == Some(d2)
    ensures var r, c := DecodeObject(env, target, buf, hs, d), DecodeValues(env, ts, buf, hs, d2);
      && (c.None? ==> r.None?)
      && (c.Some? && FinishDecode(c.value.rest).Some? ==>
            r == if target.TMap? && !MapShape(c.value.value) then None
                 else Some(Read(if target.TArray? then OArray(c.value.value) else ORecord(c.value.value),
                                FinishDecode(c.value.rest).value)))
  {
    hide DecodeValues, ReadHeader, TypesOf, OpenBlock, FinishDecode, MapShape;
  }

  lemma BodySize(env: Env, target: Target, obj: Object)
    requires BodyOf(env, target, obj).Some?
    ensures BodyOf(env, target, obj).value.size >= HEADER_SIZE
    ensures target.TArray? <==> obj.OArray?
    ensures target.TMap? ==> obj.ORecord? && MapShape(obj.fields)
  {
  }

  lemma BlockCloses(e2: Encoding, e': Encoding, s: nat, d: Decoding, d2: Decoding, d3: Decoding)
    requires Finish(e2) == Some(e') && Matches(e2, d3, s) && Kept(d2, d3)
    requires |d2.stack| == |d.stack| + 1 && d2.stack[..|d.stack|] == d.stack
    ensures FinishDecode(d3).Some?
    ensures var d4 := FinishDecode(d3).value;
      d4.stack == d.stack && d4.end + s <= |e'.data| && d4.nextHandle <= |e'.handles|
  {
  }

  lemma HeaderReadsBack(
    env: Env, target: Target, obj: Object, b: Body, e: Encoding, e2: Encoding, full: seq<byte>, s: nat, d: Decoding)
    requires BodyOf(env, target, obj) == Some(b) && b.size < UINT32 && b.elements < UINT32
    requires Extends(Start(e, b.size, b.elements, b.check), e2)
    requires d.end + s == |e.data| && |e2.data| <= |full|
    requires forall p | |e.data| <= p < |e2.data| :: full[p] == e2.data[p]
    ensures s <= |full| && ReadHeader(full[s..], d) == Some(Read(Header(b.size, b.elements), d.(end := d.end + HEADER_SIZE)))
    ensures TypesOf(env, target, Header(b.size, b.elements)) == Some(b.types) && b.check == target.TArray?
  {
    hide RoundUp, LittleEndian, BodyOf, TypesOf, Extends, Start, Value;
    BodySize(env, target, obj);
    TypesOfBody(env, target, obj);
    Powers();
    LittleEndianRoundTrip(b.size, 4);
    LittleEndianRoundTrip(b.elements, 4);
    HeaderIsThere(b, e, e2, full);
    var at := d.end;
    assert full[s..][at..at + 4] == full[|e.data|..|e.data| + 4];
    assert full[s..][at + 4..at + 8] == full[|e.data| + 4..|e.data| + 8];
  }

  lemma HeaderIsThere(b: Body, e: Encoding, e2: Encoding, full: seq<byte>)
    requires b.size >= HEADER_SIZE && Extends(Start(e, b.size, b.elements, b.check), e2)
    requires |e2.data| <= |full| && forall p | |e.data| <= p < |e2.data| :: full[p] == e2.data[p]
    ensures |e.data| + HEADER_SIZE <= |full|
    ensures full[|e.data|..|e.data| + 4] == LittleEndian(b.size, 4)
    ensures full[|e.data| + 4..|e.data| + 8] == LittleEndian(b.elements, 4)
  {
    hide RoundUp, LittleEndian, Low;
    var header := LittleEndian(b.size, 4) + LittleEndian(b.elements, 4);
    var e1 := Start(e, b.size, b.elements, b.check);
    forall i | 0 <= i < 8 ensures full[|e.data| + i] == header[i] {
      assert e1.data[|e.data| + i] == header[i];
      assert e2.data[|e.data| + i] == e1.data[|e.data| + i];
    }
  }

  lemma TypesOfBody(env: Env, target: Target, obj: Object)
    requires BodyOf(env, target, obj).Some?
    ensures var b := BodyOf(env, target, obj).value;
      TypesOf(env, target, Header(b.size, b.elements)) == Some(b.types) && b.check == target.TArray?
  {
  }

  lemma BlockOpens(e: Encoding, b: Body, e2: Encoding, full: seq<byte>, s: nat, d1: Decoding)
    requires b.size >= HEADER_SIZE && s <= |e.data| && d1.end + s == |e.data| + HEADER_SIZE
    requires |e.data| + RoundUp(b.size, 8) <= |e2.data| <= |full|
    ensures OpenBlock(full[s..], d1, Header(b.size, b.elements), b.check)
      == Some(Decoding(d1.end + b.size - HEADER_SIZE, d1.nextHandle,
           d1.stack + [State(d1.end, 0, d1.end + b.size - HEADER_SIZE, if b.check then b.elements else 0, 0, b.check)]))
  {
    hide RoundUp;
  }

  lemma BlockMatches(e: Encoding, b: Body, s: nat, d: Decoding, d2: Decoding)
    requires b.size >= HEADER_SIZE && d.end + s == |e.data| && d.nextHandle <= |e.handles|
    requires d2 == Decoding(d.end + b.size, d.nextHandle,
      d.stack + [State(d.end + HEADER_SIZE, 0, d.end + b.size, if b.check then b.elements else 0, 0, b.check)])
    ensures Matches(Start(e, b.size, b.elements, b.check), d2, s)
  {
    hide RoundUp, LittleEndian;
  }

  lemma BlockAgrees(e: Encoding, b: Body, e2: Encoding, full: seq<byte>)
    requires b.size >= HEADER_SIZE && Good(e2) && Extends(Start(e, b.size, b.elements, b.check), e2)
    requires |e2.data| <= |full| && forall p | |e.data| <= p < |e2.data| :: full[p] == e2.data[p]
    ensures Agree(full, Start(e, b.size, b.elements, b.check), e2)
  {
    hide RoundUp, LittleEndian, Multiple, Low, Fits;
  }

  lemma BlockHasRoom(env: Env, target: Target, obj: Object, b: Body, e: Encoding, s: nat, d2: Decoding)
    requires BodyOf(env, target, obj) == Some(b) && WholeWords(env)
    requires Multiple(|e.data|, 8) && Multiple(s, 8)
    requires Matches(Start(e, b.size, b.elements, b.check), d2, s)
    requires d2.Top().limit + s == |e.data| + b.size
    ensures Room(Start(e, b.size, b.elements, b.check), d2, s, b.types)
  {
    hide RoundUp, LittleEndian;
    var st := d2.Top();
    if target.TArray? {
      assert Multiple(st.offset, 8) by {
        assert |e.data| == 8 * (|e.data| / 8) && s == 8 * (s / 8);
        assert st.offset == 8 * (|e.data| / 8 - s / 8 + 1);
      }
      ElementsFit(st, target.elem, |obj.elems|);
    } else {
      assert Multiple(b.size, 8) by {
        if target.TStruct? { assert b.size == 8 * (env[target.name].size / 8 + 1); }
      }
      RoundUpLeast(b.size, 8, b.size);
    }
  }

  lemma ElementsFit(st: State, t: Type, n: nat)
    requires st.bitOffset == 0 && Multiple(st.offset, 8)
    requires st.limit == st.offset + BytesForBits(n * t.BitSize())
    ensures ArrayRoom(st, t, n)
  {
    hide Multiple;
    MultipleOf8(st.offset, 1);
    MultipleOf8(st.offset, 2);
    MultipleOf8(st.offset, 4);
    match t
    case TBool => assert n * t.BitSize() == n;
    case TUint(W8) => BytesOfElements(n, 1);
    case TUint(W16) => BytesOfElements(n, 2);
    case TUint(W32) => BytesOfElements(n, 4);
    case TUint(W64) => BytesOfElements(n, 8);
    case THandle(_) => BytesOfElements(n, 4);
    case TInterface(_) => BytesOfElements(n, 8);
    case TPointer(_, _) => BytesOfElements(n, 8);
  }

  lemma BytesOfElements(n: nat, size: nat)
    ensures BytesForBits(n * (8 * size)) == n * size
  {
    assert n * (8 * size) == 8 * (n * size);
  }

  // ------------------------------------------------------ sequences of values

  /** The cursor behind a value of type `t`, but for its element count. */
  function Advance(st: State, t: Type): State {
    match t
    case TBool => st.SkipBit()
    case TUint(w) => st.SkipItem(w.Bytes())
    case THandle(_) => st.SkipItem(4)
    case TInterface(_) => st.SkipItem(4).(offset := st.Pos(4) + 8)
    case TPointer(_, _) => st.SkipItem(8)
  }

  ghost predicate Advanced(st: State, t: Type, st': State) {
    st'.offset == Advance(st, t).offset && st'.bitOffset == Advance(st, t).bitOffset
  }

  lemma EncodeAdvances(env: Env, t: Type, v: Val, e: Encoding)
    requires Good(e) && EncodeValue(env, t, v, e).Some?
    ensures EncodeValue(env, t, v, e).value.stack != [] && Advanced(e.Top(), t, EncodeValue(env, t, v, e).value.Top())
  {
    hide Good, Extends, WriteUint, WriteBool, WriteHandle, WriteInterface, WritePointer, EncodeObject, RoundUp, Guard;
    match (t, v)
    case (TBool, VBool(b)) => WriteBoolKeeps(e, b); GoodWords(WriteBool(e, b).value);
    case (TUint(w), VUint(x)) => WriteUintKeeps(e, w.Bytes(), x); GoodWords(WriteUint(e, w.Bytes(), x).value);
    case (THandle(nullable), VHandle(h)) =>
      InterfaceHandleKeeps(e, h);
      GoodWords(InterfaceHandle(e, h).value);
    case (TInterface(nullable), VInterface(h)) => InterfaceAdvances(e, h);
    case (TPointer(nullable, _), VNull) => WriteUintKeeps(e, 8, 0); GoodWords(WriteUint(e, 8, 0).value);
    case (TPointer(_, target), VPointer(obj)) =>
      WritePointerKeeps(e);
      GoodWords(WritePointer(e).value);
      ObjectKeeps(env, target, obj, WritePointer(e).value);
    case (_, _) =>
  }

  lemma InterfaceAdvances(e: Encoding, h: Handle)
    requires Good(e) && WriteInterface(e, h).Some?
    ensures var e' := WriteInterface(e, h).value;
      e'.stack != [] && e'.Top().offset == e.Top().Pos(4) + 8 && e'.Top().bitOffset == 0
  {
    hide Good, Extends, WriteUint, WriteHandle, RoundUp;
    GoodWords(e);
    var e1 := InterfaceHandle(e, h).value;
    InterfaceHandleKeeps(e, h);
    UncountKeeps(e1);
    WriteUintKeeps(Uncount(e1), 4, 0);
    GoodWords(WriteInterface(e, h).value);
    AlignedAgain(e.Top(), 4);
  }

  lemma ElementRoomStep(st: State, st': State, size: nat, n: nat)
    requires size in {1, 2, 4, 8} && n > 0 && ElementRoom(st, size, n)
    requires st'.limit == st.limit && st'.offset == st.offset + size && st'.bitOffset == 0
    ensures st.Pos(size) == st.offset && st.offset + size <= st.limit
    ensures ElementRoom(st', size, n - 1)
  {
    hide RoundUp, Multiple;
    RoundUpLeast(st.offset, size, st.offset);
    OneLess(n, size);
    NextMultiple(st.offset, size);
  }

  lemma OneLess(n: nat, size: nat)
    requires n > 0
    ensures (n - 1) * size == n * size - size && size <= n * size
  {
    assert n * size == (n - 1) * size + size;
  }

  lemma ArrayRoomStep(st: State, st': State, t: Type, n: nat)
    requires n > 0 && ArrayRoom(st, t, n) && Advanced(st, t, st') && st'.limit == st.limit && st.bitOffset < 8
    ensures ArrayRoom(st', t, n - 1)
    ensures match t
      case TBool => st.offset < st.limit
      case TUint(w) => st.bitOffset == 0 && st.Pos(w.Bytes()) + w.Bytes() <= st.limit
      case THandle(_) => st.bitOffset == 0 && st.Pos(4) + 4 <= st.limit
      case TInterface(_) => st.bitOffset == 0 && st.Pos(4) + 8 <= st.limit
      case TPointer(_, _) => st.bitOffset == 0 && st.Pos(8) + 8 <= st.limit
  {
    hide RoundUp, ElementRoom;
    match t
    case TBool =>
    case TUint(w) => ElementStep(st, st', w.Bytes(), n);
    case THandle(_) => ElementStep(st, st', 4, n);
    case TInterface(_) => InterfaceStep(st, st', n);
    case TPointer(_, _) => ElementStep(st, st', 8, n);
  }

  lemma ElementStep(st: State, st': State, size: nat, n: nat)
    requires size in {1, 2, 4, 8} && n > 0 && ElementRoom(st, size, n)
    requires st'.limit == st.limit && st'.offset == st.Pos(size) + size && st'.bitOffset == 0
    ensures st.bitOffset == 0 && st.Pos(size) + size <= st.limit
    ensures ElementRoom(st', size, n - 1)
  {
    hide RoundUp, Multiple;
    RoundUpLeast(st.offset, size, st.offset);
    ElementRoomStep(st, st', size, n);
  }

  lemma InterfaceStep(st: State, st': State, n: nat)
    requires n > 0 && ElementRoom(st, 8, n)
    requires st'.limit == st.limit && st'.offset == st.Pos(4) + 8 && st'.bitOffset == 0
    ensures st.bitOffset == 0 && st.Pos(4) + 8 <= st.limit
    ensures ElementRoom(st', 8, n - 1)
  {
    hide RoundUp, Multiple;
    MultipleOf8(st.offset, 4);
    RoundUpLeast(st.offset, 4, st.offset);
    ElementRoomStep(st, st', 8, n);
  }

  lemma RoomFirst(e: Encoding, d: Decoding, s: nat, ts: seq<Type>)
    requires ts != [] && Matches(e, d, s) && e.Top().bitOffset < 8
    requires Room(e, d, s, ts)
    ensures ValueRoom(e, d, s, ts[0])
  {
    hide RoundUp, Multiple, ArrayRoom;
    if d.Top().limit + s != e.Top().limit {
      ArrayRoomStep(d.Top(), Advance(d.Top(), ts[0]), ts[0], |ts|);
    }
  }

  lemma RoomStep(e: Encoding, d: Decoding, e1: Encoding, d1: Decoding, s: nat, ts: seq<Type>)
    requires ts != [] && Matches(e, d, s) && Matches(e1, d1, s) && Multiple(s, 8) && Kept(d, d1)
    requires e1.Top().limit == e.Top().limit && Advanced(e.Top(), ts[0], e1.Top()) && e.Top().bitOffset < 8
    requires Room(e, d, s, ts)
    ensures Room(e1, d1, s, ts[1..])
  {
    hide RoundUp, Multiple, ArrayRoom;
    if d.Top().limit + s != e.Top().limit {
      AdvancedShift(e.Top(), d.Top(), e1.Top(), d1.Top(), s, ts[0]);
      ArrayRoomStep(d.Top(), d1.Top(), ts[0], |ts|);
    }
  }

  lemma AdvancedShift(a: State, b: State, a': State, b': State, s: nat, t: Type)
    requires Multiple(s, 8) && Advanced(a, t, a')
    requires a.offset == b.offset + s && a.bitOffset == b.bitOffset
    requires a'.offset == b'.offset + s && a'.bitOffset == b'.bitOffset
    ensures Advanced(b, t, b')
  {
    hide RoundUp, Multiple;
    PosShift(a, b, s, 1);
    PosShift(a, b, s, 2);
    PosShift(a, b, s, 4);
    PosShift(a, b, s, 8);
  }

  lemma {:induction false} ValuesReadBack(
    env: Env, ts: seq<Type>, vs: seq<Val>, e: Encoding, e': Encoding, full: seq<byte>, hs: seq<Handle>, s: nat, d: Decoding)
    requires Good(e) && Matches(e, d, s) && Multiple(s, 8) && d.end <= |full| - s && |full| < MEMORY
    requires EncodeValues(env, ts, vs, e) == Some(e') && Agree(full, e, e') && e'.handles <= hs
    ensures var r := DecodeValues(env, ts, full[s..], hs, d);
      && (r.Some? ==> r.value.value == vs && Matches(e', r.value.rest, s) && Kept(d, r.value.rest))
      && (WholeWords(env) && Room(e, d, s, ts) ==> (r.Some? <==> ClearValues(env, ts, vs, e, s)))
    decreases vs, 0
  {
    hide Good, Extends, EncodeValue, DecodeValue, ClearValue, RoundUp, Multiple, Low, Room, ValueRoom, WholeWords, Advanced;
    if vs != [] {
      var e1 := EncodeValue(env, ts[0], vs[0], e).value;
      ValueKeeps(env, ts[0], vs[0], e);
      ValuesKeep(env, ts[1..], vs[1..], e1);
      ExtendedHandles(e, e1);
      ExtendedHandles(e1, e');
      AgreeFirst(full, e, e1, e');
      AgreeSecond(full, e, e1, e');
      ValueReadsBack(env, ts[0], vs[0], e, e1, full, hs, s, d);
      var r1 := DecodeValue(env, ts[0], full[s..], hs, d);
      if r1.Some? {
        var d1 := r1.value.rest;
        ValuesReadBack(env, ts[1..], vs[1..], e1, e', full, hs, s, d1);
        if Room(e, d, s, ts) {
          EncodeAdvances(env, ts[0], vs[0], e);
          GoodBit(e);
          RoomStep(e, d, e1, d1, s, ts);
        }
        assert vs == [vs[0]] + vs[1..];
      }
      if Room(e, d, s, ts) {
        GoodBit(e);
        RoomFirst(e, d, s, ts);
      }
    }
  }

  lemma GoodBit(e: Encoding)
    requires Good(e)
    ensures e.Top().bitOffset < 8
  {
  }

  /** Items that start at a byte boundary are always accepted. */
  lemma AlignedItemIsClear(e: Encoding, n: nat, s: nat)
    requires n in {1, 2, 4, 8} && (e.stack != [] ==> e.Top().bitOffset == 0)
    ensures ClearItem(e, n, s)
  {
  }

  // ---------------------------------------------------------- main theorems

  /** Decoding what was encoded, from whole words on, gives back the object with
      its handles whenever the decoder accepts it, and the decoder accepts it
      exactly when no 8-byte item meets the wasteful case of its check. */
  lemma RoundTrip(env: Env, target: Target, obj: Object, e: Encoding)
    requires e.stack == [] && Multiple(|e.data|, 8)
    requires EncodeObject(env, target, obj, e).Some? && |EncodeObject(env, target, obj, e).value.data| < MEMORY
    ensures var e' := EncodeObject(env, target, obj, e).value;
      e.data <= e'.data && e.handles <= e'.handles
    ensures var e' := EncodeObject(env, target, obj, e).value; var s := |e.data|;
      s <= |e'.data| &&
      var r := DecodeObject(env, target, e'.data[s..], e'.handles, START);
      && (r.Some? ==> r.value.value == obj && r.value.rest.stack == [])
      && (WholeWords(env) ==> (r.Some? <==> ClearObject(env, target, obj, e, s)))
  {
    hide EncodeObject, DecodeObject, ClearObject, WholeWords, Multiple;
    var e' := EncodeObject(env, target, obj, e).value;
    ObjectKeeps(env, target, obj, e);
    ObjectReadsBack(env, target, obj, e, e', e'.data, e'.handles, |e.data|, START);
  }

  // --------------------------------------- a value that does not come back

  const BOOL_AND_STRING: Env := map[0 := StructDecl(16, 0, [TBool, TPointer(true, TArray(TUint(W8)))])]
  const TRUE_AND_EMPTY: Object := ORecord([VBool(true), VPointer(OArray([]))])

  lemma FirstBool(e: Encoding)
    requires e == Start(EMPTY, 24, 0, false)
    ensures Good(e) && e.Top() == State(8, 0, 24, 0, 0, false)
    ensures WriteBool(e, true).Some? && Good(WriteBool(e, true).value)
    ensures WriteBool(e, true).value.Top() == State(8, 1, 24, 0, 1, false)
    ensures |WriteBool(e, true).value.data| == 24 && |WriteBool(e, true).value.stack| == 1
  {
    hide LittleEndian, Guard;
    MultipleZero(8);
    StartKeeps(EMPTY, 24, 0, false);
    assert e.Top() == State(8, 0, 24, 0, 0, false) by { assert RoundUp(24, 8) == 24; }
    GuardBit(e.Top());
    WriteBoolKeeps(e, true);
  }

  lemma ThenPointer(e: Encoding)
    requires Good(e) && e.Top() == State(8, 1, 24, 0, 1, false) && |e.data| == 24 && |e.stack| == 1
    ensures WritePointer(e).Some? && |WritePointer(e).value.stack| == 1 && !WritePointer(e).value.Top().check
    ensures |WritePointer(e).value.data| == 24
    ensures !ClearItem(e, 8, 0)
  {
    hide Guard, LittleEndian;
    var st := e.Top().AlignToPointer();
    assert e.Top().Pos(8) == 16 && st.Pos(8) == 16;
    GuardWhole(st, 8);
    WritePointerKeeps(e);
    assert Wasteful(Shift(e.Top(), 0), 8);
  }

  lemma ThenEmptyArray(e: Encoding)
    ensures EncodeObject(BOOL_AND_STRING, TArray(TUint(W8)), OArray([]), e) == Some(Finish(Start(e, 8, 0, true)).value)
    ensures EncodeObject(BOOL_AND_STRING, TArray(TUint(W8)), OArray([]), e).value.stack == e.stack
  {
    hide LittleEndian, RoundUp;
    var e1 := Start(e, 8, 0, true);
    assert EncodeValues(BOOL_AND_STRING, [], [], e1) == Some(e1);
    assert e1.stack[..|e1.stack| - 1] == e.stack;
  }

  /** A struct of a bool and a string, encoded from the start of a buffer, is
      accepted by the encoder and refused by the decoder: the pointer follows the
      pending bit, and only the encoder aligns before it checks. */
  lemma DecoderRefusesEncodedStruct()
    ensures var e := EncodeObject(BOOL_AND_STRING, TStruct(0), TRUE_AND_EMPTY, EMPTY);
      e.Some? && DecodeObject(BOOL_AND_STRING, TStruct(0), e.value.data, e.value.handles, START).None?
  {
    hide Start, WriteBool, WritePointer, Good, Guard, RoundUp, LittleEndian, ClearItem, DecodeObject;
    var env := BOOL_AND_STRING;
    var ts, vs := env[0].fields, TRUE_AND_EMPTY.fields;
    var e0 := Start(EMPTY, 24, 0, false);
    FirstBool(e0);
    var e1 := WriteBool(e0, true).value;
    ThenPointer(e1);
    var e2 := WritePointer(e1).value;
    ThenEmptyArray(e2);
    var e3 := EncodeObject(env, TArray(TUint(W8)), OArray([]), e2).value;
    TwoValues(env, ts, vs, e0, e1, e3);
    assert BodyOf(env, TStruct(0), TRUE_AND_EMPTY) == Some(Body(24, 0, false, ts));
    assert !ClearObject(env, TStruct(0), TRUE_AND_EMPTY, EMPTY, 0);
    var e := EncodeObject(env, TStruct(0), TRUE_AND_EMPTY, EMPTY);
    assert e == Finish(e3);
    MultipleZero(8);
    assert WholeWords(env);
    SmallMemory(e2, e3);
    RoundTrip(env, TStruct(0), TRUE_AND_EMPTY, EMPTY);
    assert e.value.data[0..] == e.value.data;
  }

  lemma TwoValues(env: Env, ts: seq<Type>, vs: seq<Val>, e0: Encoding, e1: Encoding, e3: Encoding)
    requires |ts| == |vs| == 2
    requires EncodeValue(env, ts[0], vs[0], e0) == Some(e1) && EncodeValue(env, ts[1], vs[1], e1) == Some(e3)
    ensures EncodeValues(env, ts, vs, e0) == Some(e3)
    ensures ClearValues(env, ts, vs, e0, 0) ==> ClearValue(env, ts[1], vs[1], e1, 0)
  {
    hide EncodeValue, ClearValue;
    assert ts[1..] == [ts[1]] && vs[1..] == [vs[1]];
    assert ts[1..][1..] == [] && vs[1..][1..] == [];
    assert EncodeValues(env, [], [], e3) == Some(e3);
    assert EncodeValues(env, ts[1..], vs[1..], e1) == Some(e3);
    assert ClearValues(env, ts, vs, e0, 0) ==> ClearValues(env, ts[1..], vs[1..], e1, 0);
    assert ClearValues(env, ts[1..], vs[1..], e1, 0) ==> ClearValue(env, ts[1..][0], vs[1..][0], e1, 0);
  }

  lemma SmallMemory(e2: Encoding, e3: Encoding)
    requires |e2.data| == 24 && e3 == Finish(Start(e2, 8, 0, true)).value
    ensures |e3.data| == 32
  {
    hide LittleEndian;
  }
}
