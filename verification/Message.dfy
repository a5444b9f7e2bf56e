/**
  Messages: a header, whose version says whether it carries a request id,
  followed by the payload.
*/
module Message {
  import opened Wire
  import opened Layout
  import opened Cursor
  import opened Codec
  import opened CodecFrame
  import opened CodecRoundTrip

  const NO_FLAG := 0
  const EXPECTS_RESPONSE := 1
  const IS_RESPONSE := 2

  datatype RawHeader = MessageHeader(kind: nat, flags: nat, requestId: nat)

  /** Header fields are 32, 32 and 64 bits wide. */
  type MessageHeader = h: RawHeader | h.kind < UINT32 && h.flags < UINT32 && h.requestId < MEMORY
    witness RawHeader.MessageHeader(0, 0, 0)

  /** The two versions of the header struct. */
  const HEADERS: Env := map[
    0 := StructDecl(8, 0, [TUint(W32), TUint(W32)]),
    1 := StructDecl(16, 1, [TUint(W32), TUint(W32), TUint(W64)])]

  function Version(h: MessageHeader): nat { if h.flags != NO_FLAG then 1 else 0 }

  /** Bytes of the header, its own data header included. */
  function HeaderBytes(h: MessageHeader): nat { if h.flags != NO_FLAG then 24 else 16 }

  function HeaderObject(h: MessageHeader): Object {
    ORecord([VUint(h.kind), VUint(h.flags)] + if h.flags != NO_FLAG then [VUint(h.requestId)] else [])
  }

  function EncodeHeader(h: MessageHeader): Option<Encoding> {
    EncodeObject(HEADERS, TStruct(Version(h)), HeaderObject(h), EMPTY)
  }

  function EncodeMessage(h: MessageHeader, env: Env, target: Target, payload: Object): Option<Encoding> {
    match EncodeHeader(h)
    case None => None
    case Some(e) => EncodeObject(env, target, payload, e)
  }

  /** The header at the front of `bytes`; the version decides its size, and the
      flags must go with the version. */
  function ParseHeader(bytes: seq<byte>): Option<RawHeader> {
    match ReadHeader(bytes, START)
    case None => None
    case Some(Read(header, _)) =>
      if header.elements > 1 then None else
        match DecodeObject(HEADERS, TStruct(header.elements), bytes, [], START)
        case None => None
        case Some(Read(o, _)) => HeaderOf(header.elements, o)
  }

  function HeaderOf(version: nat, o: Object): Option<RawHeader> {
    match o
    case OArray(_) => None
    case ORecord(fs) =>
      if version == 1 then
        if |fs| == 3 && (forall i | 0 <= i < 3 :: fs[i].VUint?) && (fs[1].v == EXPECTS_RESPONSE || fs[1].v == IS_RESPONSE)
        then Some(RawHeader.MessageHeader(fs[0].v, fs[1].v, fs[2].v)) else None
      else
        if |fs| == 2 && (forall i | 0 <= i < 2 :: fs[i].VUint?) && fs[1].v == NO_FLAG
        then Some(RawHeader.MessageHeader(fs[0].v, NO_FLAG, 0)) else None
  }

  /** A parsed message: its header and the bytes behind it. */
  datatype Parsed = Parsed(header: RawHeader, payload: seq<byte>)

  function ParseMessage(bytes: seq<byte>): Option<Parsed> {
    match ParseHeader(bytes)
    case None => None
    case Some(h) =>
      var n := if h.flags != NO_FLAG then 24 else 16;
      if n > |bytes| then None else Some(Parsed(h, bytes[n..]))
  }

  /** What a header becomes on the way: without flags the request id is dropped. */
  function Sent(h: MessageHeader): RawHeader {
    if h.flags == NO_FLAG then RawHeader.MessageHeader(h.kind, NO_FLAG, 0) else h
  }

  // ------------------------------------------------------------- the header

  ghost predicate Plain(ts: seq<Type>) {
    forall i | 0 <= i < |ts| :: ts[i].TUint?
  }

  /** Integers behind integers are never in the wasteful case. */
  lemma {:induction false} PlainIsClear(env: Env, ts: seq<Type>, vs: seq<Val>, e: Encoding, s: nat)
    requires Good(e) && e.Top().bitOffset == 0 && Plain(ts)
    ensures ClearValues(env, ts, vs, e, s)
    decreases |vs|
  {
    hide Good, EncodeValue, Extends, RoundUp, Guard;
    if |ts| == |vs| && vs != [] {
      GoodWords(e);
      AlignedItemIsClear(e, ts[0].width.Bytes(), s);
      if EncodeValue(env, ts[0], vs[0], e).Some? {
        var e1 := EncodeValue(env, ts[0], vs[0], e).value;
        ValueKeeps(env, ts[0], vs[0], e);
        EncodeAdvances(env, ts[0], vs[0], e);
        PlainIsClear(env, ts[1..], vs[1..], e1, s);
      }
    }
  }

  lemma HeaderIsClear(h: MessageHeader)
    ensures ClearObject(HEADERS, TStruct(Version(h)), HeaderObject(h), EMPTY, 0)
  {
    hide ClearValues, Start, RoundUp, Multiple;
    var b := BodyOf(HEADERS, TStruct(Version(h)), HeaderObject(h)).value;
    MultipleZero(8);
    StartKeeps(EMPTY, b.size, b.elements, b.check);
    FreshBit(EMPTY, b.size, b.elements, b.check);
    PlainIsClear(HEADERS, b.types, HeaderObject(h).fields, Start(EMPTY, b.size, b.elements, b.check), 0);
  }

  lemma FreshBit(e: Encoding, size: nat, elements: nat, check: bool)
    requires size >= HEADER_SIZE
    ensures Start(e, size, elements, check).Top().bitOffset == 0
  {
    hide RoundUp, LittleEndian;
  }

  /** Room for `n` more bytes of plain integers that need no padding. */
  ghost predicate Snug(e: Encoding, n: nat) {
    && Good(e) && e.Top().bitOffset == 0 && !e.Top().check
    && e.Top().offset + n <= e.Top().limit
  }

  lemma SnugWrite(e: Encoding, n: nat, v: nat, rest: nat)
    requires n in {4, 8} && Snug(e, n + rest) && Multiple(e.Top().offset, n)
    ensures WriteUint(e, n, v).Some? && Snug(WriteUint(e, n, v).value, rest)
    ensures WriteUint(e, n, v).value.Top().offset == e.Top().offset + n
    ensures |WriteUint(e, n, v).value.data| == |e.data|
  {
    hide Guard, RoundUp, Multiple, LittleEndian;
    GuardWhole(e.Top(), n);
    RoundUpLeast(e.Top().offset, n, e.Top().offset);
    WriteUintKeeps(e, n, v);
  }

  lemma HeaderStarts(h: MessageHeader)
    ensures var e := Start(EMPTY, HeaderBytes(h), Version(h), false);
      Snug(e, HeaderBytes(h) - 8) && e.Top().offset == 8 && |e.data| == HeaderBytes(h) && |e.stack| == 1 && e.handles == []
  {
    hide LittleEndian, RoundUp;
    MultipleZero(8);
    StartKeeps(EMPTY, HeaderBytes(h), Version(h), false);
    RoundUpLeast(HeaderBytes(h), 8, HeaderBytes(h));
  }

  /** Every header can be encoded, in exactly its size. */
  lemma HeaderEncodes(h: MessageHeader)
    ensures EncodeHeader(h).Some?
    ensures var e := EncodeHeader(h).value;
      |e.data| == HeaderBytes(h) && e.handles == [] && e.stack == []
  {
    hide LittleEndian, RoundUp, Start, WriteUint, Snug, EncodeValue, EncodeValues;
    HeaderStarts(h);
    var e := Start(EMPTY, HeaderBytes(h), Version(h), false);
    HeaderFields(h, e);
    var b := BodyOf(HEADERS, TStruct(Version(h)), HeaderObject(h)).value;
    assert b == Body(HeaderBytes(h), Version(h), false, b.types);
    var e' := EncodeValues(HEADERS, b.types, HeaderObject(h).fields, e).value;
    assert e'.stack[..|e'.stack| - 1] == [];
  }

  lemma HeaderFields(h: MessageHeader, e: Encoding)
    requires Snug(e, HeaderBytes(h) - 8) && e.Top().offset == 8 && |e.stack| == 1 && e.handles == []
    ensures var ts := HEADERS[Version(h)].fields;
      var r := EncodeValues(HEADERS, ts, HeaderObject(h).fields, e);
      && r.Some? && |r.value.data| == |e.data| && |r.value.stack| == 1 && !r.value.Top().check && r.value.handles == []
  {
    hide WriteUint, LittleEndian, RoundUp;
    Powers();
    var ts, vs := HEADERS[Version(h)].fields, HeaderObject(h).fields;
    SnugWrite(e, 4, h.kind, HeaderBytes(h) - 12);
    var e1 := WriteUint(e, 4, h.kind).value;
    SnugWrite(e1, 4, h.flags, HeaderBytes(h) - 16);
    var e2 := WriteUint(e1, 4, h.flags).value;
    WriteKeepsStack(e, 4, h.kind);
    WriteKeepsStack(e1, 4, h.flags);
    EncodeStep(ts, vs, e);
    EncodeStep(ts[1..], vs[1..], e1);
    if h.flags != NO_FLAG {
      SnugWrite(e2, 8, h.requestId, 0);
      WriteKeepsStack(e2, 8, h.requestId);
      EncodeStep(ts[2..], vs[2..], e2);
      assert ts[1..][1..] == ts[2..] && vs[1..][1..] == vs[2..];
      assert ts[2..][1..] == [] && vs[2..][1..] == [];
    } else {
      assert ts[1..][1..] == [] && vs[1..][1..] == [];
    }
  }

  lemma EncodeStep(ts: seq<Type>, vs: seq<Val>, e: Encoding)
    requires |ts| == |vs| > 0 && ts[0].TUint? && vs[0].VUint? && vs[0].v < Pow256(ts[0].width.Bytes())
    ensures EncodeValues(HEADERS, ts, vs, e) ==
      match WriteUint(e, ts[0].width.Bytes(), vs[0].v)
      case None => None
      case Some(e1) => EncodeValues(HEADERS, ts[1..], vs[1..], e1)
    ensures EncodeValues(HEADERS, [], [], e) == Some(e)
  {
    hide WriteUint, Pow256;
  }

  lemma WriteKeepsStack(e: Encoding, n: nat, v: nat)
    requires n in {4, 8} && WriteUint(e, n, v).Some?
    ensures var e' := WriteUint(e, n, v).value;
      |e'.stack| == |e.stack| > 0 && e'.handles == e.handles && e'.Top().check == e.Top().check
  {
    hide Guard, RoundUp, LittleEndian;
  }

  lemma HeadersWhole()
    ensures WholeWords(HEADERS)
  {
  }

  /** A parsed header is the sent one, and parsing succeeds exactly for the three
      known flag values. */
  lemma HeaderParses(h: MessageHeader, bytes: seq<byte>)
    requires EncodeHeader(h).Some? && EncodeHeader(h).value.data <= bytes && |bytes| < MEMORY
    ensures ParseHeader(bytes) == if h.flags in {NO_FLAG, EXPECTS_RESPONSE, IS_RESPONSE} then Some(Sent(h)) else None
  {
    hide EncodeObject, DecodeObject, ReadHeader, ClearObject, Multiple, WholeWords;
    var e := EncodeHeader(h).value;
    HeaderEncodes(h);
    HeaderIsClear(h);
    HeadersWhole();
    MultipleZero(8);
    ObjectReadsBack(HEADERS, TStruct(Version(h)), HeaderObject(h), EMPTY, e, bytes, [], 0, START);
    assert bytes[0..] == bytes;
    HeaderVersion(h, bytes);
  }

  lemma HeaderVersion(h: MessageHeader, bytes: seq<byte>)
    requires EncodeHeader(h).Some? && EncodeHeader(h).value.data <= bytes
    ensures ReadHeader(bytes, START).Some? && ReadHeader(bytes, START).value.value.elements == Version(h)
  {
    hide EncodeValues, Start, ReadHeader, TypesOf, RoundUp, Multiple, Good, Extends;
    var e := EncodeHeader(h).value;
    EncodeObjectUnfold(HEADERS, TStruct(Version(h)), HeaderObject(h), EMPTY, 0);
    var b := BodyOf(HEADERS, TStruct(Version(h)), HeaderObject(h)).value;
    var e1 := Start(EMPTY, b.size, b.elements, b.check);
    MultipleZero(8);
    StartKeeps(EMPTY, b.size, b.elements, b.check);
    ValuesKeep(HEADERS, b.types, HeaderObject(h).fields, e1);
    var e2 := EncodeValues(HEADERS, b.types, HeaderObject(h).fields, e1).value;
    HeaderReadsBack(HEADERS, TStruct(Version(h)), HeaderObject(h), b, EMPTY, e2, bytes, 0, START);
    assert bytes[0..] == bytes;
  }

  // ---------------------------------------------------------- whole messages

  /** A message that was encoded parses exactly when its flags are known; the
      header comes back (without the request id when there are no flags), the
      payload is what follows the header, and decoding it gives back the payload
      object with its handles, unless an 8-byte item meets the wasteful case of
      the decoder's check. */
  lemma MessageRoundTrip(h: MessageHeader, env: Env, target: Target, payload: Object)
    requires EncodeMessage(h, env, target, payload).Some?
    requires |EncodeMessage(h, env, target, payload).value.data| < MEMORY
    ensures var e := EncodeMessage(h, env, target, payload).value;
      var m := ParseMessage(e.data);
      && (m.Some? <==> h.flags in {NO_FLAG, EXPECTS_RESPONSE, IS_RESPONSE})
      && (m.Some? ==> m.value.header == Sent(h) && HeaderBytes(h) <= |e.data| && m.value.payload == e.data[HeaderBytes(h)..])
      && (m.Some? ==>
            var r := DecodeObject(env, target, m.value.payload, e.handles, START);
            && (r.Some? ==> r.value.value == payload)
            && (WholeWords(env) ==> (r.Some? <==> ClearObject(env, target, payload, EncodeHeader(h).value, HeaderBytes(h)))))
  {
    hide EncodeObject, DecodeObject, ClearObject, Multiple, WholeWords, ParseHeader, EncodeHeader;
    var eh, e := EncodeHeader(h).value, EncodeMessage(h, env, target, payload).value;
    HeaderEncodes(h);
    assert Multiple(|eh.data|, 8) by { HeaderWords(h); }
    RoundTrip(env, target, payload, eh);
    HeaderParses(h, e.data);
  }

  lemma HeaderWords(h: MessageHeader)
    ensures Multiple(HeaderBytes(h), 8)
  {
  }
}
