/**
  The Go wire codec as a machine on values: every encoder and decoder call is a
  step, and a typed value drives the sequence of calls that generated code
  makes for it.  A step yields None where the call returns an error or stops
  the program.
*/
module Codec {
  import opened Wire
  import opened Layout
  import opened Cursor

  /** 0 is the invalid handle. */
  type Handle = nat

  const INVALID_HANDLE: Handle := 0
  const INVALID_INDEX: nat := 0xFFFF_FFFF
  const HEADER_SIZE: nat := 8
  const UINT32: nat := 0x1_0000_0000

  // ------------------------------------------------------- types and values

  datatype Width = W8 | W16 | W32 | W64
  {
    function Bytes(): (n: nat)
      ensures n in {1, 2, 4, 8}
    {
      match this case W8 => 1 case W16 => 2 case W32 => 4 case W64 => 8
    }
  }

  datatype Type =
    | TBool
    | TUint(width: Width)
    | THandle(nullable: bool)
    | TInterface(nullable: bool)
    | TPointer(nullable: bool, target: Target)
  {
    /** Bits of one array element of this type. */
    function BitSize(): (n: nat)
      ensures n > 0
    {
      match this
      case TBool => 1
      case TUint(w) => 8 * w.Bytes()
      case THandle(_) => 32
      case TInterface(_) => 64
      case TPointer(_, _) => 64
    }
  }

  /** What a pointer points to.  A string is an array of 8-bit integers. */
  datatype Target = TArray(elem: Type) | TMap(key: Type, value: Type) | TStruct(name: nat)

  datatype StructDecl = StructDecl(size: nat, version: nat, fields: seq<Type>)

  /** Struct types by name; they may refer to each other. */
  type Env = map<nat, StructDecl>

  datatype Val =
    | VBool(b: bool)
    | VUint(v: nat)
    | VHandle(h: Handle)
    | VInterface(h: Handle)
    | VNull
    | VPointer(obj: Object)

  datatype Object = OArray(elems: seq<Val>) | ORecord(fields: seq<Val>)

  function Repeat(t: Type, n: nat): (ts: seq<Type>)
    ensures |ts| == n && forall i | 0 <= i < n :: ts[i] == t
  {
    seq(n, _ => t)
  }

  /** A map is a struct of two pointers to arrays ... */
  function MapFields(key: Type, value: Type): seq<Type> {
    [TPointer(false, TArray(key)), TPointer(false, TArray(value))]
  }

  /** ... of the same length. */
  predicate MapShape(fields: seq<Val>) {
    && |fields| == 2
    && (forall i | 0 <= i < 2 :: fields[i].VPointer? && fields[i].obj.OArray?)
    && |fields[0].obj.elems| == |fields[1].obj.elems|
  }

  // --------------------------------------------------------------- encoder

  /** The claimed part of the buffer, the handle table and the open blocks. */
  datatype Encoding = Encoding(data: seq<byte>, handles: seq<Handle>, stack: seq<State>)
  {
    function Top(): State
      requires stack != []
    {
      stack[|stack| - 1]
    }

    function WithTop(st: State): (e: Encoding)
      requires stack != []
      ensures e.stack != [] && e.Top() == st
    {
      this.(stack := stack[..|stack| - 1] + [st])
    }
  }

  const EMPTY := Encoding([], [], [])

  function Zeros(n: nat): (s: seq<byte>)
    ensures |s| == n && forall i | 0 <= i < n :: s[i] == 0
  {
    seq(n, _ => 0)
  }

  function Put(data: seq<byte>, at: nat, bytes: seq<byte>): (r: seq<byte>)
    requires at + |bytes| <= |data|
    ensures |r| == |data|
    ensures forall p | 0 <= p < |r| :: r[p] == if at <= p < at + |bytes| then bytes[p - at] else data[p]
  {
    data[..at] + bytes + data[at + |bytes|..]
  }

  function WriteUint(e: Encoding, n: nat, v: nat): Option<Encoding>
    requires n in {1, 2, 4, 8}
  {
    if e.stack == [] || !Guard(e.Top(), 8 * n) || e.Top().Pos(n) + n > |e.data| then None
    else Some(e.(data := Put(e.data, e.Top().Pos(n), LittleEndian(v, n))).WithTop(e.Top().SkipItem(n)))
  }

  function WriteBool(e: Encoding, b: bool): Option<Encoding> {
    if e.stack == [] || !Guard(e.Top(), 1) || e.Top().offset >= |e.data| || e.Top().bitOffset >= 8 then None
    else
      var at, bit := e.Top().offset, e.Top().bitOffset;
      Some(e.(data := if b then e.data[at := SetByteBit(e.data[at], bit)] else e.data).WithTop(e.Top().SkipBit()))
  }

  function WriteHandle(e: Encoding, h: Handle): Option<Encoding> {
    if h == INVALID_HANDLE || |e.handles| >= INVALID_INDEX then None
    else WriteUint(e.(handles := e.handles + [h]), 4, |e.handles|)
  }

  function Uncount(e: Encoding): Encoding
    requires e.stack != []
  {
    e.WithTop(e.Top().Uncount())
  }

  /** A handle or its absence, then a version of 0. */
  function WriteInterface(e: Encoding, h: Handle): Option<Encoding> {
    match if h == INVALID_HANDLE then WriteUint(e, 4, INVALID_INDEX) else WriteHandle(e, h)
    case None => None
    case Some(e1) => if e1.stack == [] then None else WriteUint(Uncount(e1), 4, 0)
  }

  /** The distance from the aligned slot to the end of the claimed buffer. */
  function WritePointer(e: Encoding): Option<Encoding> {
    if e.stack == [] then None else
      var st := e.Top().AlignToPointer();
      if st.offset > |e.data| then None
      else WriteUint(e.WithTop(st), 8, |e.data| - st.offset)
  }

  /** Claim a block of whole words, open it and write its header. */
  function Start(e: Encoding, size: nat, elements: nat, check: bool): Encoding
    requires size >= HEADER_SIZE
  {
    var start, claimed := |e.data|, RoundUp(size, 8);
    var header := LittleEndian(size, 4) + LittleEndian(elements, 4);
    Encoding(
      e.data + header + Zeros(claimed - HEADER_SIZE),
      e.handles,
      e.stack + [State(start + HEADER_SIZE, 0, start + claimed, if check then elements else 0, 0, check)])
  }

  function Finish(e: Encoding): Option<Encoding> {
    if e.stack == [] || (e.Top().check && e.Top().processed != e.Top().elements) then None
    else Some(e.(stack := e.stack[..|e.stack| - 1]))
  }

  function EncodeValue(env: Env, t: Type, v: Val, e: Encoding): Option<Encoding>
    decreases v, 1
  {
    match (t, v)
    case (TBool, VBool(b)) => WriteBool(e, b)
    case (TUint(w), VUint(x)) => if x < Pow256(w.Bytes()) then WriteUint(e, w.Bytes(), x) else None
    case (THandle(nullable), VHandle(h)) =>
      if h != INVALID_HANDLE then WriteHandle(e, h)
      else if nullable then WriteUint(e, 4, INVALID_INDEX) else None
    case (TInterface(nullable), VInterface(h)) =>
      if h != INVALID_HANDLE || nullable then WriteInterface(e, h) else None
    case (TPointer(nullable, _), VNull) => if nullable then WriteUint(e, 8, 0) else None
    case (TPointer(_, target), VPointer(obj)) =>
      (match WritePointer(e)
       case None => None
       case Some(e1) => EncodeObject(env, target, obj, e1))
    case (_, _) => None
  }

  /** The header fields of an object and the types of its contents. */
  datatype Body = Body(size: nat, elements: nat, check: bool, types: seq<Type>)

  function BodyOf(env: Env, target: Target, obj: Object): Option<Body> {
    match (target, obj)
    case (TArray(t), OArray(elems)) =>
      Some(Body(HEADER_SIZE + BytesForBits(|elems| * t.BitSize()), |elems|, true, Repeat(t, |elems|)))
    case (TMap(k, v), ORecord(fields)) =>
      if MapShape(fields) then Some(Body(24, 0, false, MapFields(k, v))) else None
    case (TStruct(name), ORecord(fields)) =>
      if name in env && |env[name].fields| == |fields|
      then Some(Body(HEADER_SIZE + env[name].size, env[name].version, false, env[name].fields))
      else None
    case (_, _) => None
  }

  function EncodeObject(env: Env, target: Target, obj: Object, e: Encoding): Option<Encoding>
    decreases obj
  {
    match BodyOf(env, target, obj)
    case None => None
    case Some(b) =>
      if b.size >= UINT32 || b.elements >= UINT32 then None else
        var vs := if obj.OArray? then obj.elems else obj.fields;
        match EncodeValues(env, b.types, vs, Start(e, b.size, b.elements, b.check))
        case None => None
        case Some(e1) => Finish(e1)
  }

  function EncodeValues(env: Env, ts: seq<Type>, vs: seq<Val>, e: Encoding): Option<Encoding>
    decreases vs, 0
  {
    if |ts| != |vs| then None
    else if vs == [] then Some(e)
    else
      match EncodeValue(env, ts[0], vs[0], e)
      case None => None
      case Some(e1) => EncodeValues(env, ts[1..], vs[1..], e1)
  }

  // --------------------------------------------------------------- decoder

  /** The end of the claimed input, the next handle and the open blocks. */
  datatype Decoding = Decoding(end: nat, nextHandle: nat, stack: seq<State>)
  {
    function Top(): State
      requires stack != []
    {
      stack[|stack| - 1]
    }

    function WithTop(st: State): (d: Decoding)
      requires stack != []
      ensures d.stack != [] && d.Top() == st
      ensures d.end == end && d.nextHandle == nextHandle
    {
      this.(stack := stack[..|stack| - 1] + [st])
    }
  }

  const START := Decoding(0, 0, [])

  datatype Read<+T> = Read(value: T, rest: Decoding)

  function ReadUint(buf: seq<byte>, d: Decoding, n: nat): (r: Option<Read<nat>>)
    requires n in {1, 2, 4, 8}
    ensures r.Some? ==> r.value.rest.end == d.end && r.value.rest.stack != [] && r.value.rest.Top().offset >= n
  {
    if d.stack == [] || !Guard(d.Top(), 8 * n) || d.Top().Pos(n) + n > |buf| then None
    else
      var at := d.Top().Pos(n);
      Some(Read(Value(buf[at..at + n]), d.WithTop(d.Top().SkipItem(n))))
  }

  function ReadBool(buf: seq<byte>, d: Decoding): (r: Option<Read<bool>>)
    ensures r.Some? ==> r.value.rest.end == d.end
  {
    if d.stack == [] || !Guard(d.Top(), 1) || d.Top().offset >= |buf| then None
    else Some(Read(Bit(buf[d.Top().offset], d.Top().bitOffset), d.WithTop(d.Top().SkipBit())))
  }

  /** Handles are taken in increasing order of their index. */
  function ClaimHandle(handles: seq<Handle>, d: Decoding, index: nat): (r: Option<Read<Handle>>)
    ensures r.Some? ==> r.value.rest.end == d.end
  {
    if index >= |handles| || index < d.nextHandle then None
    else Some(Read(handles[index], d.(nextHandle := index + 1)))
  }

  function ReadHandle(buf: seq<byte>, handles: seq<Handle>, d: Decoding): (r: Option<Read<Handle>>)
    ensures r.Some? ==> r.value.rest.end == d.end
  {
    match ReadUint(buf, d, 4)
    case None => None
    case Some(Read(index, d1)) =>
      if index == INVALID_INDEX then Some(Read(INVALID_HANDLE, d1)) else ClaimHandle(handles, d1, index)
  }

  function ReadInterface(buf: seq<byte>, handles: seq<Handle>, d: Decoding): (r: Option<Read<Handle>>)
    ensures r.Some? ==> r.value.rest.end == d.end
  {
    match ReadHandle(buf, handles, d)
    case None => None
    case Some(Read(h, d1)) =>
      if d1.stack == [] then None else
        match ReadUint(buf, d1.WithTop(d1.Top().Uncount()), 4)
        case None => None
        case Some(Read(_, d2)) => Some(Read(h, d2))
  }

  /** A non-null pointer must go forward, to a word inside the input; what lies
      between is claimed. */
  function ReadPointer(buf: seq<byte>, d: Decoding): (r: Option<Read<nat>>)
    ensures r.Some? ==> d.end <= r.value.rest.end
    ensures r.Some? && d.end <= |buf| ==> r.value.rest.end <= |buf|
  {
    match ReadUint(buf, d, 8)
    case None => None
    case Some(Read(p, d1)) =>
      if p == 0 then Some(Read(0, d1)) else
        var newEnd := d1.Top().offset - 8 + p;
        if p >= |buf| || newEnd >= |buf| || newEnd < d1.end || newEnd % 8 != 0 then None
        else Some(Read(p, d1.(end := newEnd)))
  }

  datatype Header = Header(size: nat, elements: nat)

  function ReadHeader(buf: seq<byte>, d: Decoding): (r: Option<Read<Header>>)
    ensures r.Some? ==> r.value.rest.end == d.end + HEADER_SIZE <= |buf|
  {
    if d.end + HEADER_SIZE > |buf| then None
    else
      Some(Read(Header(Value(buf[d.end..d.end + 4]), Value(buf[d.end + 4..d.end + 8])), d.(end := d.end + HEADER_SIZE)))
  }

  function OpenBlock(buf: seq<byte>, d: Decoding, header: Header, check: bool): (r: Option<Decoding>)
    ensures r.Some? ==> d.end <= r.value.end && (d.end <= |buf| ==> r.value.end <= |buf|)
  {
    if header.size < HEADER_SIZE || d.end + (header.size - HEADER_SIZE) > |buf| then None
    else
      var end := d.end + (header.size - HEADER_SIZE);
      Some(Decoding(end, d.nextHandle,
        d.stack + [State(d.end, 0, end, if check then header.elements else 0, 0, check)]))
  }

  function FinishDecode(d: Decoding): Option<Decoding> {
    if d.stack == [] || (d.Top().check && d.Top().processed != d.Top().elements) then None
    else Some(d.(stack := d.stack[..|d.stack| - 1]))
  }

  function DecodeValue(env: Env, t: Type, buf: seq<byte>, handles: seq<Handle>, d: Decoding): (r: Option<Read<Val>>)
    requires d.end <= |buf|
    ensures r.Some? ==> d.end <= r.value.rest.end <= |buf|
    decreases |buf| - d.end, 1, 0
  {
    match t
    case TBool =>
      (match ReadBool(buf, d)
       case None => None
       case Some(Read(b, d1)) => Some(Read(VBool(b), d1)))
    case TUint(w) =>
      (match ReadUint(buf, d, w.Bytes())
       case None => None
       case Some(Read(x, d1)) => Some(Read(VUint(x), d1)))
    case THandle(nullable) =>
      (match ReadHandle(buf, handles, d)
       case None => None
       case Some(Read(h, d1)) => if h == INVALID_HANDLE && !nullable then None else Some(Read(VHandle(h), d1)))
    case TInterface(nullable) =>
      (match ReadInterface(buf, handles, d)
       case None => None
       case Some(Read(h, d1)) => if h == INVALID_HANDLE && !nullable then None else Some(Read(VInterface(h), d1)))
    case TPointer(nullable, target) =>
      (match ReadPointer(buf, d)
       case None => None
       case Some(Read(p, d1)) =>
         if p == 0 then (if nullable then Some(Read(VNull, d1)) else None)
         else
           match DecodeObject(env, target, buf, handles, d1)
           case None => None
           case Some(Read(o, d2)) => Some(Read(VPointer(o), d2)))
  }

  /** The check on a header and the types of what follows it. */
  function TypesOf(env: Env, target: Target, header: Header): Option<seq<Type>> {
    match target
    case TArray(t) =>
      if header.size < HEADER_SIZE + BytesForBits(header.elements * t.BitSize()) then None
      else Some(Repeat(t, header.elements))
    case TMap(k, v) => if header != Header(24, 0) then None else Some(MapFields(k, v))
    case TStruct(name) =>
      if name in env && header == Header(HEADER_SIZE + env[name].size, env[name].version)
      then Some(env[name].fields) else None
  }

  function DecodeObject(env: Env, target: Target, buf: seq<byte>, handles: seq<Handle>, d: Decoding): (r: Option<Read<Object>>)
    requires d.end <= |buf|
    ensures r.Some? ==> d.end <= r.value.rest.end <= |buf|
    decreases |buf| - d.end, 0, 0
  {
    match ReadHeader(buf, d)
    case None => None
    case Some(Read(header, d1)) =>
      match TypesOf(env, target, header)
      case None => None
      case Some(ts) =>
        match OpenBlock(buf, d1, header, target.TArray?)
        case None => None
        case Some(d2) =>
          match DecodeValues(env, ts, buf, handles, d2)
          case None => None
          case Some(Read(vs, d3)) =>
            match FinishDecode(d3)
            case None => None
            case Some(d4) =>
              if target.TMap? && !MapShape(vs) then None
              else Some(Read(if target.TArray? then OArray(vs) else ORecord(vs), d4))
  }

  function DecodeValues(env: Env, ts: seq<Type>, buf: seq<byte>, handles: seq<Handle>, d: Decoding): (r: Option<Read<seq<Val>>>)
    requires d.end <= |buf|
    ensures r.Some? ==> d.end <= r.value.rest.end <= |buf|
    decreases |buf| - d.end, 2, |ts|
  {
    if ts == [] then Some(Read([], d)) else
      match DecodeValue(env, ts[0], buf, handles, d)
      case None => None
      case Some(Read(v, d1)) =>
        match DecodeValues(env, ts[1..], buf, handles, d1)
        case None => None
        case Some(Read(vs, d2)) => Some(Read([v] + vs, d2))
  }
}
