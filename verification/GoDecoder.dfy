/**
  The Go decoder object: cursors over a fixed input, advanced in place by every
  call.  Each method is proved against the corresponding step of the codec
  machine; a refused call is reported, and an access behind the input, where Go
  stops the program, is reported the same way.
*/
module GoDecoder {
  import opened Wire
  import opened Layout
  import opened Cursor
  import opened Codec

  class Decoder {
    const buf: seq<byte>
    const handles: seq<Handle>
    var end: nat
    var nextHandle: nat
    var stateStack: seq<State>

    constructor (bytes: seq<byte>, handles: seq<Handle>)
      ensures buf == bytes && this.handles == handles && Abs() == START && Valid()
    {
      buf, this.handles := bytes, handles;
      end, nextHandle, stateStack := 0, 0, [];
    }

    ghost function Abs(): Decoding
      reads this
    {
      Decoding(end, nextHandle, stateStack)
    }

    ghost predicate Valid()
      reads this
    {
      end <= |buf|
    }

    /** The value and the new state are those of step `s`. */
    ghost predicate Is<T>(s: Option<Read<T>>, r: Option<T>)
      reads this
    {
      Valid() && (r.Some? <==> s.Some?) && (r.Some? ==> s.value == Read(r.value, Abs()))
    }

    method ClaimData(size: nat) returns (ok: bool)
      requires Valid()
      modifies this`end
      ensures Valid() && (ok <==> old(end) + size <= |buf|) && end == if ok then old(end) + size else old(end)
    {
      if end + size > |buf| {
        return false;
      }
      end := end + size;
      return true;
    }

    method GetUint(at: nat, n: nat) returns (v: nat)
      requires at + n <= |buf|
      ensures v == Value(buf[at..at + n])
    {
      v := 0;
      var i := n;
      while i > 0
        invariant 0 <= i <= n
        invariant v == Value(buf[at + i..at + n])
      {
        i := i - 1;
        assert buf[at + i..at + n][1..] == buf[at + i + 1..at + n];
        v := buf[at + i] + 256 * v;
      }
    }

    method ReadUint(n: nat) returns (r: Option<nat>)
      requires Valid() && n in {1, 2, 4, 8}
      modifies this`stateStack
      ensures Is(Codec.ReadUint(buf, old(Abs()), n), r)
    {
      hide Guard, RoundUp, Multiple;
      if stateStack == [] {
        return None;
      }
      var st := stateStack[|stateStack| - 1];
      if !Guard(st, 8 * n) {
        return None;
      }
      var at := if st.bitOffset > 0 then st.offset + 1 else st.offset;
      AlignIsRoundUp(at, n);
      at := Align(at, n);
      if at + n > |buf| {
        return None;
      }
      var v := GetUint(at, n);
      stateStack := stateStack[..|stateStack| - 1] + [st.(offset := at + n, bitOffset := 0, processed := st.processed + 1)];
      return Some(v);
    }

    method ReadBool() returns (r: Option<bool>)
      requires Valid()
      modifies this`stateStack
      ensures Is(Codec.ReadBool(buf, old(Abs())), r)
    {
      hide Guard;
      if stateStack == [] {
        return None;
      }
      var st := stateStack[|stateStack| - 1];
      if !Guard(st, 1) || st.offset >= |buf| {
        return None;
      }
      var b := Bit(buf[st.offset], st.bitOffset);
      stateStack := stateStack[..|stateStack| - 1]
        + [st.(offset := st.offset + (st.bitOffset + 1) / 8, bitOffset := (st.bitOffset + 1) % 8, processed := st.processed + 1)];
      return Some(b);
    }

    /** Follow a pointer: forward, aligned and inside the input. */
    method ReadPointer() returns (r: Option<nat>)
      requires Valid()
      modifies this`stateStack, this`end
      ensures Is(Codec.ReadPointer(buf, old(Abs())), r)
    {
      hide Guard, RoundUp, Multiple, Codec.ReadUint;
      var p := ReadUint(8);
      if p.None? || p.value == 0 {
        return p;
      }
      var newEnd := stateStack[|stateStack| - 1].offset - 8 + p.value;
      if p.value >= |buf| || newEnd >= |buf| || newEnd < end || newEnd % 8 != 0 {
        return None;
      }
      var _ := ClaimData(newEnd - end);
      return p;
    }

    method ReadHandle() returns (r: Option<Handle>)
      requires Valid()
      modifies this`stateStack, this`nextHandle
      ensures Is(Codec.ReadHandle(buf, handles, old(Abs())), r)
    {
      hide Guard, RoundUp, Multiple, Codec.ReadUint;
      var index := ReadUint(4);
      if index.None? {
        return None;
      }
      if index.value == INVALID_INDEX {
        return Some(INVALID_HANDLE);
      }
      if index.value >= |handles| || index.value < nextHandle {
        return None;
      }
      nextHandle := index.value + 1;
      return Some(handles[index.value]);
    }

    method ReadDataHeader() returns (r: Option<Header>)
      requires Valid()
      modifies this`end
      ensures Is(ReadHeader(buf, old(Abs())), r)
    {
      var ok := ClaimData(HEADER_SIZE);
      if !ok {
        return None;
      }
      var size := GetUint(end - HEADER_SIZE, 4);
      var elements := GetUint(end - 4, 4);
      return Some(Header(size, elements));
    }

    /** Open an array; its size must cover its elements. */
    method StartArray(t: Type) returns (r: Option<nat>)
      requires Valid()
      modifies this`end, this`stateStack
      ensures Valid()
      ensures var h := ReadHeader(buf, old(Abs()));
        match if h.None? || h.value.value.size < HEADER_SIZE + BytesForBits(h.value.value.elements * t.BitSize())
              then None else OpenBlock(buf, h.value.rest, h.value.value, true)
        case None => r.None?
        case Some(d) => r == Some(h.value.value.elements) && Abs() == d
    {
      var h := ReadDataHeader();
      if h.None? || h.value.size < HEADER_SIZE + BytesForBits(h.value.elements * t.BitSize()) {
        return None;
      }
      var ok := PushState(h.value, true);
      return if ok then Some(h.value.elements) else None;
    }

    /** Open a map, whose header must be the one header all maps have. */
    method StartMap() returns (ok: bool)
      requires Valid()
      modifies this`end, this`stateStack
      ensures Valid()
      ensures var h := ReadHeader(buf, old(Abs()));
        match if h.None? || h.value.value != Header(24, 0) then None else OpenBlock(buf, h.value.rest, h.value.value, false)
        case None => !ok
        case Some(d) => ok && Abs() == d
    {
      var h := ReadDataHeader();
      if h.None? || h.value != Header(24, 0) {
        return false;
      }
      ok := PushState(h.value, false);
    }

    /** Open a struct; checking the header is left to the caller. */
    method StartStruct() returns (r: Option<Header>)
      requires Valid()
      modifies this`end, this`stateStack
      ensures Valid()
      ensures var h := ReadHeader(buf, old(Abs()));
        match if h.None? then None else OpenBlock(buf, h.value.rest, h.value.value, false)
        case None => r.None?
        case Some(d) => r == Some(h.value.value) && Abs() == d
    {
      var h := ReadDataHeader();
      if h.None? {
        return None;
      }
      var ok := PushState(h.value, false);
      return if ok then h else None;
    }

    method PushState(header: Header, check: bool) returns (ok: bool)
      requires Valid()
      modifies this`end, this`stateStack
      ensures Valid()
      ensures ok <==> OpenBlock(buf, old(Abs()), header, check).Some?
      ensures ok ==> Abs() == OpenBlock(buf, old(Abs()), header, check).value
    {
      if header.size < HEADER_SIZE {
        return false;
      }
      var oldEnd := end;
      ok := ClaimData(header.size - HEADER_SIZE);
      if ok {
        stateStack := stateStack + [State(oldEnd, 0, end, if check then header.elements else 0, 0, check)];
      }
    }

    /** The bytes of a string; an array of 8-bit elements. */
    method ReadString() returns (r: Option<seq<byte>>)
      requires Valid()
      modifies this`end, this`stateStack
      ensures Valid()
      ensures var d := DecodeObject(map[], TArray(TUint(W8)), buf, handles, old(Abs()));
        && (r.Some? <==> d.Some?)
        && (r.Some? ==> d.value == Read(OArray(Texts(r.value)), Abs()))
    {
      hide Codec.ReadUint, Guard, RoundUp, Multiple, FinishDecode;
      ghost var d0 := Abs();
      var length := StartArray(TUint(W8));
      if length.None? {
        return None;
      }
      ghost var d1, ts := Abs(), Repeat(TUint(W8), length.value);
      var bytes: seq<byte> := [];
      var i := 0;
      PendingAll(buf, handles, ts, d1);
      while i < length.value
        invariant 0 <= i <= length.value && Valid() && |bytes| == i
        invariant Pending(buf, handles, ts, d1, i, bytes, Abs())
      {
        ghost var d := Abs();
        ByteStep(buf, handles, ts, d1, i, bytes, d);
        var b := ReadUint(1);
        if b.None? {
          return None;
        }
        ByteRange(buf, d);
        bytes := bytes + [b.value];
        i := i + 1;
      }
      ghost var d2 := Abs();
      assert ts[i..] == [];
      AfterAll(buf, handles, ts, d1, bytes, d2);
      var ok := Finish();
      return if ok then Some(bytes) else None;
    }

    method Finish() returns (ok: bool)
      requires Valid()
      modifies this`stateStack
      ensures Valid()
      ensures ok <==> FinishDecode(old(Abs())).Some?
      ensures Abs() == if ok then FinishDecode(old(Abs())).value else old(Abs())
    {
      if stateStack == [] {
        return false;
      }
      var st := stateStack[|stateStack| - 1];
      if st.check && st.processed != st.elements {
        return false;
      }
      stateStack := stateStack[..|stateStack| - 1];
      return true;
    }
  }

  function Texts(bytes: seq<byte>): (vs: seq<Val>)
    ensures |vs| == |bytes| && forall i | 0 <= i < |vs| :: vs[i] == VUint(bytes[i])
  {
    seq(|bytes|, i requires 0 <= i < |bytes| => VUint(bytes[i]))
  }

  /** What is left to decode, with the bytes read so far put in front, is the
      decoding of the whole string. */
  ghost predicate Pending(buf: seq<byte>, hs: seq<Handle>, ts: seq<Type>, d1: Decoding, i: nat, bytes: seq<byte>, d: Decoding)
    requires i <= |ts|
  {
    && d1.end <= |buf| && d.end <= |buf|
    && DecodeValues(map[], ts, buf, hs, d1) ==
         (match DecodeValues(map[], ts[i..], buf, hs, d)
          case None => None
          case Some(Read(vs, d')) => Some(Read(Texts(bytes) + vs, d')))
  }

  lemma ByteRange(buf: seq<byte>, d: Decoding)
    requires Codec.ReadUint(buf, d, 1).Some?
    ensures Codec.ReadUint(buf, d, 1).value.value < 256
  {
    hide Guard, RoundUp;
    var at := d.Top().Pos(1);
    ValueBound(buf[at..at + 1]);
    Powers();
  }

  lemma PendingAll(buf: seq<byte>, hs: seq<Handle>, ts: seq<Type>, d: Decoding)
    requires d.end <= |buf|
    ensures Pending(buf, hs, ts, d, 0, [], d)
  {
    hide DecodeValues;
    assert ts[0..] == ts;
    var c := DecodeValues(map[], ts, buf, hs, d);
    assert c.Some? ==> Texts([]) + c.value.value == c.value.value;
  }

  lemma StringUnfold(us: seq<Type>, buf: seq<byte>, hs: seq<Handle>, d: Decoding)
    requires us != [] && us[0] == TUint(W8) && d.end <= |buf|
    ensures var r := Codec.ReadUint(buf, d, 1);
      if r.None? then DecodeValues(map[], us, buf, hs, d).None? else
        var c := DecodeValues(map[], us[1..], buf, hs, r.value.rest);
        DecodeValues(map[], us, buf, hs, d)
          == if c.None? then None else Some(Read([VUint(r.value.value)] + c.value.value, c.value.rest))
  {
    hide Codec.ReadUint;
    assert W8.Bytes() == 1;
  }

  lemma ByteStep(buf: seq<byte>, hs: seq<Handle>, ts: seq<Type>, d1: Decoding, i: nat, bytes: seq<byte>, d: Decoding)
    requires i < |ts| && ts == Repeat(TUint(W8), |ts|) && Pending(buf, hs, ts, d1, i, bytes, d)
    ensures var r := Codec.ReadUint(buf, d, 1);
      && (r.None? ==> DecodeValues(map[], ts, buf, hs, d1).None?)
      && (r.Some? && r.value.value < 256 ==> Pending(buf, hs, ts, d1, i + 1, bytes + [r.value.value], r.value.rest))
  {
    hide Codec.ReadUint, DecodeValues;
    StringUnfold(ts[i..], buf, hs, d);
    assert ts[i..][1..] == ts[i + 1..];
    var r := Codec.ReadUint(buf, d, 1);
    if r.Some? && r.value.value < 256 {
      assert Texts(bytes + [r.value.value]) == Texts(bytes) + [VUint(r.value.value)];
      var c := DecodeValues(map[], ts[i + 1..], buf, hs, r.value.rest);
      if c.Some? {
        assert Texts(bytes) + ([VUint(r.value.value)] + c.value.value) == Texts(bytes + [r.value.value]) + c.value.value;
      }
    }
  }

  lemma AfterAll(buf: seq<byte>, hs: seq<Handle>, ts: seq<Type>, d1: Decoding, bytes: seq<byte>, d: Decoding)
    requires Pending(buf, hs, ts, d1, |ts|, bytes, d)
    ensures DecodeValues(map[], ts, buf, hs, d1) == Some(Read(Texts(bytes), d))
  {
    assert ts[|ts|..] == [] && Texts(bytes) + [] == Texts(bytes);
  }
}
