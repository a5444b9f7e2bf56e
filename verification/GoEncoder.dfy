/**
  The Go encoder object: a byte buffer that grows by doubling, a handle table
  and a stack of open blocks, changed in place by every call.  Each method is
  proved against the corresponding step of the codec machine.
*/
module GoEncoder {
  import opened Wire
  import opened Layout
  import opened Cursor
  import opened Codec
  import opened CodecFrame

  lemma ZerosBehind(before: seq<byte>, after: seq<byte>, size: nat)
    requires |after| == |before| + size && (forall p | 0 <= p < |before| :: after[p] == before[p])
    requires forall p | |before| <= p < |after| :: after[p] == 0
    ensures after == before + Zeros(size)
  {
  }

  class Encoder {
    var buf: array<byte>
    var end: nat
    var handles: seq<Handle>
    var stateStack: seq<State>
    /** Bytes copied by growth so far. */
    ghost var copied: nat

    ghost function Abs(): Encoding
      requires end <= buf.Length
      reads this, buf
    {
      Encoding(buf[..end], handles, stateStack)
    }

    /** Nothing is written behind `end`, all open blocks are sound, and growth
        has copied no more bytes than the buffer has now. */
    ghost predicate Valid()
      reads this, buf
    {
      && end <= buf.Length
      && (forall p | end <= p < buf.Length :: buf[p] == 0)
      && Sound(Abs())
      && copied <= buf.Length
    }

    constructor ()
      ensures Valid() && fresh(buf) && Abs() == EMPTY
    {
      buf := new byte[0];
      end, handles, stateStack, copied := 0, [], [], 0;
    }

    /** Claim `size` bytes at the end, growing the buffer if needed. */
    method ClaimData(size: nat)
      requires end <= buf.Length && copied <= buf.Length
      requires forall p | end <= p < buf.Length :: buf[p] == 0
      modifies this`buf, this`end, this`copied
      ensures buf == old(buf) || fresh(buf)
      ensures end == old(end) + size <= buf.Length && copied <= buf.Length
      ensures buf[..end] == old(buf[..end]) + Zeros(size)
      ensures forall p | end <= p < buf.Length :: buf[p] == 0
    {
      ghost var before := buf[..end];
      end := end + size;
      if end < buf.Length {
        ZerosBehind(before, buf[..end], size);
        return;
      }
      var newLen := end;
      if newLen < 2 * buf.Length {
        newLen := 2 * buf.Length;
      }
      var tmp := new byte[newLen](_ => 0);
      forall p | 0 <= p < buf.Length {
        tmp[p] := buf[p];
      }
      copied := copied + buf.Length;
      buf := tmp;
      ZerosBehind(before, buf[..end], size);
    }

    /** `n` bytes of `value` at `at`, least significant first. */
    method PutUint(at: nat, n: nat, value: nat)
      requires at + n <= end <= buf.Length
      modifies buf
      ensures buf[..end] == Put(old(buf[..end]), at, LittleEndian(value, n))
      ensures forall p | end <= p < buf.Length :: buf[p] == old(buf[p])
    {
      hide LittleEndian;
      ghost var bytes := LittleEndian(value, n);
      var i, v := 0, value;
      while i < n
        invariant 0 <= i <= n
        invariant bytes == bytes[..i] + LittleEndian(v, n - i)
        invariant forall p | 0 <= p < buf.Length :: buf[p] == if at <= p < at + i then bytes[p - at] else old(buf[p])
      {
        LowByteFirst(v, n - i);
        assert bytes[..i + 1] == bytes[..i] + [v % 256];
        buf[at + i] := v % 256;
        i, v := i + 1, v / 256;
      }
    }

    method PushState(size: nat, elements: nat, check: bool)
      requires Valid() && HEADER_SIZE <= size
      modifies this`buf, this`end, this`copied, this`stateStack
      ensures buf == old(buf) || fresh(buf)
      ensures end <= buf.Length && copied <= buf.Length && end == old(end) + RoundUp(size, 8)
      ensures buf[..end] == old(buf[..end]) + Zeros(RoundUp(size, 8))
      ensures forall p | end <= p < buf.Length :: buf[p] == 0
      ensures stateStack == old(stateStack)
        + [State(old(end), 0, end, if check then elements else 0, 0, check)]
    {
      var oldEnd := end;
      AlignIsRoundUp(size, 8);
      ClaimData(Align(size, 8));
      stateStack := stateStack + [State(oldEnd, 0, end, if check then elements else 0, 0, check)];
    }

    /** Open a block and write its header. */
    method StartBlock(size: nat, elements: nat, check: bool)
      requires Valid() && HEADER_SIZE <= size
      modifies this`buf, this`end, this`copied, this`stateStack, buf
      ensures Valid() && (buf == old(buf) || fresh(buf))
      ensures Abs() == Start(old(Abs()), size, elements, check)
    {
      hide RoundUp, Multiple, Sound, LittleEndian, Put, Zeros;
      ghost var e := Abs();
      HeaderPut(e.data, size, elements, RoundUp(size, 8));
      StartSound(e, size, elements, check);
      PushState(size, elements, check);
      var st := stateStack[|stateStack| - 1];
      PutUint(st.offset, 4, size);
      PutUint(st.offset + 4, 4, elements);
      stateStack := stateStack[..|stateStack| - 1] + [st.(offset := st.offset + 8)];
      assert buf[..end] == Start(e, size, elements, check).data;
      assert stateStack == Start(e, size, elements, check).stack;
    }

    method StartArray(length: nat, elementBitSize: nat)
      requires Valid()
      modifies this`buf, this`end, this`copied, this`stateStack, buf
      ensures Valid() && (buf == old(buf) || fresh(buf))
      ensures Abs() == Start(old(Abs()), HEADER_SIZE + BytesForBits(length * elementBitSize), length, true)
    {
      StartBlock(HEADER_SIZE + BytesForBits(length * elementBitSize), length, true);
    }

    method StartMap()
      requires Valid()
      modifies this`buf, this`end, this`copied, this`stateStack, buf
      ensures Valid() && (buf == old(buf) || fresh(buf))
      ensures Abs() == Start(old(Abs()), 24, 0, false)
    {
      StartBlock(24, 0, false);
    }

    method StartStruct(size: nat, version: nat)
      requires Valid()
      modifies this`buf, this`end, this`copied, this`stateStack, buf
      ensures Valid() && (buf == old(buf) || fresh(buf))
      ensures Abs() == Start(old(Abs()), HEADER_SIZE + size, version, false)
    {
      StartBlock(HEADER_SIZE + size, version, false);
    }

    /** The call did what step `r` says; a refused call changed nothing. */
    twostate predicate Did(r: Option<Encoding>, ok: bool)
      reads this, buf
    {
      && Valid()
      && buf == old(buf) && end == old(end)
      && (ok <==> r.Some?)
      && (r.Some? ==> Abs() == r.value)
      && (r.None? ==> handles == old(handles) && stateStack == old(stateStack) && buf[..] == old(buf[..]))
    }

    method WriteUint(n: nat, value: nat) returns (ok: bool)
      requires Valid() && n in {1, 2, 4, 8}
      modifies this`stateStack, buf
      ensures Did(Codec.WriteUint(old(Abs()), n, value), ok)
    {
      hide RoundUp, Multiple, Sound, Guard, LittleEndian, Good, Extends;
      ghost var e := Abs();
      if stateStack == [] {
        return false;
      }
      var st := stateStack[|stateStack| - 1];
      if !Guard(st, 8 * n) {
        return false;
      }
      SoundIsGood(e);
      InBlock(e, n);
      var at := if st.bitOffset > 0 then st.offset + 1 else st.offset;
      AlignIsRoundUp(at, n);
      at := Align(at, n);
      PutUint(at, n, value);
      stateStack := stateStack[..|stateStack| - 1] + [st.(offset := at + n, bitOffset := 0, processed := st.processed + 1)];
      assert Abs() == Codec.WriteUint(e, n, value).value;
      WriteUintSound(e, n, value);
      return true;
    }

    method WriteBool(value: bool) returns (ok: bool)
      requires Valid()
      modifies this`stateStack, buf
      ensures Did(Codec.WriteBool(old(Abs()), value), ok)
    {
      hide RoundUp, Multiple, Sound, Guard, Good, Extends, SetBit;
      ghost var e := Abs();
      if stateStack == [] {
        return false;
      }
      var st := stateStack[|stateStack| - 1];
      if !Guard(st, 1) {
        return false;
      }
      SoundIsGood(e);
      BitInBlock(e);
      if value {
        buf[st.offset] := SetByteBit(buf[st.offset], st.bitOffset);
      }
      stateStack := stateStack[..|stateStack| - 1]
        + [st.(offset := st.offset + (st.bitOffset + 1) / 8, bitOffset := (st.bitOffset + 1) % 8, processed := st.processed + 1)];
      assert Abs() == Codec.WriteBool(e, value).value;
      WriteBoolSound(e, value);
      return true;
    }

    /** Align first, then write the distance to the first unclaimed byte.  When
        the write is refused the alignment stays. */
    method WritePointer() returns (ok: bool)
      requires Valid() && stateStack != []
      modifies this`stateStack, buf
      ensures buf == old(buf) && end == old(end) && handles == old(handles)
      ensures ok <==> Codec.WritePointer(old(Abs())).Some?
      ensures ok ==> Valid() && Abs() == Codec.WritePointer(old(Abs())).value
    {
      hide RoundUp, Multiple, Sound, Guard, LittleEndian, Good, Extends, Codec.WriteUint, Codec.WritePointer;
      ghost var e := Abs();
      SoundIsGood(e);
      var st := stateStack[|stateStack| - 1];
      var at := if st.bitOffset > 0 then st.offset + 1 else st.offset;
      AlignIsRoundUp(at, 8);
      at := Align(at, 8);
      st := st.(offset := at, bitOffset := 0);
      PointerStep(e);
      if !Guard(st, 64) {
        stateStack := stateStack[..|stateStack| - 1] + [st];
        return false;
      }
      AlignKeeps(e);
      ghost var e1 := e.WithTop(st);
      ExtendsSound(e, e1);
      stateStack := stateStack[..|stateStack| - 1] + [st];
      assert Abs() == e1;
      ok := WriteUint(8, end - at);
    }

    method WriteHandle(handle: Handle) returns (ok: bool)
      requires Valid()
      modifies this`handles, this`stateStack, buf
      ensures Valid() && buf == old(buf) && end == old(end)
      ensures |old(handles)| < INVALID_INDEX ==> (ok <==> Codec.WriteHandle(old(Abs()), handle).Some?)
      ensures |old(handles)| < INVALID_INDEX && ok ==> Abs() == Codec.WriteHandle(old(Abs()), handle).value
    {
      hide RoundUp, Multiple, Guard, LittleEndian, Codec.WriteUint;
      if handle == INVALID_HANDLE {
        return false;
      }
      handles := handles + [handle];
      ok := WriteUint(4, |handles| - 1);
    }

    /** A string is an array of bytes. */
    method WriteString(value: seq<byte>) returns (ok: bool)
      requires Valid() && HEADER_SIZE + |value| < UINT32
      modifies this, buf
      ensures ok ==> Valid() && Some(Abs()) == EncodeObject(map[], TArray(TUint(W8)), OArray(Chars(value)), old(Abs()))
      ensures !ok ==> EncodeObject(map[], TArray(TUint(W8)), OArray(Chars(value)), old(Abs())).None?
    {
      hide RoundUp, Multiple, Guard, LittleEndian, Codec.WriteUint, Sound, EncodeValue, EncodeObject, Start;
      ghost var n, e0 := |value|, Abs();
      StringObject(value, e0);
      StartArray(|value|, 8);
      ghost var e1 := Abs();
      BytesOfString(n);
      ghost var ts, vs := Repeat(TUint(W8), n), Chars(value);
      var i := 0;
      while i < |value|
        invariant 0 <= i <= n && Valid() && (buf == old(buf) || fresh(buf))
        invariant EncodeValues(map[], ts[i..], vs[i..], Abs()) == EncodeValues(map[], ts, vs, e1)
      {
        StringStep(ts, vs, value, i, Abs());
        ok := WriteUint(1, value[i]);
        if !ok {
          return;
        }
        i := i + 1;
      }
      assert EncodeValues(map[], ts[i..], vs[i..], Abs()) == Some(Abs());
      ok := Finish();
    }

    method Finish() returns (ok: bool)
      requires Valid()
      modifies this`stateStack
      ensures Did(Codec.Finish(old(Abs())), ok)
    {
      hide Multiple;
      if stateStack == [] {
        return false;
      }
      var st := stateStack[|stateStack| - 1];
      if st.check && st.processed != st.elements {
        return false;
      }
      stateStack := stateStack[..|stateStack| - 1];
      return true;
    }

    /** The claimed bytes and the handles, once all blocks are closed. */
    method Data() returns (r: Option<(seq<byte>, seq<Handle>)>)
      requires Valid()
      ensures r == if stateStack == [] then Some((Abs().data, Abs().handles)) else None
    {
      if stateStack != [] {
        return None;
      }
      return Some((buf[..end], handles));
    }
  }

  function Chars(value: seq<byte>): (vs: seq<Val>)
    ensures |vs| == |value| && forall i | 0 <= i < |vs| :: vs[i] == VUint(value[i])
  {
    seq(|value|, i requires 0 <= i < |value| => VUint(value[i]))
  }

  /** Two integers put at the start of a claimed block are its header. */
  lemma HeaderPut(data: seq<byte>, size: nat, elements: nat, claimed: nat)
    requires HEADER_SIZE <= claimed
    ensures Put(Put(data + Zeros(claimed), |data|, LittleEndian(size, 4)), |data| + 4, LittleEndian(elements, 4))
         == data + (LittleEndian(size, 4) + LittleEndian(elements, 4)) + Zeros(claimed - HEADER_SIZE)
  {
    hide LittleEndian;
    var a, b := LittleEndian(size, 4), LittleEndian(elements, 4);
    assert Put(data + Zeros(claimed), |data|, a) == data + a + Zeros(claimed - 4);
    assert Put(data + a + Zeros(claimed - 4), |data| + 4, b) == data + (a + b) + Zeros(claimed - 8);
  }

  lemma LowByteFirst(v: nat, n: nat)
    requires n > 0
    ensures LittleEndian(v, n) == [v % 256] + LittleEndian(v / 256, n - 1)
  {
  }

  lemma BytesOfString(n: nat)
    ensures BytesForBits(n * 8) == n
  {
  }

  lemma StringObject(value: seq<byte>, e: Encoding)
    requires HEADER_SIZE + |value| < UINT32
    ensures EncodeObject(map[], TArray(TUint(W8)), OArray(Chars(value)), e) ==
      match EncodeValues(map[], Repeat(TUint(W8), |value|), Chars(value), Start(e, HEADER_SIZE + |value|, |value|, true))
      case None => None
      case Some(e1) => Codec.Finish(e1)
  {
    hide EncodeValues, Start;
    BytesOfString(|value|);
  }

  lemma StringStep(ts: seq<Type>, vs: seq<Val>, value: seq<byte>, i: nat, e: Encoding)
    requires i < |value| && ts == Repeat(TUint(W8), |value|) && vs == Chars(value)
    ensures EncodeValues(map[], ts[i..], vs[i..], e) ==
      match Codec.WriteUint(e, 1, value[i])
      case None => None
      case Some(e1) => EncodeValues(map[], ts[i + 1..], vs[i + 1..], e1)
  {
    hide Codec.WriteUint;
    Powers();
    assert ts[i..][1..] == ts[i + 1..] && vs[i..][1..] == vs[i + 1..];
    assert ts[i..][0] == TUint(W8) && vs[i..][0] == VUint(value[i]);
  }

  lemma InBlock(e: Encoding, n: nat)
    requires n in {1, 2, 4, 8} && Good(e) && Guard(e.Top(), 8 * n)
    ensures e.Top().Pos(n) + n <= e.Top().limit <= |e.data|
  {
    hide Guard, RoundUp;
    GuardExact(e.Top(), n);
  }

  /** Writing a pointer is writing its distance at the aligned position. */
  lemma PointerStep(e: Encoding)
    requires Good(e)
    ensures var st := e.Top().AlignToPointer();
      if Guard(st, 64) then
        e.Top().Pos(8) <= e.Top().limit && st.offset <= |e.data| && Codec.WritePointer(e) == Codec.WriteUint(e.WithTop(st), 8, |e.data| - st.offset)
      else Codec.WritePointer(e).None?
  {
    hide RoundUp, Guard, LittleEndian;
    AlignTwice(e.Top());
    GuardWhole(e.Top().AlignToPointer(), 8);
    BlankBlock(e);
  }

  lemma BitInBlock(e: Encoding)
    requires Good(e) && Guard(e.Top(), 1)
    ensures e.Top().offset < e.Top().limit <= |e.data| && e.Top().bitOffset < 8
  {
    hide Guard;
    GuardBit(e.Top());
  }

  lemma BlankBlock(e: Encoding)
    requires Good(e)
    ensures e.Top().limit <= |e.data|
  {
  }
}
