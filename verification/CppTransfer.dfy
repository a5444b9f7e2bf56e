/**
  The bounds checker and the validator as they run, and a value's whole way from
  one process to another.
*/
module CppTransfer {
  import opened Wire
  import opened CppValues
  import opened CppImage
  import opened CppEncode
  import opened CppDecode
  import opened CppSerialize
  import opened CppValidate
  import opened CppSound
  import opened CppAccept
  import opened CppVisit
  import opened CppRewrite
  import opened CppRead
  import opened CppDeserialize
  import opened CppArrival

  class BoundsChecker {
    var dataBegin: nat
    var dataEnd: nat
    var handleBegin: nat
    var handleEnd: nat
    ghost var claims: seq<Claim>
    ghost var visited: seq<Piece>
    ghost var taken: seq<nat>

    ghost function View(): Checker
      reads this
    {
      Checker(dataBegin, dataEnd, handleBegin, handleEnd, claims, visited, taken)
    }

    constructor (ghost mem: seq<byte>, data: nat, bytes: nat, handles: nat)
      requires bytes == |mem|
      ensures View() == Fresh(mem, data, handles)
    {
      dataBegin, dataEnd := data, data + bytes;
      handleBegin, handleEnd := 0, if handles < 0x8000_0000 then handles else 0;
      claims, visited, taken := [], [], [];
    }

    method InRange(begin: nat, bytes: nat) returns (ok: bool)
      ensures ok == IsValidRange(View(), begin, bytes)
    {
      var end := Add64(begin, bytes);
      ok := end > begin && begin >= dataBegin && end <= dataEnd;
    }

    method TryClaimMemory(begin: nat, bytes: nat, ghost t: Type, ghost count: nat) returns (ok: bool)
      modifies this
      ensures ok == IsValidRange(old(View()), begin, bytes)
      ensures View() == if ok then ClaimMemory(old(View()), begin, bytes, t, count) else old(View())
    {
      ok := InRange(begin, bytes);
      if ok {
        dataBegin := Add64(begin, bytes);
        claims := claims + [Claim(begin, dataBegin, t, count)];
      }
    }

    method TryClaimHandle(value: nat) returns (ok: bool)
      modifies this
      ensures ok == CanClaimHandle(old(View()), value)
      ensures View() == if ok then ClaimHandle(old(View()), value) else old(View())
    {
      if value == INVALID_INDEX {
        return true;
      }
      if value >= 0x8000_0000 || value < handleBegin || value >= handleEnd {
        return false;
      }
      handleBegin := value + 1;
      taken := taken + [value];
      ok := true;
    }
  }

  method ValidateHandleArray(mem: seq<byte>, base: nat, nullable: bool, a: nat, n: nat, checker: BoundsChecker) returns (err: ValidationError)
    requires Inside(mem, base, checker.View()) && base <= a && a + 8 + 4 * n <= base + |mem|
    modifies checker
    ensures Outcome(err, checker.View()) == ValidateHandles(mem, base, nullable, a, n, 0, old(checker.View()))
  {
    hide U32;
    var i := 0;
    while i < n
      invariant 0 <= i <= n && Inside(mem, base, checker.View())
      invariant ValidateHandles(mem, base, nullable, a, n, 0, old(checker.View()))
             == ValidateHandles(mem, base, nullable, a, n, i, checker.View())
    {
      var value := U32(mem, a - base + 8 + 4 * i);
      checker.visited := checker.visited + [HandleAt(a + 8 + 4 * i)];
      if !nullable && value == INVALID_INDEX {
        return UnexpectedInvalidHandle;
      }
      var ok := checker.TryClaimHandle(value);
      if !ok {
        return IllegalHandle;
      }
      i := i + 1;
    }
    err := NoError;
  }

  method ValidatePointer(mem: seq<byte>, base: nat, t: Type, nullable: bool, s: nat, checker: BoundsChecker) returns (err: ValidationError)
    requires Inside(mem, base, checker.View()) && base <= s && s + 8 <= base + |mem|
    modifies checker
    ensures Outcome(err, checker.View()) == ValidateSlot(mem, base, t, nullable, s, old(checker.View()))
    decreases t, 3, 0
  {
    hide U64, Validate;
    var offset := U64(mem, s - base);
    checker.visited := checker.visited + [PointerAt(s)];
    if !nullable && offset == 0 {
      return UnexpectedNullPointer;
    }
    if offset > MAX_UINT32 || Add64(s, offset) < s {
      return IllegalPointer;
    }
    err := ValidateObject(mem, base, t, if offset == 0 then 0 else s + offset, checker);
  }

  method ValidateRefArray(mem: seq<byte>, base: nat, t: Type, a: nat, n: nat, checker: BoundsChecker) returns (err: ValidationError)
    requires Inside(mem, base, checker.View()) && t.RefArray? && base <= a && a + 8 + 8 * n <= base + |mem|
    modifies checker
    ensures Outcome(err, checker.View()) == ValidateElements(mem, base, t, a, n, 0, old(checker.View()))
    decreases t, 1, 0
  {
    hide ValidateSlot, Validate;
    var i := 0;
    while i < n
      invariant 0 <= i <= n && Inside(mem, base, checker.View())
      invariant ValidateElements(mem, base, t, a, n, 0, old(checker.View()))
             == ValidateElements(mem, base, t, a, n, i, checker.View())
    {
      err := ValidatePointer(mem, base, t.elem, t.nullable, a + 8 + 8 * i, checker);
      if err != NoError {
        return;
      }
      i := i + 1;
    }
    err := NoError;
  }

  method ValidateObject(mem: seq<byte>, base: nat, t: Type, a: nat, checker: BoundsChecker) returns (err: ValidationError)
    requires Inside(mem, base, checker.View())
    modifies checker
    ensures Outcome(err, checker.View()) == Validate(mem, base, t, a, old(checker.View()))
    decreases t, 2, 0
  {
    hide U32, StorageSize, MaxElements, ValidateHandles, ValidateElements, ValidateMap;
    if a == 0 {
      return NoError;
    }
    if a % 8 != 0 {
      return MisalignedObject;
    }
    var ok := checker.InRange(a, 8);
    if !ok {
      return IllegalMemoryRange;
    }
    var bytes, second := U32(mem, a - base), U32(mem, a - base + 4);
    U32Bound(mem, a - base);
    if t.MapOf? {
      if bytes < 8 {
        return UnexpectedStructHeader;
      }
    } else if second > MaxElements(t) || bytes < StorageSize(t, second) {
      return UnexpectedArrayHeader;
    } else if t.expected != 0 && second != t.expected {
      return UnexpectedArrayHeader;
    }
    ok := checker.TryClaimMemory(a, bytes, t, if t.MapOf? then 2 else second);
    if !ok {
      return IllegalMemoryRange;
    }
    err := NoError;
    HandleStorage(t, second);
    if t.MapOf? {
      err := ValidateMapObject(mem, base, t, a, bytes, second, checker);
    } else if t.HandleArray? {
      err := ValidateHandleArray(mem, base, t.nullable, a, second, checker);
    } else if t.RefArray? {
      err := ValidateRefArray(mem, base, t, a, second, checker);
    }
  }

  method ValidateMapObject(mem: seq<byte>, base: nat, t: Type, a: nat, bytes: nat, version: nat, checker: BoundsChecker) returns (err: ValidationError)
    requires Inside(mem, base, checker.View()) && t.MapOf? && base <= a && a + bytes <= base + |mem|
    modifies checker
    ensures Outcome(err, checker.View()) == ValidateMap(mem, base, t, a, bytes, version, old(checker.View()))
    decreases t, 1, 0
  {
    hide U32, ValidateSlot, Validate;
    if bytes != 24 || version != 0 {
      return UnexpectedStructHeader;
    }
    err := ValidatePointer(mem, base, t.key, false, a + 8, checker);
    if err != NoError {
      return;
    }
    err := ValidatePointer(mem, base, t.value, false, a + 16, checker);
    if err != NoError {
      return;
    }
    if U32(mem, Target(mem, base, a + 8) - base + 4) != U32(mem, Target(mem, base, a + 16) - base + 4) {
      err := DifferentSizedArraysInMap;
    }
  }

  // ---- The whole way ----

  lemma {:induction false} HandlesFit(t: Type, v: Val)
    requires HasType(t, v)
    ensures forall h | h in HandlesOf(v) :: 0 < h < 0x1_0000_0000
    decreases t, 0
  {
    if v.Handles? {
      ValidFit(v.handles);
    } else if v.Node? {
      KidHandlesFit(t, v, |v.kids|);
    }
  }

  lemma {:induction false} ValidFit(handles: seq<nat>)
    requires forall h | h in handles :: h < 0x1_0000_0000
    ensures forall h | h in Valid(handles) :: 0 < h < 0x1_0000_0000
  {
    if handles != [] {
      var l := |handles| - 1;
      assert forall h | h in handles[..l] :: h in handles;
      assert handles[l] in handles;
      ValidFit(handles[..l]);
    }
  }

  lemma {:induction false} KidHandlesFit(t: Type, v: Val, i: nat)
    requires HasType(t, v) && v.Node? && i <= |v.kids|
    ensures forall h | h in HandlesBefore(v.kids, i) :: 0 < h < 0x1_0000_0000
    decreases t, 0, i
  {
    if i > 0 {
      KidHandlesFit(t, v, i - 1);
      var kid := HandlesIn(v.kids[i - 1]);
      if v.kids[i - 1].Some? {
        KidHasType(t, v, i - 1);
        HandlesFit(KidType(t, i - 1), v.kids[i - 1].value);
        assert kid == HandlesOf(v.kids[i - 1].value);
      }
      assert forall h | h in HandlesBefore(v.kids, i - 1) + kid :: h in HandlesBefore(v.kids, i - 1) || h in kid;
    }
  }

  /** Sizes, serializes and encodes a value at address `here`. */
  method Send(t: Type, v: Val, here: nat) returns (err: ValidationError, unused: nat, bytes: seq<byte>, carried: seq<nat>)
    requires WellFormed(t) && HasType(t, v) && NoWrap(v) && |HandlesOf(v)| < 0x8000_0000
    requires 0 < here && here % 8 == 0 && here + Size(v) < ADDRESSES
    ensures err == Check(t, v)
    ensures err == NoError ==>
      unused == 0 && |bytes| == Size(v) && carried == HandlesOf(v) && At(Encoded(0), bytes, 0, v)
  {
    hide At, Check, HasType, Size, HandlesOf, NoWrap, WellFormed;
    unused, bytes, carried := 0, [], [];
    var size := GetSerializedSize(t, v);
    var mem := new byte[size];
    var buf := new FixedBuffer(mem, here);
    var p;
    err, p := SerializeObject(buf, t, v);
    if err != NoError {
      return;
    }
    unused := size - buf.cursor;
    var vector := new HandleVector([]);
    EncodeObject(mem, here, t, p, vector, v);
    bytes, carried := mem[..], vector.items;
  }

  /** The outcome of validating a message. */
  ghost function Verdict(msg: Message, t: Type): Outcome
    requires 0 < msg.base && msg.base + |msg.bytes| < ADDRESSES
  {
    Validate(msg.bytes, msg.base, t, msg.base, Fresh(msg.bytes, msg.base, |msg.items|))
  }

  /** Validates, decodes and deserializes a message at address `there`, whatever its
      bytes are. A refused message stays as it came. From an accepted one comes the
      value it stands for; the handles of that value, and no others, have left the
      handle vector and the received memory, where nothing has changed but pointers
      and handles. */
  method Receive(t: Type, bytes: seq<byte>, carried: seq<nat>, there: nat)
    returns (verdict: ValidationError, received: Option<Val>, left: seq<nat>, remains: seq<byte>)
    requires 0 < there && there + |bytes| < ADDRESSES && Small(carried)
    requires var o := Verdict(Message(bytes, there, carried), t); o.err == NoError ==> Held(o.checker.claims)
    ensures var msg := Message(bytes, there, carried);
      && verdict == Verdict(msg, t).err
      && if verdict != NoError then received == None && left == carried && remains == bytes
         else
           && received == Some(Read(msg, t, there))
           && |left| == |carried|
           && (forall x | 0 <= x < |left| :: left[x] == if x in Decoded(bytes, there, t, there).indices then 0 else carried[x])
           && Rewritten(Blank(msg), remains, Blank(msg).items, Decoded(bytes, there, t, there), All(msg))
  {
    hide Validate, Decoded, Held, Rewritten, Elsewhere, Emptied, Lies, Apart, Read;
    ghost var msg := Message(bytes, there, carried);
    ghost var c := Fresh(bytes, there, |carried|);
    var checker := new BoundsChecker(bytes, there, |bytes|, |carried|);
    verdict := ValidateObject(bytes, there, t, there, checker);
    received, left, remains := None, carried, bytes;
    if verdict != NoError {
      return;
    }
    var mem := new byte[|bytes|](i requires 0 <= i < |bytes| => bytes[i]);
    assert mem[..] == bytes;
    var vector := new HandleVector(carried);
    ghost var d, trace := Verdict(msg, t).checker, Decoded(bytes, there, t, there);
    ghost var area := ObjectArea(there, c, d);
    JustCame(msg, area);
    DecodeObject(mem, there, t, there, vector, msg, c, there);
    Spread(bytes, there, t, there, c, there);
    Takes(bytes, there, t, there, c);
    LiesIn(trace, area);
    RewrittenInAll(msg, mem[..], vector.items, trace, area);
    TakenExactly(msg, mem[..], vector.items, trace);
    ghost var m0 := mem[..];
    var r := DeserializeObject(mem, there, t, there, msg, vector.items, c, there);
    EmptiedIsBlank(msg, m0, mem[..], vector.items, trace, All(msg));
    received, left, remains := Some(r), vector.items, mem[..];
  }

  lemma JustCame(msg: Message, area: Area)
    requires msg.Holds(area)
    ensures Ready(msg, msg.bytes, msg.items, area)
  {
  }

  lemma TakenExactly(msg: Message, mem: seq<byte>, items: seq<nat>, trace: Trace)
    requires Rewritten(msg, mem, items, trace, All(msg))
    ensures |items| == |msg.items| && forall x | 0 <= x < |items| :: items[x] == if x in trace.indices then 0 else msg.items[x]
  {
    hide PieceDone, Covered;
  }

  /** A message that was sent is accepted and stands for the value that was sent;
      decoding it takes every handle. */
  lemma SentArrives(msg: Message, t: Type, v: Val)
    requires WellFormed(t) && HasType(t, v) && NoWrap(v) && Check(t, v) == NoError
    requires |msg.bytes| == Size(v) && msg.items == HandlesOf(v) && |msg.items| < 0x8000_0000 && At(Encoded(0), msg.bytes, 0, v)
    requires 0 < msg.base && msg.base % 8 == 0 && msg.base + |msg.bytes| < ADDRESSES
    ensures Verdict(msg, t).err == NoError && Held(Verdict(msg, t).checker.claims)
    ensures Read(msg, t, msg.base) == v && Small(msg.items)
    ensures Exhausts(Decoded(msg.bytes, msg.base, t, msg.base), 0, |msg.items|)
  {
    hide At, Check, HasType, Size, Validate, HandlesOf, NoWrap, WellFormed, Read, Decoded, Exhausts;
    Accepts(msg.bytes, msg.base, t, 0, v, 0, Fresh(msg.bytes, msg.base, |msg.items|));
    HandlesFit(t, v);
    assert msg.items[0..|msg.items|] == msg.items;
    ReadsBack(msg, t, 0, v, 0);
    TakesAll(msg.bytes, msg.base, t, 0, v, 0);
  }

  /** What is left of it in memory is the value without its handles. */
  lemma RemainsSpent(msg: Message, t: Type, v: Val, remains: seq<byte>)
    requires HasType(t, v) && At(Encoded(0), msg.bytes, 0, v)
    requires 0 < msg.base && msg.base + |msg.bytes| < ADDRESSES && Verdict(msg, t).err == NoError
    requires Rewritten(Blank(msg), remains, Blank(msg).items, Decoded(msg.bytes, msg.base, t, msg.base), All(msg))
    ensures At(Spent(msg.base), remains, 0, v)
  {
    hide At, HasType, Validate, Decoded, Rewritten;
    var none, c := Blank(msg), Fresh(msg.bytes, msg.base, |msg.items|);
    var trace := Decoded(msg.bytes, msg.base, t, msg.base);
    Narrow(none, remains, none.items, trace, All(msg), ObjectArea(msg.base, c, Verdict(msg, t).checker));
    ValueArrives(Spent(msg.base), none, remains, none.items, t, 0, v, 0, c, msg.base);
  }

  /**
    A value's way from address `here` to address `there`. Serialization fails
    exactly on values that the type forbids. Otherwise the buffer is used up to
    the last byte, the handles go out in order, validation accepts the message,
    the same value comes back, and no handle stays behind, neither in the handle
    vector nor in the received memory.
  */
  method Transfer(t: Type, v: Val, here: nat, there: nat)
    returns (err: ValidationError, unused: nat, carried: seq<nat>, verdict: ValidationError, received: Option<Val>,
             left: seq<nat>, remains: seq<byte>)
    requires WellFormed(t) && HasType(t, v) && NoWrap(v) && |HandlesOf(v)| < 0x8000_0000
    requires 0 < here && here % 8 == 0 && here + Size(v) < ADDRESSES
    requires 0 < there && there % 8 == 0 && there + Size(v) < ADDRESSES
    ensures err == Check(t, v)
    ensures err != NoError ==> received == None
    ensures err == NoError ==>
      && unused == 0 && carried == HandlesOf(v)
      && verdict == NoError && received == Some(v)
      && |left| == |carried| && (forall h | h in left :: h == 0)
      && At(Spent(there), remains, 0, v)
  {
    hide At, Check, HasType, Size, HandlesOf, NoWrap, WellFormed, Validate, Decoded, Held, Rewritten, Read, Exhausts;
    verdict, received, left, remains := NoError, None, [], [];
    var bytes;
    err, unused, bytes, carried := Send(t, v, here);
    if err == NoError {
      ghost var msg := Message(bytes, there, carried);
      SentArrives(msg, t, v);
      verdict, received, left, remains := Receive(t, bytes, carried, there);
      NoneLeft(left, carried, Decoded(bytes, there, t, there));
      RemainsSpent(msg, t, v, remains);
    }
  }

  lemma NoneLeft(left: seq<nat>, carried: seq<nat>, trace: Trace)
    requires |left| == |carried| && Exhausts(trace, 0, |carried|)
    requires forall x | 0 <= x < |left| :: left[x] == if x in trace.indices then 0 else carried[x]
    ensures forall h | h in left :: h == 0
  {
  }
}
