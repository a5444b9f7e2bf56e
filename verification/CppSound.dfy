/**
  The validator on arbitrary bytes: the objects it visits do not overlap, every
  pointer it follows and every handle it takes is stored inside one of them, and no handle is taken twice.
*/
module CppSound {
  import opened Wire
  import opened CppValues
  import opened CppImage
  import opened CppValidate

  /** The slot or word lies in the body of a claimed object. */
  ghost predicate Claimed(claims: seq<Claim>, x: Piece) {
    exists k :: 0 <= k < |claims| && claims[k].begin + 8 <= x.at && x.End() <= claims[k].end
  }

  /** An array was claimed with at least the size that was computed for it. */
  predicate Sized(claim: Claim) {
    claim.count <= MAX_UINT32 && (!claim.t.MapOf? ==> StorageSize(claim.t, claim.count) <= claim.end - claim.begin)
  }

  /** Objects begin at whole words. */
  predicate Aligned(a: nat) { a % 8 == 0 }

  ghost predicate ClaimsOrdered(base: nat, c: Checker) {
    && (forall i | 0 <= i < |c.claims| :: base <= c.claims[i].begin < c.claims[i].end <= c.dataBegin && Sized(c.claims[i]) && Aligned(c.claims[i].begin))
    && (forall i, j | 0 <= i < j < |c.claims| :: c.claims[i].end <= c.claims[j].begin)
  }

  ghost predicate VisitsClaimed(c: Checker) {
    forall i | 0 <= i < |c.visited| :: Claimed(c.claims, c.visited[i])
  }

  ghost predicate HandlesOrdered(c: Checker) {
    && (forall i | 0 <= i < |c.taken| :: c.taken[i] < c.handleBegin && c.taken[i] < c.handleEnd)
    && (forall i, j | 0 <= i < j < |c.taken| :: c.taken[i] < c.taken[j])
  }

  ghost predicate Orderly(base: nat, c: Checker) {
    ClaimsOrdered(base, c) && VisitsClaimed(c) && HandlesOrdered(c)
  }

  lemma ClaimedStays(claims: seq<Claim>, more: seq<Claim>, x: Piece)
    requires Claimed(claims, x) && claims <= more
    ensures Claimed(more, x)
  {
    var k :| 0 <= k < |claims| && claims[k].begin + 8 <= x.at && x.End() <= claims[k].end;
    assert more[k] == claims[k];
  }

  lemma ClaimOrderly(mem: seq<byte>, base: nat, c: Checker, a: nat, bytes: nat, t: Type, count: nat)
    requires Inside(mem, base, c) && Orderly(base, c) && IsValidRange(c, a, bytes) && bytes <= MAX_UINT32 && count <= MAX_UINT32
    requires (t.MapOf? || StorageSize(t, count) <= bytes) && Aligned(a)
    ensures Orderly(base, ClaimMemory(c, a, bytes, t, count))
  {
    hide StorageSize, Claimed, Aligned;
    var d := ClaimMemory(c, a, bytes, t, count);
    forall i | 0 <= i < |d.visited| ensures Claimed(d.claims, d.visited[i]) {
      ClaimedStays(c.claims, d.claims, c.visited[i]);
    }
  }

  lemma ClaimCovers(c: Checker, a: nat, bytes: nat, t: Type, count: nat, x: Piece)
    requires a + bytes < ADDRESSES && a + 8 <= x.at && x.End() <= a + bytes
    ensures Claimed(ClaimMemory(c, a, bytes, t, count).claims, x)
  {
    var claims := ClaimMemory(c, a, bytes, t, count).claims;
    assert claims[|c.claims|] == Claim(a, a + bytes, t, count);
  }

  lemma VisitOrderly(base: nat, c: Checker, x: Piece)
    requires Orderly(base, c) && Claimed(c.claims, x)
    ensures Orderly(base, Visit(c, x))
  {
    hide Claimed;
  }

  lemma {:induction false} Sound(mem: seq<byte>, base: nat, t: Type, a: nat, c: Checker)
    requires Inside(mem, base, c) && Orderly(base, c)
    ensures Orderly(base, Validate(mem, base, t, a, c).checker)
    decreases t, 2, 0
  {
    hide Orderly, StorageSize, MaxElements, Claimed;
    if a != 0 && a % 8 == 0 && IsValidRange(c, a, 8) {
      var bytes, second := U32(mem, a - base), U32(mem, a - base + 4);
      U32Bound(mem, a - base);
      U32Bound(mem, a - base + 4);
      if !IsValidRange(c, a, bytes) {
      } else if t.MapOf? {
        ClaimOrderly(mem, base, c, a, bytes, t, 2);
        if bytes >= 8 {
          SoundMap(mem, base, t, a, bytes, second, c);
        }
      } else if bytes >= StorageSize(t, second) {
        ClaimOrderly(mem, base, c, a, bytes, t, second);
        if t.HandleArray? && second <= MaxElements(t) {
          HandleStorage(t, second);
          SoundHandleArray(mem, base, t, a, bytes, second, c);
        } else if t.RefArray? && second <= MaxElements(t) {
          HandleStorage(t, second);
          SoundArray(mem, base, t, a, bytes, second, c);
        }
      }
    }
  }

  lemma HandleStorage(t: Type, n: nat)
    ensures t.HandleArray? ==> StorageSize(t, n) == 8 + 4 * n
    ensures t.RefArray? ==> StorageSize(t, n) == 8 + 8 * n
  {
  }

  lemma {:induction false} SoundMap(mem: seq<byte>, base: nat, t: Type, a: nat, bytes: nat, version: nat, c: Checker)
    requires Inside(mem, base, c) && t.MapOf? && base <= a && IsValidRange(c, a, bytes) && bytes <= MAX_UINT32
    requires Orderly(base, ClaimMemory(c, a, bytes, t, 2))
    ensures Orderly(base, ValidateMap(mem, base, t, a, bytes, version, ClaimMemory(c, a, bytes, t, 2)).checker)
    decreases t, 1, 0
  {
    hide Orderly, Claimed, ValidateSlot, Validate;
    var d := ClaimMemory(c, a, bytes, t, 2);
    if bytes == 24 && version == 0 {
      ClaimCovers(c, a, bytes, t, 2, PointerAt(a + 8));
      ClaimCovers(c, a, bytes, t, 2, PointerAt(a + 16));
      var keys := ValidateSlot(mem, base, t.key, false, a + 8, d);
      SoundSlot(mem, base, t.key, false, a + 8, d);
      if keys.err == NoError {
        ClaimedStays(d.claims, keys.checker.claims, PointerAt(a + 16));
        SoundSlot(mem, base, t.value, false, a + 16, keys.checker);
      }
    }
  }

  lemma {:induction false} SoundSlot(mem: seq<byte>, base: nat, t: Type, nullable: bool, s: nat, c: Checker)
    requires Inside(mem, base, c) && base <= s && s + 8 <= base + |mem|
    requires Orderly(base, c) && Claimed(c.claims, PointerAt(s))
    ensures Orderly(base, ValidateSlot(mem, base, t, nullable, s, c).checker)
    decreases t, 3, 0
  {
    hide Orderly, Claimed;
    VisitOrderly(base, c, PointerAt(s));
    Sound(mem, base, t, Target(mem, base, s), Visit(c, PointerAt(s)));
  }

  lemma SoundArray(mem: seq<byte>, base: nat, t: Type, a: nat, bytes: nat, n: nat, c: Checker)
    requires Inside(mem, base, c) && t.RefArray? && base <= a && IsValidRange(c, a, bytes) && 8 + 8 * n <= bytes <= MAX_UINT32
    requires Orderly(base, ClaimMemory(c, a, bytes, t, n))
    ensures Orderly(base, ValidateElements(mem, base, t, a, n, 0, ClaimMemory(c, a, bytes, t, n)).checker)
    decreases t, 1, n + 1
  {
    hide Orderly, Claimed;
    var d := ClaimMemory(c, a, bytes, t, n);
    forall i | 0 <= i < n ensures Claimed(d.claims, PointerAt(a + 8 + 8 * i)) {
      ClaimCovers(c, a, bytes, t, n, PointerAt(a + 8 + 8 * i));
    }
    SoundElements(mem, base, t, a, n, 0, d);
  }

  lemma {:induction false} SoundElements(mem: seq<byte>, base: nat, t: Type, a: nat, n: nat, i: nat, c: Checker)
    requires Inside(mem, base, c) && t.RefArray? && i <= n && base <= a && a + 8 + 8 * n <= base + |mem|
    requires Orderly(base, c) && forall j | i <= j < n :: Claimed(c.claims, PointerAt(a + 8 + 8 * j))
    ensures Orderly(base, ValidateElements(mem, base, t, a, n, i, c).checker)
    decreases t, 1, n - i
  {
    hide Orderly, Claimed, ValidateSlot, Validate;
    if i < n {
      var o := ValidateSlot(mem, base, t.elem, t.nullable, a + 8 + 8 * i, c);
      SoundSlot(mem, base, t.elem, t.nullable, a + 8 + 8 * i, c);
      if o.err == NoError {
        forall j | i + 1 <= j < n ensures Claimed(o.checker.claims, PointerAt(a + 8 + 8 * j)) {
          ClaimedStays(c.claims, o.checker.claims, PointerAt(a + 8 + 8 * j));
        }
        SoundElements(mem, base, t, a, n, i + 1, o.checker);
      }
    }
  }

  lemma SoundHandleArray(mem: seq<byte>, base: nat, t: Type, a: nat, bytes: nat, n: nat, c: Checker)
    requires Inside(mem, base, c) && t.HandleArray? && base <= a && IsValidRange(c, a, bytes) && 8 + 4 * n <= bytes <= MAX_UINT32
    requires Orderly(base, ClaimMemory(c, a, bytes, t, n))
    ensures Orderly(base, ValidateHandles(mem, base, t.nullable, a, n, 0, ClaimMemory(c, a, bytes, t, n)).checker)
  {
    hide Orderly, Claimed;
    var d := ClaimMemory(c, a, bytes, t, n);
    forall i | 0 <= i < n ensures Claimed(d.claims, HandleAt(a + 8 + 4 * i)) {
      ClaimCovers(c, a, bytes, t, n, HandleAt(a + 8 + 4 * i));
    }
    SoundHandles(mem, base, t.nullable, a, n, 0, d);
  }

  lemma {:induction false} SoundHandles(mem: seq<byte>, base: nat, nullable: bool, a: nat, n: nat, i: nat, c: Checker)
    requires Inside(mem, base, c) && i <= n && base <= a && a + 8 + 4 * n <= base + |mem|
    requires Orderly(base, c) && forall j | i <= j < n :: Claimed(c.claims, HandleAt(a + 8 + 4 * j))
    ensures Orderly(base, ValidateHandles(mem, base, nullable, a, n, i, c).checker)
    decreases n - i
  {
    hide Claimed, Orderly, U32;
    if i < n {
      var value, d := U32(mem, a - base + 8 + 4 * i), Visit(c, HandleAt(a + 8 + 4 * i));
      VisitOrderly(base, c, HandleAt(a + 8 + 4 * i));
      if CanClaimHandle(d, value) {
        TakeOrderly(base, d, value);
        SoundHandles(mem, base, nullable, a, n, i + 1, ClaimHandle(d, value));
      }
    }
  }

  lemma TakeOrderly(base: nat, c: Checker, value: nat)
    requires Orderly(base, c) && CanClaimHandle(c, value)
    ensures Orderly(base, ClaimHandle(c, value))
  {
    hide Claimed;
  }

  /** The checker that a message of `handles` handles at address `base` is
      validated with. */
  function Fresh(mem: seq<byte>, base: nat, handles: nat): Checker {
    Checker(base, base + |mem|, 0, if handles < 0x8000_0000 then handles else 0, [], [], [])
  }

  /** On any bytes whatsoever: the objects that validation visits begin at whole
      words and lie one after the other inside the message, every slot and handle word that it visits lies in
      one of them, and the handle indices increase, so none is taken twice. */
  lemma ValidatorSound(mem: seq<byte>, base: nat, handles: nat, t: Type, a: nat)
    requires 0 < base && base + |mem| < ADDRESSES
    ensures var c := Validate(mem, base, t, a, Fresh(mem, base, handles)).checker;
      && (forall i | 0 <= i < |c.claims| ::
            base <= c.claims[i].begin < c.claims[i].end <= base + |mem| && Sized(c.claims[i]) && c.claims[i].begin % 8 == 0)
      && (forall i, j | 0 <= i < j < |c.claims| :: c.claims[i].end <= c.claims[j].begin)
      && (forall i | 0 <= i < |c.visited| :: Claimed(c.claims, c.visited[i]))
      && (forall i | 0 <= i < |c.taken| :: c.taken[i] < handles)
      && (forall i, j | 0 <= i < j < |c.taken| :: c.taken[i] < c.taken[j])
  {
    hide Validate, Claimed, Sized;
    Sound(mem, base, t, a, Fresh(mem, base, handles));
  }

  // ---- What a claim holds ----

  /** The bytes that header and elements of an object take. */
  function TrueSize(t: Type, count: nat): nat {
    if t.BoolArray? then 8 + (count + 7) / 8 else StorageSize(t, count)
  }

  predicate HoldsElements(claim: Claim) { TrueSize(claim.t, claim.count) <= claim.end - claim.begin }

  /** Every claimed range holds its object. */
  ghost predicate Held(claims: seq<Claim>) {
    forall i | 0 <= i < |claims| :: HoldsElements(claims[i])
  }

  lemma HeldPrefix(claims: seq<Claim>, more: seq<Claim>)
    requires Held(more) && claims <= more
    ensures Held(claims)
  {
    hide HoldsElements;
    forall i | 0 <= i < |claims| ensures HoldsElements(claims[i]) {
      assert more[i] == claims[i];
    }
  }

  /** The number of bools wrapped around when it was rounded, and the claim is too
      small for them. */
  predicate Wrapped(claim: Claim) {
    claim.t.BoolArray? && claim.count + 7 > MAX_UINT32 && claim.end - claim.begin < 8 + 0x2000_0000
  }

  lemma SizedHolds(claim: Claim)
    requires Sized(claim) && (claim.t.MapOf? ==> claim.end - claim.begin == 24)
    ensures HoldsElements(claim) <==> !Wrapped(claim)
  {
    if claim.t.BoolArray? {
      if claim.count + 7 > MAX_UINT32 {
        assert (claim.count + 7) / 8 == 0x2000_0000;
      } else {
        assert (claim.count + 7) % 0x1_0000_0000 == claim.count + 7;
      }
    }
  }

  /** Maps were claimed with their 24 bytes. */
  ghost predicate MapsWhole(claims: seq<Claim>) {
    forall i | 0 <= i < |claims| && claims[i].t.MapOf? :: claims[i].end - claims[i].begin == 24
  }

  /** The checker once the object at `a` is claimed. */
  function Claiming(mem: seq<byte>, base: nat, t: Type, a: nat, c: Checker): Checker
    requires base <= a && a + 8 <= base + |mem|
  {
    ClaimMemory(c, a, U32(mem, a - base), t, if t.MapOf? then 2 else U32(mem, a - base + 4))
  }

  /** What the acceptance of an object says about its header, and what remains. */
  lemma AcceptedHeader(mem: seq<byte>, base: nat, t: Type, a: nat, c: Checker)
    requires Inside(mem, base, c) && a != 0 && Validate(mem, base, t, a, c).err == NoError
    ensures base <= a && a + 8 <= base + |mem|
    ensures var bytes, n := U32(mem, a - base), U32(mem, a - base + 4); var d := Claiming(mem, base, t, a, c);
      && c.dataBegin <= a && 8 <= bytes && a + bytes == d.dataBegin <= c.dataEnd && Inside(mem, base, d)
      && d.handleBegin == c.handleBegin && d.handleEnd == c.handleEnd && d.visited == c.visited && d.taken == c.taken
      && (t.MapOf? ==> bytes == 24 && Validate(mem, base, t, a, c) == ValidateMap(mem, base, t, a, 24, 0, d))
      && (t.HandleArray? ==> 8 + 4 * n <= bytes && Validate(mem, base, t, a, c) == ValidateHandles(mem, base, t.nullable, a, n, 0, d))
      && (t.RefArray? ==> 8 + 8 * n <= bytes && Validate(mem, base, t, a, c) == ValidateElements(mem, base, t, a, n, 0, d))
      && (t.PodArray? || t.BoolArray? ==> StorageSize(t, n) <= bytes && Validate(mem, base, t, a, c).checker == d)
  {
    hide U32, StorageSize, MaxElements, ValidateSlot, ValidateElements, ValidateHandles;
    U32Bound(mem, a - base);
    HandleStorage(t, U32(mem, a - base + 4));
    LeastSize(t, U32(mem, a - base + 4));
  }

  lemma LeastSize(t: Type, n: nat)
    ensures StorageSize(t, n) >= 8
  {
  }

  lemma {:induction false} AcceptedMaps(mem: seq<byte>, base: nat, t: Type, a: nat, c: Checker)
    requires Inside(mem, base, c) && MapsWhole(c.claims) && Validate(mem, base, t, a, c).err == NoError
    ensures MapsWhole(Validate(mem, base, t, a, c).checker.claims)
    decreases t, 2, 0
  {
    hide U32, StorageSize, Validate, ValidateSlot, ValidateElements, ValidateHandles;
    if a == 0 {
      NullAccepted(mem, base, t, c);
    } else {
      AcceptedHeader(mem, base, t, a, c);
      var n, d := U32(mem, a - base + 4), Claiming(mem, base, t, a, c);
      if t.MapOf? {
        AcceptedSlot(mem, base, t.key, false, a + 8, d);
        AcceptedSlot(mem, base, t.value, false, a + 16, ValidateSlot(mem, base, t.key, false, a + 8, d).checker);
      } else if t.HandleArray? {
        HandlesClaimNothing(mem, base, t.nullable, a, n, 0, d);
      } else if t.RefArray? {
        AcceptedElements(mem, base, t, a, n, 0, d);
      }
    }
  }

  lemma NullAccepted(mem: seq<byte>, base: nat, t: Type, c: Checker)
    requires Inside(mem, base, c)
    ensures Validate(mem, base, t, 0, c) == Outcome(NoError, c)
  {
  }

  lemma {:induction false} AcceptedSlot(mem: seq<byte>, base: nat, t: Type, nullable: bool, s: nat, c: Checker)
    requires Inside(mem, base, c) && base <= s && s + 8 <= base + |mem| && MapsWhole(c.claims)
    requires ValidateSlot(mem, base, t, nullable, s, c).err == NoError
    ensures MapsWhole(ValidateSlot(mem, base, t, nullable, s, c).checker.claims)
    decreases t, 3, 0
  {
    hide Validate, MapsWhole;
    AcceptedMaps(mem, base, t, Target(mem, base, s), Visit(c, PointerAt(s)));
  }

  lemma {:induction false} AcceptedElements(mem: seq<byte>, base: nat, t: Type, a: nat, n: nat, i: nat, c: Checker)
    requires Inside(mem, base, c) && t.RefArray? && i <= n && base <= a && a + 8 + 8 * n <= base + |mem|
    requires MapsWhole(c.claims) && ValidateElements(mem, base, t, a, n, i, c).err == NoError
    ensures MapsWhole(ValidateElements(mem, base, t, a, n, i, c).checker.claims)
    decreases t, 1, n - i
  {
    hide ValidateSlot, MapsWhole;
    if i < n {
      AcceptedSlot(mem, base, t.elem, t.nullable, a + 8 + 8 * i, c);
      AcceptedElements(mem, base, t, a, n, i + 1, ValidateSlot(mem, base, t.elem, t.nullable, a + 8 + 8 * i, c).checker);
    }
  }

  lemma {:induction false} HandlesClaimNothing(mem: seq<byte>, base: nat, nullable: bool, a: nat, n: nat, i: nat, c: Checker)
    requires Inside(mem, base, c) && i <= n && base <= a && a + 8 + 4 * n <= base + |mem|
    ensures ValidateHandles(mem, base, nullable, a, n, i, c).checker.claims == c.claims
    decreases n - i
  {
    hide U32;
    if i < n {
      var value, d := U32(mem, a - base + 8 + 4 * i), Visit(c, HandleAt(a + 8 + 4 * i));
      if CanClaimHandle(d, value) {
        HandlesClaimNothing(mem, base, nullable, a, n, i + 1, ClaimHandle(d, value));
      }
    }
  }

  /** In an accepted message a claimed range holds its object, header and elements,
      if and only if the object is not a bool array whose count wrapped around. */
  lemma ClaimsHoldElements(mem: seq<byte>, base: nat, handles: nat, t: Type, a: nat)
    requires 0 < base && base + |mem| < ADDRESSES
    requires Validate(mem, base, t, a, Fresh(mem, base, handles)).err == NoError
    ensures var claims := Validate(mem, base, t, a, Fresh(mem, base, handles)).checker.claims;
      forall i | 0 <= i < |claims| :: HoldsElements(claims[i]) <==> !Wrapped(claims[i])
  {
    hide Validate, Claimed, Sized, HoldsElements, Wrapped;
    var c := Fresh(mem, base, handles);
    Sound(mem, base, t, a, c);
    AcceptedMaps(mem, base, t, a, c);
    var claims := Validate(mem, base, t, a, c).checker.claims;
    forall i | 0 <= i < |claims| ensures HoldsElements(claims[i]) <==> !Wrapped(claims[i]) {
      SizedHolds(claims[i]);
    }
  }

  /** Such a message is accepted: the header of an array of 2^32 - 1 bools, and
      nothing else. */
  lemma WrappedCountIsAccepted()
    ensures var mem: seq<byte> := [8, 0, 0, 0, 255, 255, 255, 255];
      var o := Validate(mem, 8, BoolArray(0), 8, Fresh(mem, 8, 0));
      o.err == NoError && o.checker.claims == [Claim(8, 16, BoolArray(0), MAX_UINT32)] && !HoldsElements(o.checker.claims[0])
  {
    var mem: seq<byte> := [8, 0, 0, 0, 255, 255, 255, 255];
    assert mem[0..4] == [8, 0, 0, 0] && mem[4..8] == [255, 255, 255, 255];
    FourBytes(mem[0..4]);
    FourBytes(mem[4..8]);
    assert U32(mem, 0) == 8 && U32(mem, 4) == MAX_UINT32;
  }

  lemma FourBytes(s: seq<byte>)
    requires |s| == 4
    ensures Value(s) == s[0] as int + 0x100 * (s[1] as int) + 0x1_0000 * (s[2] as int) + 0x100_0000 * (s[3] as int)
  {
    assert Value(s) == s[0] + 256 * Value(s[1..]);
    assert Value(s[1..]) == s[1] + 256 * Value(s[1..][1..]);
    assert s[1..][1..] == s[2..] && Value(s[2..]) == s[2] + 256 * Value(s[2..][1..]);
    assert s[2..][1..] == s[3..] && Value(s[3..]) == s[3] + 256 * Value(s[3..][1..]);
    assert s[3..][1..] == [];
  }
}
