/**
  What decoding goes through in a message that the validator accepted: the
  pointer slots and handle words that it rewrites, and the handle indices that it
  takes, whatever the bytes are.
*/
module CppVisit {
  import opened Wire
  import opened CppValues
  import opened CppImage
  import opened CppValidate
  import opened CppSound

  datatype Trace = Trace(pieces: seq<Piece>, indices: seq<nat>)
  {
    function Then(more: Trace): Trace { Trace(pieces + more.pieces, indices + more.indices) }
  }

  const NOTHING := Trace([], [])

  /** The whole range is in memory. */
  predicate InMemory(mem: seq<byte>, base: nat, a: nat, n: nat) { base <= a && a + n <= base + |mem| }

  /** Decoding of the object at address `a`: a map's two pointers, an array's
      elements, as many as its header says. */
  function Decoded(mem: seq<byte>, base: nat, t: Type, a: nat): Trace
    decreases t, 2, 0
  {
    if a == 0 || !InMemory(mem, base, a, 8) then NOTHING
    else
      var n := U32(mem, a - base + 4);
      match t
      case HandleArray(_, _) => if InMemory(mem, base, a, 8 + 4 * n) then DecodedHandles(mem, base, a, n, 0) else NOTHING
      case RefArray(_, _, _) => if InMemory(mem, base, a, 8 + 8 * n) then DecodedElements(mem, base, t, a, n, 0) else NOTHING
      case MapOf(key, value) =>
        if InMemory(mem, base, a, 24) then
          DecodedSlot(mem, base, key, a + 8).Then(DecodedSlot(mem, base, value, a + 16))
        else NOTHING
      case _ => NOTHING
  }

  function DecodedSlot(mem: seq<byte>, base: nat, t: Type, s: nat): Trace
    requires InMemory(mem, base, s, 8)
    decreases t, 3, 0
  {
    Trace([PointerAt(s)], []).Then(Decoded(mem, base, t, Target(mem, base, s)))
  }

  function DecodedElements(mem: seq<byte>, base: nat, t: Type, a: nat, n: nat, i: nat): Trace
    requires t.RefArray? && i <= n && InMemory(mem, base, a, 8 + 8 * n)
    decreases t, 1, n - i
  {
    if i == n then NOTHING
    else DecodedSlot(mem, base, t.elem, a + 8 + 8 * i).Then(DecodedElements(mem, base, t, a, n, i + 1))
  }

  function DecodedHandles(mem: seq<byte>, base: nat, a: nat, n: nat, i: nat): Trace
    requires i <= n && InMemory(mem, base, a, 8 + 4 * n)
    decreases n - i
  {
    if i == n then NOTHING else DecodedHandle(mem, base, a + 8 + 4 * i).Then(DecodedHandles(mem, base, a, n, i + 1))
  }

  function DecodedHandle(mem: seq<byte>, base: nat, w: nat): Trace
    requires InMemory(mem, base, w, 4)
  {
    var value := U32(mem, w - base);
    Trace([HandleAt(w)], if value == INVALID_INDEX then [] else [value])
  }

  // ---- Validation goes through the same ----

  /** The checker has logged a trace on top of what it had. */
  ghost predicate Logged(c: Checker, d: Checker, trace: Trace) {
    d.visited == c.visited + trace.pieces && d.taken == c.taken + trace.indices
  }

  lemma LoggedThen(c: Checker, d: Checker, e: Checker, x: Trace, y: Trace)
    requires Logged(c, d, x) && Logged(d, e, y)
    ensures Logged(c, e, x.Then(y))
  {
    assert c.visited + (x.pieces + y.pieces) == c.visited + x.pieces + y.pieces;
    assert c.taken + (x.indices + y.indices) == c.taken + x.indices + y.indices;
  }

  /** Validation follows exactly the pointers that decoding rewrites, and claims
      exactly the handle indices that it takes, in the same order. */
  lemma {:induction false} VisitsSame(mem: seq<byte>, base: nat, t: Type, a: nat, c: Checker)
    requires Inside(mem, base, c) && Validate(mem, base, t, a, c).err == NoError
    ensures Logged(c, Validate(mem, base, t, a, c).checker, Decoded(mem, base, t, a))
    decreases t, 2, 0
  {
    hide U32, StorageSize, Validate, ValidateElements, ValidateHandles, ValidateMap, DecodedElements, DecodedHandles, DecodedSlot;
    if a == 0 {
      NullAccepted(mem, base, t, c);
    } else {
      AcceptedHeader(mem, base, t, a, c);
      var n, d := U32(mem, a - base + 4), Claiming(mem, base, t, a, c);
      if t.MapOf? {
        MapSame(mem, base, t, a, d);
      } else if t.HandleArray? {
        HandlesSame(mem, base, t.nullable, a, n, 0, d);
      } else if t.RefArray? {
        ElementsSame(mem, base, t, a, n, 0, d);
      }
    }
  }

  lemma {:induction false} SlotSame(mem: seq<byte>, base: nat, t: Type, nullable: bool, s: nat, c: Checker)
    requires Inside(mem, base, c) && InMemory(mem, base, s, 8) && ValidateSlot(mem, base, t, nullable, s, c).err == NoError
    ensures Logged(c, ValidateSlot(mem, base, t, nullable, s, c).checker, DecodedSlot(mem, base, t, s))
    decreases t, 3, 0
  {
    hide U64, Validate, Decoded;
    var d := Visit(c, PointerAt(s));
    VisitsSame(mem, base, t, Target(mem, base, s), d);
    LoggedThen(c, d, Validate(mem, base, t, Target(mem, base, s), d).checker, Trace([PointerAt(s)], []), Decoded(mem, base, t, Target(mem, base, s)));
  }

  lemma {:induction false} MapSame(mem: seq<byte>, base: nat, t: Type, a: nat, c: Checker)
    requires Inside(mem, base, c) && t.MapOf? && InMemory(mem, base, a, 24)
    requires ValidateMap(mem, base, t, a, 24, 0, c).err == NoError
    ensures Logged(c, ValidateMap(mem, base, t, a, 24, 0, c).checker,
                   DecodedSlot(mem, base, t.key, a + 8).Then(DecodedSlot(mem, base, t.value, a + 16)))
    decreases t, 1, 0
  {
    hide U32, ValidateSlot, DecodedSlot, Logged;
    var keys := ValidateSlot(mem, base, t.key, false, a + 8, c);
    var values := ValidateSlot(mem, base, t.value, false, a + 16, keys.checker);
    SlotSame(mem, base, t.key, false, a + 8, c);
    SlotSame(mem, base, t.value, false, a + 16, keys.checker);
    LoggedThen(c, keys.checker, values.checker, DecodedSlot(mem, base, t.key, a + 8), DecodedSlot(mem, base, t.value, a + 16));
  }

  lemma {:induction false} ElementsSame(mem: seq<byte>, base: nat, t: Type, a: nat, n: nat, i: nat, c: Checker)
    requires Inside(mem, base, c) && t.RefArray? && i <= n && InMemory(mem, base, a, 8 + 8 * n)
    requires ValidateElements(mem, base, t, a, n, i, c).err == NoError
    ensures Logged(c, ValidateElements(mem, base, t, a, n, i, c).checker, DecodedElements(mem, base, t, a, n, i))
    decreases t, 1, n - i
  {
    hide ValidateSlot, DecodedSlot;
    if i < n {
      var o := ValidateSlot(mem, base, t.elem, t.nullable, a + 8 + 8 * i, c);
      SlotSame(mem, base, t.elem, t.nullable, a + 8 + 8 * i, c);
      ElementsSame(mem, base, t, a, n, i + 1, o.checker);
      LoggedThen(c, o.checker, ValidateElements(mem, base, t, a, n, i + 1, o.checker).checker,
                 DecodedSlot(mem, base, t.elem, a + 8 + 8 * i), DecodedElements(mem, base, t, a, n, i + 1));
    }
  }

  /** The checker behind one handle. */
  function PastHandle(mem: seq<byte>, base: nat, w: nat, c: Checker): Checker
    requires InMemory(mem, base, w, 4)
  {
    ClaimHandle(Visit(c, HandleAt(w)), U32(mem, w - base))
  }

  lemma {:induction false} HandlesSame(mem: seq<byte>, base: nat, nullable: bool, a: nat, n: nat, i: nat, c: Checker)
    requires Inside(mem, base, c) && i <= n && InMemory(mem, base, a, 8 + 4 * n)
    requires ValidateHandles(mem, base, nullable, a, n, i, c).err == NoError
    ensures Logged(c, ValidateHandles(mem, base, nullable, a, n, i, c).checker, DecodedHandles(mem, base, a, n, i))
    decreases n - i
  {
    hide U32;
    if i < n {
      var w := a + 8 + 4 * i;
      var d := PastHandle(mem, base, w, c);
      HandlesSame(mem, base, nullable, a, n, i + 1, d);
      LoggedThen(c, d, ValidateHandles(mem, base, nullable, a, n, i + 1, d).checker,
                 DecodedHandle(mem, base, w), DecodedHandles(mem, base, a, n, i + 1));
    }
  }

  // ---- No piece twice ----

  /** The pieces do not overlap. */
  ghost predicate Apart(xs: seq<Piece>) {
    forall i, j | 0 <= i < j < |xs| :: Clear(xs[i], xs[j])
  }

  predicate Clear(x: Piece, y: Piece) { x.End() <= y.at || y.End() <= x.at }

  /** Every piece lies in [own, ownEnd) or in [lo, hi). */
  ghost predicate Within(xs: seq<Piece>, own: nat, ownEnd: nat, lo: nat, hi: nat) {
    forall i | 0 <= i < |xs| :: (own <= xs[i].at && xs[i].End() <= ownEnd) || (lo <= xs[i].at && xs[i].End() <= hi)
  }

  lemma ApartThen(xs: seq<Piece>, ys: seq<Piece>, own: nat, mid: nat, ownEnd: nat, lo: nat, next: nat, hi: nat)
    requires Apart(xs) && Apart(ys) && own <= mid <= ownEnd <= lo <= next <= hi
    requires Within(xs, own, mid, lo, next) && Within(ys, mid, ownEnd, next, hi)
    ensures Apart(xs + ys) && Within(xs + ys, own, ownEnd, lo, hi)
  {
    forall i, j | 0 <= i < j < |xs + ys| ensures Clear((xs + ys)[i], (xs + ys)[j]) {
      if i < |xs| <= j {
        assert (xs + ys)[i] == xs[i] && (xs + ys)[j] == ys[j - |xs|];
      }
    }
  }

  /** Every index lies in [hb, he). */
  ghost predicate Indices(xs: seq<nat>, hb: nat, he: nat) {
    forall i | 0 <= i < |xs| :: hb <= xs[i] < he
  }

  lemma OnePiece(x: Piece, own: nat, ownEnd: nat, lo: nat, hi: nat)
    requires own <= x.at && x.End() <= ownEnd
    ensures Apart([x]) && Within([x], own, ownEnd, lo, hi)
  {
  }

  lemma NoPieces(own: nat, ownEnd: nat, lo: nat, hi: nat)
    ensures Apart([]) && Within([], own, ownEnd, lo, hi)
  {
  }

  /** The pieces of an accepted object lie apart, in the memory that its
      validation used up. */
  lemma {:induction false} Spread(mem: seq<byte>, base: nat, t: Type, a: nat, c: Checker, own: nat)
    requires Inside(mem, base, c) && Validate(mem, base, t, a, c).err == NoError
    ensures Apart(Decoded(mem, base, t, a).pieces)
    ensures Within(Decoded(mem, base, t, a).pieces, own, own, c.dataBegin, Validate(mem, base, t, a, c).checker.dataBegin)
    decreases t, 2, 0
  {
    hide U32, StorageSize, Validate, ValidateElements, ValidateHandles, ValidateMap, DecodedElements, DecodedHandles, DecodedSlot, Apart, Within;
    var end := Validate(mem, base, t, a, c).checker.dataBegin;
    NoPieces(own, own, c.dataBegin, end);
    if a != 0 {
      AcceptedHeader(mem, base, t, a, c);
      var bytes, n, d := U32(mem, a - base), U32(mem, a - base + 4), Claiming(mem, base, t, a, c);
      if t.MapOf? {
        SpreadMap(mem, base, t, a, d);
        Wider(Decoded(mem, base, t, a).pieces, a + 8, a + 24, own, c.dataBegin, a + bytes, end);
      } else if t.HandleArray? {
        SpreadHandles(mem, base, t.nullable, a, n, 0, d);
        Wider(Decoded(mem, base, t, a).pieces, a + 8, a + 8 + 4 * n, own, c.dataBegin, a + bytes, end);
      } else if t.RefArray? {
        SpreadElements(mem, base, t, a, n, 0, d);
        Wider(Decoded(mem, base, t, a).pieces, a + 8, a + 8 + 8 * n, own, c.dataBegin, a + bytes, end);
      }
    }
  }

  lemma Wider(xs: seq<Piece>, from: nat, to: nat, own: nat, lo: nat, next: nat, hi: nat)
    requires Within(xs, from, to, next, hi) && lo <= from && to <= hi && lo <= next
    ensures Within(xs, own, own, lo, hi)
  {
  }

  lemma {:induction false} SpreadHandles(mem: seq<byte>, base: nat, nullable: bool, a: nat, n: nat, i: nat, c: Checker)
    requires Inside(mem, base, c) && i <= n && InMemory(mem, base, a, 8 + 4 * n) && a + 8 + 4 * n <= c.dataBegin
    requires ValidateHandles(mem, base, nullable, a, n, i, c).err == NoError
    ensures var xs := DecodedHandles(mem, base, a, n, i).pieces;
      Apart(xs) && Within(xs, a + 8 + 4 * i, a + 8 + 4 * n, c.dataBegin, ValidateHandles(mem, base, nullable, a, n, i, c).checker.dataBegin)
    decreases n - i
  {
    hide U32, Apart, Within;
    NoPieces(a + 8 + 4 * i, a + 8 + 4 * n, c.dataBegin, c.dataBegin);
    if i < n {
      var w := a + 8 + 4 * i;
      var d := PastHandle(mem, base, w, c);
      SpreadHandles(mem, base, nullable, a, n, i + 1, d);
      OnePiece(HandleAt(w), w, w + 4, c.dataBegin, c.dataBegin);
      ApartThen([HandleAt(w)], DecodedHandles(mem, base, a, n, i + 1).pieces, w, w + 4, a + 8 + 4 * n, c.dataBegin, c.dataBegin,
                ValidateHandles(mem, base, nullable, a, n, i + 1, d).checker.dataBegin);
    }
  }

  lemma {:induction false} SpreadSlot(mem: seq<byte>, base: nat, t: Type, nullable: bool, s: nat, c: Checker)
    requires Inside(mem, base, c) && InMemory(mem, base, s, 8) && s + 8 <= c.dataBegin
    requires ValidateSlot(mem, base, t, nullable, s, c).err == NoError
    ensures Apart(DecodedSlot(mem, base, t, s).pieces)
    ensures Within(DecodedSlot(mem, base, t, s).pieces, s, s + 8, c.dataBegin, ValidateSlot(mem, base, t, nullable, s, c).checker.dataBegin)
    decreases t, 3, 0
  {
    hide U64, Validate, Decoded;
    var d, b := Visit(c, PointerAt(s)), c.dataBegin;
    var o := Validate(mem, base, t, Target(mem, base, s), d);
    Spread(mem, base, t, Target(mem, base, s), d, s + 8);
    ApartThen([PointerAt(s)], Decoded(mem, base, t, Target(mem, base, s)).pieces, s, s + 8, s + 8, b, b, o.checker.dataBegin);
  }

  lemma {:induction false} SpreadMap(mem: seq<byte>, base: nat, t: Type, a: nat, c: Checker)
    requires Inside(mem, base, c) && t.MapOf? && InMemory(mem, base, a, 24) && a + 24 <= c.dataBegin
    requires ValidateMap(mem, base, t, a, 24, 0, c).err == NoError
    ensures var xs := DecodedSlot(mem, base, t.key, a + 8).Then(DecodedSlot(mem, base, t.value, a + 16)).pieces;
      Apart(xs) && Within(xs, a + 8, a + 24, c.dataBegin, ValidateMap(mem, base, t, a, 24, 0, c).checker.dataBegin)
    decreases t, 1, 0
  {
    hide U32, ValidateSlot, DecodedSlot, Apart, Within;
    var keys := ValidateSlot(mem, base, t.key, false, a + 8, c);
    var values := ValidateSlot(mem, base, t.value, false, a + 16, keys.checker);
    SpreadSlot(mem, base, t.key, false, a + 8, c);
    SpreadSlot(mem, base, t.value, false, a + 16, keys.checker);
    ApartThen(DecodedSlot(mem, base, t.key, a + 8).pieces, DecodedSlot(mem, base, t.value, a + 16).pieces,
              a + 8, a + 16, a + 24, c.dataBegin, keys.checker.dataBegin, values.checker.dataBegin);
  }

  lemma {:induction false} SpreadElements(mem: seq<byte>, base: nat, t: Type, a: nat, n: nat, i: nat, c: Checker)
    requires Inside(mem, base, c) && t.RefArray? && i <= n && InMemory(mem, base, a, 8 + 8 * n) && a + 8 + 8 * n <= c.dataBegin
    requires ValidateElements(mem, base, t, a, n, i, c).err == NoError
    ensures var xs := DecodedElements(mem, base, t, a, n, i).pieces;
      && Apart(xs)
      && Within(xs, a + 8 + 8 * i, a + 8 + 8 * n, c.dataBegin, ValidateElements(mem, base, t, a, n, i, c).checker.dataBegin)
    decreases t, 1, n - i
  {
    hide ValidateSlot, DecodedSlot, Apart, Within;
    if i < n {
      var s := a + 8 + 8 * i;
      var o := ValidateSlot(mem, base, t.elem, t.nullable, s, c);
      SpreadSlot(mem, base, t.elem, t.nullable, s, c);
      SpreadElements(mem, base, t, a, n, i + 1, o.checker);
      ApartThen(DecodedSlot(mem, base, t.elem, s).pieces, DecodedElements(mem, base, t, a, n, i + 1).pieces, s, s + 8, a + 8 + 8 * n,
                c.dataBegin, o.checker.dataBegin, ValidateElements(mem, base, t, a, n, i + 1, o.checker).checker.dataBegin);
    } else {
      NoPieces(a + 8 + 8 * i, a + 8 + 8 * n, c.dataBegin, c.dataBegin);
    }
  }

  /** The handle indices of an accepted object are those that its validation used
      up. */
  lemma {:induction false} Takes(mem: seq<byte>, base: nat, t: Type, a: nat, c: Checker)
    requires Inside(mem, base, c) && Validate(mem, base, t, a, c).err == NoError
    ensures Indices(Decoded(mem, base, t, a).indices, c.handleBegin, Validate(mem, base, t, a, c).checker.handleBegin)
    decreases t, 2, 0
  {
    hide U32, StorageSize, Validate, ValidateElements, ValidateHandles, ValidateSlot, DecodedElements, DecodedHandles, DecodedSlot, Indices;
    NoIndices(c.handleBegin, Validate(mem, base, t, a, c).checker.handleBegin);
    if a != 0 {
      AcceptedHeader(mem, base, t, a, c);
      var n, d := U32(mem, a - base + 4), Claiming(mem, base, t, a, c);
      if t.MapOf? {
        var keys := ValidateSlot(mem, base, t.key, false, a + 8, d);
        TakesSlot(mem, base, t.key, false, a + 8, d);
        TakesSlot(mem, base, t.value, false, a + 16, keys.checker);
        IndicesThen(DecodedSlot(mem, base, t.key, a + 8), DecodedSlot(mem, base, t.value, a + 16),
                    c.handleBegin, keys.checker.handleBegin, Validate(mem, base, t, a, c).checker.handleBegin);
      } else if t.HandleArray? {
        TakesHandles(mem, base, t.nullable, a, n, 0, d);
      } else if t.RefArray? {
        TakesElements(mem, base, t, a, n, 0, d);
      }
    }
  }

  lemma NoIndices(hb: nat, he: nat)
    ensures Indices([], hb, he)
  {
  }

  lemma IndicesThen(x: Trace, y: Trace, hb: nat, mid: nat, he: nat)
    requires hb <= mid <= he && Indices(x.indices, hb, mid) && Indices(y.indices, mid, he)
    ensures Indices(x.Then(y).indices, hb, he)
  {
  }

  lemma {:induction false} TakesSlot(mem: seq<byte>, base: nat, t: Type, nullable: bool, s: nat, c: Checker)
    requires Inside(mem, base, c) && InMemory(mem, base, s, 8) && ValidateSlot(mem, base, t, nullable, s, c).err == NoError
    ensures Indices(DecodedSlot(mem, base, t, s).indices, c.handleBegin, ValidateSlot(mem, base, t, nullable, s, c).checker.handleBegin)
    decreases t, 3, 0
  {
    hide U64, Validate, Decoded;
    Takes(mem, base, t, Target(mem, base, s), Visit(c, PointerAt(s)));
  }

  lemma {:induction false} TakesElements(mem: seq<byte>, base: nat, t: Type, a: nat, n: nat, i: nat, c: Checker)
    requires Inside(mem, base, c) && t.RefArray? && i <= n && InMemory(mem, base, a, 8 + 8 * n)
    requires ValidateElements(mem, base, t, a, n, i, c).err == NoError
    ensures Indices(DecodedElements(mem, base, t, a, n, i).indices, c.handleBegin,
                    ValidateElements(mem, base, t, a, n, i, c).checker.handleBegin)
    decreases t, 1, n - i
  {
    hide ValidateSlot, DecodedSlot, Indices;
    NoIndices(c.handleBegin, c.handleBegin);
    if i < n {
      var s := a + 8 + 8 * i;
      var o := ValidateSlot(mem, base, t.elem, t.nullable, s, c);
      TakesSlot(mem, base, t.elem, t.nullable, s, c);
      TakesElements(mem, base, t, a, n, i + 1, o.checker);
      IndicesThen(DecodedSlot(mem, base, t.elem, s), DecodedElements(mem, base, t, a, n, i + 1),
                  c.handleBegin, o.checker.handleBegin, ValidateElements(mem, base, t, a, n, i + 1, o.checker).checker.handleBegin);
    }
  }

  lemma {:induction false} TakesHandles(mem: seq<byte>, base: nat, nullable: bool, a: nat, n: nat, i: nat, c: Checker)
    requires Inside(mem, base, c) && i <= n && InMemory(mem, base, a, 8 + 4 * n)
    requires ValidateHandles(mem, base, nullable, a, n, i, c).err == NoError
    ensures Indices(DecodedHandles(mem, base, a, n, i).indices, c.handleBegin,
                    ValidateHandles(mem, base, nullable, a, n, i, c).checker.handleBegin)
    decreases n - i
  {
    hide U32;
    if i < n {
      var w := a + 8 + 4 * i;
      var d := PastHandle(mem, base, w, c);
      TakesHandles(mem, base, nullable, a, n, i + 1, d);
      IndicesThen(DecodedHandle(mem, base, w), DecodedHandles(mem, base, a, n, i + 1),
                  c.handleBegin, d.handleBegin, ValidateHandles(mem, base, nullable, a, n, i + 1, d).checker.handleBegin);
    }
  }

  /** What decoding goes through in an accepted message, whatever its bytes are:
      every slot and every handle word lies in a claimed object, none overlaps
      another, and the handle indices increase strictly and are those of handles
      that came with the message. */
  lemma DecodingIsSafe(mem: seq<byte>, base: nat, handles: nat, t: Type, a: nat)
    requires 0 < base && base + |mem| < ADDRESSES
    requires Validate(mem, base, t, a, Fresh(mem, base, handles)).err == NoError
    ensures var trace := Decoded(mem, base, t, a);
      var claims := Validate(mem, base, t, a, Fresh(mem, base, handles)).checker.claims;
      && (forall i | 0 <= i < |trace.pieces| :: Claimed(claims, trace.pieces[i]))
      && Apart(trace.pieces)
      && (forall i | 0 <= i < |trace.indices| :: trace.indices[i] < handles)
      && (forall i, j | 0 <= i < j < |trace.indices| :: trace.indices[i] < trace.indices[j])
  {
    hide Validate, Claimed, Sized, Decoded, Apart, Within;
    var c := Fresh(mem, base, handles);
    ValidatorSound(mem, base, handles, t, a);
    VisitsSame(mem, base, t, a, c);
    Spread(mem, base, t, a, c, 0);
    var trace, d := Decoded(mem, base, t, a), Validate(mem, base, t, a, c).checker;
    assert d.visited == [] + trace.pieces == trace.pieces && d.taken == [] + trace.indices == trace.indices;
  }

  lemma {:induction false} HandlePiece(bytes: seq<byte>, base: nat, a: nat, n: nat, k: nat, i: nat)
    requires k <= i < n && InMemory(bytes, base, a, 8 + 4 * n)
    ensures |DecodedHandles(bytes, base, a, n, k).pieces| == n - k
    ensures DecodedHandles(bytes, base, a, n, k).pieces[i - k] == HandleAt(a + 8 + 4 * i)
    decreases n - k
  {
    hide U32;
    if k < i {
      HandlePiece(bytes, base, a, n, k + 1, i);
    } else if k + 1 < n {
      HandlePiece(bytes, base, a, n, k + 1, k + 1);
    }
  }
}
