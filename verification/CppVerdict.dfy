/**
  What the validator decides, without the validator: everything that is reachable
  in a message, in order, and for each of these what makes it legal. A message is
  accepted if and only if all of it is legal, and otherwise the error is that of
  the first that is not.
*/
module CppVerdict {
  import opened Wire
  import opened CppValues
  import opened CppImage
  import opened CppValidate
  import opened CppSound
  import opened CppVisit

  /** A message at an address, with a number of handles. */
  datatype Input = Input(bytes: seq<byte>, base: nat, handles: nat)
  {
    predicate Placed() { 0 < base && base + |bytes| < ADDRESSES }

    predicate Has(a: nat, n: nat) { InMemory(bytes, base, a, n) }

    function Word32(a: nat): nat
      requires Has(a, 4)
    {
      U32(bytes, a - base)
    }
  }

  /** An object, a pointer in its slot, a handle in its word, and the two arrays of a
      map, by their addresses. */
  datatype Event = Object(t: Type, a: nat) | Pointer(nullable: bool, s: nat) | Word(nullable: bool, w: nat) | Pair(keys: nat, values: nat)

  // ---- What is reachable ----

  function Walk(m: Input, t: Type, a: nat): seq<Event>
    decreases t, 3, 0
  {
    if a == 0 then [] else [Object(t, a)] + Inner(m, t, a)
  }

  function Inner(m: Input, t: Type, a: nat): seq<Event>
    decreases t, 2, 0
  {
    if !m.Has(a, 8) then []
    else
      var n := m.Word32(a + 4);
      match t
      case HandleArray(nullable, _) => if m.Has(a, 8 + 4 * n) then WalkWords(m, nullable, a, n, 0) else []
      case RefArray(_, _, _) => if m.Has(a, 8 + 8 * n) then WalkSlots(m, t, a, n, 0) else []
      case MapOf(key, value) => if m.Has(a, 24) then WalkMap(m, t, a) else []
      case _ => []
  }

  function WalkSlot(m: Input, t: Type, nullable: bool, s: nat): seq<Event>
    requires m.Has(s, 8)
    decreases t, 4, 0
  {
    [Pointer(nullable, s)] + Walk(m, t, Target(m.bytes, m.base, s))
  }

  function WalkMap(m: Input, t: Type, a: nat): seq<Event>
    requires t.MapOf? && m.Has(a, 24)
    decreases t, 1, 0
  {
    WalkSlot(m, t.key, false, a + 8) + WalkSlot(m, t.value, false, a + 16)
    + [Pair(Target(m.bytes, m.base, a + 8), Target(m.bytes, m.base, a + 16))]
  }

  function WalkSlots(m: Input, t: Type, a: nat, n: nat, i: nat): seq<Event>
    requires t.RefArray? && i <= n && m.Has(a, 8 + 8 * n)
    decreases t, 1, n - i
  {
    if i == n then [] else WalkSlot(m, t.elem, t.nullable, a + 8 + 8 * i) + WalkSlots(m, t, a, n, i + 1)
  }

  function WalkWords(m: Input, nullable: bool, a: nat, n: nat, i: nat): seq<Event>
    requires i <= n && m.Has(a, 8 + 4 * n)
    decreases n - i
  {
    if i == n then [] else [Word(nullable, a + 8 + 4 * i)] + WalkWords(m, nullable, a, n, i + 1)
  }

  // ---- What is legal ----

  /** Where an object ends by its own account. */
  function End(m: Input, x: Event): nat
    requires x.Object?
  {
    if m.Has(x.a, 8) then x.a + m.Word32(x.a) else x.a
  }

  /** The index in a handle's word, None for no handle. */
  function Index(m: Input, x: Event): Option<nat>
    requires x.Word?
  {
    if !m.Has(x.w, 4) || m.Word32(x.w) == INVALID_INDEX then None else Some(m.Word32(x.w))
  }

  /** No earlier object reaches behind address `a`. */
  ghost predicate Free(m: Input, xs: seq<Event>, i: nat, a: nat)
    requires i <= |xs|
  {
    forall j | 0 <= j < i && xs[j].Object? :: End(m, xs[j]) <= a
  }

  /** No earlier handle has this index or a greater one. */
  ghost predicate Unused(m: Input, xs: seq<Event>, i: nat, index: nat)
    requires i <= |xs|
  {
    forall j | 0 <= j < i && xs[j].Word? && Index(m, xs[j]).Some? :: Index(m, xs[j]).value < index
  }

  /** Handle indices have to be below 2^31. */
  function Limit(m: Input): nat { if m.handles < 0x8000_0000 then m.handles else 0 }

  /** The number of bytes, as far as 32 bits can tell, and of elements fit each
      other and the type. */
  predicate HeaderFits(t: Type, bytes: nat, n: nat) {
    match t
    case PodArray(size, expected) => 8 + Times(size, n) <= bytes && 8 + Times(size, n) <= MAX_UINT32 && (expected == 0 || n == expected)
    case BoolArray(expected) => 8 + (n + 7) % 0x1_0000_0000 / 8 <= bytes && (expected == 0 || n == expected)
    case HandleArray(_, expected) => 8 + 4 * n <= bytes && 8 + 4 * n <= MAX_UINT32 && (expected == 0 || n == expected)
    case RefArray(_, _, expected) => 8 + 8 * n <= bytes && 8 + 8 * n <= MAX_UINT32 && (expected == 0 || n == expected)
    case MapOf(_, _) => bytes == 24 && n == 0
  }

  ghost predicate Legal(m: Input, xs: seq<Event>, i: nat)
    requires i < |xs|
  {
    match xs[i]
    case Object(t, a) =>
      && a % 8 == 0 && m.Has(a, 8) && m.Has(a, m.Word32(a)) && Free(m, xs, i, a)
      && HeaderFits(t, m.Word32(a), m.Word32(a + 4))
    case Pointer(nullable, s) =>
      m.Has(s, 8) && var offset := U64(m.bytes, s - m.base);
      offset <= MAX_UINT32 && s + offset < ADDRESSES && (offset == 0 ==> nullable)
    case Word(nullable, w) =>
      var index := Index(m, xs[i]);
      if index.None? then nullable else index.value < Limit(m) && Unused(m, xs, i, index.value)
    case Pair(keys, values) => m.Has(keys, 8) && m.Has(values, 8) && m.Word32(keys + 4) == m.Word32(values + 4)
  }

  /** What is wrong with an illegal event. */
  ghost function Fault(m: Input, xs: seq<Event>, i: nat): ValidationError
    requires i < |xs|
  {
    match xs[i]
    case Object(t, a) =>
      if a % 8 != 0 then MisalignedObject
      else if !m.Has(a, 8) || !Free(m, xs, i, a) then IllegalMemoryRange
      else if t.MapOf? then
        (if m.Word32(a) >= 8 && !m.Has(a, m.Word32(a)) then IllegalMemoryRange else UnexpectedStructHeader)
      else if HeaderFits(t, m.Word32(a), m.Word32(a + 4)) then IllegalMemoryRange else UnexpectedArrayHeader
    case Pointer(nullable, s) =>
      if m.Has(s, 8) && U64(m.bytes, s - m.base) == 0 then UnexpectedNullPointer else IllegalPointer
    case Word(_, _) => if Index(m, xs[i]).None? then UnexpectedInvalidHandle else IllegalHandle
    case Pair(_, _) => DifferentSizedArraysInMap
  }

  ghost predicate AllLegal(m: Input, xs: seq<Event>) {
    forall i | 0 <= i < |xs| :: Legal(m, xs, i)
  }

  ghost predicate FirstFault(m: Input, xs: seq<Event>, i: int) {
    0 <= i < |xs| && !Legal(m, xs, i) && forall j | 0 <= j < i :: Legal(m, xs, j)
  }

  /** Nothing illegal and no error, or the error of the first that is illegal. */
  ghost predicate Decided(m: Input, xs: seq<Event>, err: ValidationError) {
    if err == NoError then AllLegal(m, xs) else exists i :: FirstFault(m, xs, i) && err == Fault(m, xs, i)
  }

  // ---- Only what comes before matters ----

  lemma SamePrefix(m: Input, xs: seq<Event>, ys: seq<Event>, i: nat)
    requires i < |xs| && xs <= ys
    ensures Legal(m, ys, i) == Legal(m, xs, i) && Fault(m, ys, i) == Fault(m, xs, i)
  {
    hide HeaderFits, U32, U64, Index, End;
    assert forall j | 0 <= j < |xs| :: ys[j] == xs[j];
  }

  lemma DecidedMore(m: Input, xs: seq<Event>, ys: seq<Event>, err: ValidationError)
    requires Decided(m, xs, err) && err != NoError && xs <= ys
    ensures Decided(m, ys, err)
  {
    hide Legal, Fault;
    var i :| FirstFault(m, xs, i) && err == Fault(m, xs, i);
    forall j | 0 <= j < |xs| ensures Legal(m, ys, j) == Legal(m, xs, j) && Fault(m, ys, j) == Fault(m, xs, j) {
      SamePrefix(m, xs, ys, j);
    }
    assert FirstFault(m, ys, i);
  }

  /** One more event decides, when all before are legal. */
  lemma DecidedNext(m: Input, xs: seq<Event>, x: Event)
    requires AllLegal(m, xs)
    ensures var ys := xs + [x];
      if Legal(m, ys, |xs|) then AllLegal(m, ys) else FirstFault(m, ys, |xs|)
  {
    hide Legal;
    var ys := xs + [x];
    forall j | 0 <= j < |xs| ensures Legal(m, ys, j) {
      SamePrefix(m, xs, ys, j);
    }
  }

  // ---- What the checker knows ----

  /** The memory and the handle indices that are left begin where the events so far
      end. */
  ghost predicate Tracks(m: Input, xs: seq<Event>, c: Checker) {
    && Inside(m.bytes, m.base, c) && c.dataEnd == m.base + |m.bytes| && c.handleEnd == Limit(m)
    && Free(m, xs, |xs|, c.dataBegin) && (c.dataBegin == m.base || exists j :: EndsAt(m, xs, j, c.dataBegin))
    && Unused(m, xs, |xs|, c.handleBegin) && (c.handleBegin == 0 || exists j :: LastIndex(m, xs, j, c.handleBegin))
  }

  ghost predicate EndsAt(m: Input, xs: seq<Event>, j: int, a: int) { 0 <= j < |xs| && xs[j].Object? && End(m, xs[j]) == a }

  ghost predicate LastIndex(m: Input, xs: seq<Event>, j: int, next: int) {
    0 <= j < |xs| && xs[j].Word? && Index(m, xs[j]).Some? && Index(m, xs[j]).value + 1 == next
  }

  lemma FreeMeans(m: Input, xs: seq<Event>, c: Checker, x: Event, a: nat)
    requires Tracks(m, xs, c) && m.base <= a
    ensures Free(m, xs + [x], |xs|, a) <==> c.dataBegin <= a
  {
    hide End, Index, Unused;
    var ys := xs + [x];
    assert forall j | 0 <= j < |xs| :: ys[j] == xs[j];
    if Free(m, ys, |xs|, a) && c.dataBegin != m.base {
      var j :| EndsAt(m, xs, j, c.dataBegin);
      assert End(m, ys[j]) <= a;
    }
  }

  lemma UnusedMeans(m: Input, xs: seq<Event>, c: Checker, x: Event, index: nat)
    requires Tracks(m, xs, c)
    ensures Unused(m, xs + [x], |xs|, index) <==> c.handleBegin <= index
  {
    hide End, Index, Free;
    var ys := xs + [x];
    assert forall j | 0 <= j < |xs| :: ys[j] == xs[j];
    if Unused(m, ys, |xs|, index) && c.handleBegin != 0 {
      var j :| LastIndex(m, xs, j, c.handleBegin);
      assert Index(m, ys[j]).value < index;
    }
  }

  lemma TracksNext(m: Input, xs: seq<Event>, c: Checker, x: Event, d: Checker)
    requires Tracks(m, xs, c) && Inside(m.bytes, m.base, d) && d.dataEnd == c.dataEnd && d.handleEnd == c.handleEnd
    requires if x.Object? then c.dataBegin <= d.dataBegin == End(m, x) else d.dataBegin == c.dataBegin
    requires if x.Word? && Index(m, x).Some? then c.handleBegin <= Index(m, x).value && d.handleBegin == Index(m, x).value + 1
             else d.handleBegin == c.handleBegin
    ensures Tracks(m, xs + [x], d)
  {
    hide End, Index;
    var ys, l := xs + [x], |xs|;
    assert ys[l] == x && forall j | 0 <= j < l :: ys[j] == xs[j];
    if x.Object? {
      assert EndsAt(m, ys, l, d.dataBegin);
    } else if d.dataBegin != m.base {
      var j :| EndsAt(m, xs, j, c.dataBegin);
      assert EndsAt(m, ys, j, d.dataBegin);
    }
    if x.Word? && Index(m, x).Some? {
      assert LastIndex(m, ys, l, d.handleBegin);
    } else if d.handleBegin != 0 {
      var j :| LastIndex(m, xs, j, c.handleBegin);
      assert LastIndex(m, ys, j, d.handleBegin);
    }
  }

  // ---- One event at a time ----

  lemma RangeMeans(m: Input, c: Checker, a: nat, bytes: nat)
    requires Inside(m.bytes, m.base, c) && c.dataEnd == m.base + |m.bytes| && 0 < bytes <= MAX_UINT32
    ensures IsValidRange(c, a, bytes) <==> m.Has(a, bytes) && c.dataBegin <= a
  {
  }

  lemma HeaderMeans(t: Type, bytes: nat, n: nat)
    requires !t.MapOf? && n <= MAX_UINT32
    ensures HeaderFits(t, bytes, n) <==> n <= MaxElements(t) && bytes >= StorageSize(t, n) && (t.expected == 0 || n == t.expected)
  {
  }

  /** The object is legal and validation goes on behind its header, or validation
      ends with what is wrong with it. */
  lemma ObjectDecided(m: Input, t: Type, a: nat, c: Checker, xs: seq<Event>)
    requires m.Placed() && Tracks(m, xs, c) && a != 0
    ensures var ys, i, o := xs + [Object(t, a)], |xs|, Validate(m.bytes, m.base, t, a, c);
      if Legal(m, ys, i) then
        var d := Claiming(m.bytes, m.base, t, a, c);
        && Tracks(m, ys, d)
        && (t.HandleArray? ==> m.Has(a, 8 + 4 * m.Word32(a + 4)) && o == ValidateHandles(m.bytes, m.base, t.nullable, a, m.Word32(a + 4), 0, d))
        && (t.RefArray? ==> m.Has(a, 8 + 8 * m.Word32(a + 4)) && o == ValidateElements(m.bytes, m.base, t, a, m.Word32(a + 4), 0, d))
        && (t.MapOf? ==> m.Has(a, 24) && o == ValidateMap(m.bytes, m.base, t, a, 24, 0, d))
        && (t.PodArray? || t.BoolArray? ==> o == Outcome(NoError, d))
      else o.err == Fault(m, ys, i) != NoError
  {
    hide U32, HeaderFits, MaxElements, StorageSize, IsValidRange, Tracks, Free, ValidateHandles, ValidateElements, ValidateSlot;
    var ys, x := xs + [Object(t, a)], Object(t, a);
    TracksInside(m, xs, c);
    RangeMeans(m, c, a, 8);
    if m.base <= a {
      FreeMeans(m, xs, c, x, a);
    }
    if m.Has(a, 8) {
      var bytes, n := m.Word32(a), m.Word32(a + 4);
      U32Bound(m.bytes, a - m.base);
      U32Bound(m.bytes, a - m.base + 4);
      if bytes > 0 {
        RangeMeans(m, c, a, bytes);
      }
      if HeaderFits(t, bytes, n) {
        HeaderLeast(t, bytes, n);
      }
      MapHeader(t, bytes, n);
      if !t.MapOf? {
        HeaderMeans(t, bytes, n);
      }
      if a % 8 == 0 && c.dataBegin <= a && m.Has(a, bytes) && HeaderFits(t, bytes, n) {
        TracksNext(m, xs, c, x, Claiming(m.bytes, m.base, t, a, c));
      }
    }
  }

  lemma TracksInside(m: Input, xs: seq<Event>, c: Checker)
    requires Tracks(m, xs, c)
    ensures Inside(m.bytes, m.base, c) && c.dataEnd == m.base + |m.bytes| && c.handleEnd == Limit(m)
  {
  }

  lemma MapHeader(t: Type, bytes: nat, n: nat)
    ensures t.MapOf? ==> (HeaderFits(t, bytes, n) <==> bytes == 24 && n == 0)
  {
  }

  lemma HeaderLeast(t: Type, bytes: nat, n: nat)
    requires HeaderFits(t, bytes, n)
    ensures 8 <= bytes && (t.HandleArray? ==> 8 + 4 * n <= bytes) && (t.RefArray? ==> 8 + 8 * n <= bytes) && (t.MapOf? ==> bytes == 24 && n == 0)
  {
  }

  lemma PointerDecided(m: Input, t: Type, nullable: bool, s: nat, c: Checker, xs: seq<Event>)
    requires m.Placed() && Tracks(m, xs, c) && m.Has(s, 8)
    ensures var ys, i, o := xs + [Pointer(nullable, s)], |xs|, ValidateSlot(m.bytes, m.base, t, nullable, s, c);
      if Legal(m, ys, i) then
        var d := Visit(c, PointerAt(s));
        Tracks(m, ys, d) && o == Validate(m.bytes, m.base, t, Target(m.bytes, m.base, s), d)
      else o.err == Fault(m, ys, i) != NoError
  {
    hide U64, Validate, Tracks;
    TracksInside(m, xs, c);
    TracksNext(m, xs, c, Pointer(nullable, s), Visit(c, PointerAt(s)));
  }

  lemma WordDecided(m: Input, nullable: bool, a: nat, n: nat, k: nat, c: Checker, xs: seq<Event>)
    requires m.Placed() && Tracks(m, xs, c) && k < n && m.Has(a, 8 + 4 * n)
    ensures var w := a + 8 + 4 * k;
      var ys, i, o := xs + [Word(nullable, w)], |xs|, ValidateHandles(m.bytes, m.base, nullable, a, n, k, c);
      if Legal(m, ys, i) then
        var d := ClaimHandle(Visit(c, HandleAt(w)), m.Word32(w));
        Tracks(m, ys, d) && o == ValidateHandles(m.bytes, m.base, nullable, a, n, k + 1, d)
      else o.err == Fault(m, ys, i) != NoError
  {
    hide U32, Tracks, Unused;
    var w, x := a + 8 + 4 * k, Word(nullable, a + 8 + 4 * k);
    TracksInside(m, xs, c);
    var value := m.Word32(w);
    UnusedMeans(m, xs, c, x, value);
    if CanClaimHandle(c, value) {
      TracksNext(m, xs, c, x, ClaimHandle(Visit(c, HandleAt(w)), value));
    }
  }

  // ---- Everything ----

  /** The outcome of validating what is behind `xs`: all of `xs + ws` decides it. */
  ghost predicate Judged(m: Input, xs: seq<Event>, ws: seq<Event>, o: Outcome) {
    Decided(m, xs + ws, o.err) && (o.err == NoError ==> Tracks(m, xs + ws, o.checker))
  }

  lemma JudgedFirst(m: Input, xs: seq<Event>, x: Event, ws: seq<Event>, o: Outcome)
    requires AllLegal(m, xs)
    requires var ys := xs + [x];
      if Legal(m, ys, |xs|) then (AllLegal(m, ys) ==> Judged(m, ys, ws, o)) else o.err == Fault(m, ys, |xs|) != NoError
    ensures Judged(m, xs, [x] + ws, o)
  {
    hide Legal, Fault, Tracks;
    var ys, all := xs + [x], xs + ([x] + ws);
    DecidedNext(m, xs, x);
    assert ys + ws == all;
    if !Legal(m, ys, |xs|) {
      DecidedMore(m, ys, all, o.err);
    }
  }

  lemma JudgedThen(m: Input, xs: seq<Event>, vs: seq<Event>, ws: seq<Event>, o: Outcome, p: Outcome)
    requires Judged(m, xs, vs, o) && (o.err != NoError ==> p == o) && (o.err == NoError ==> Judged(m, xs + vs, ws, p))
    ensures Judged(m, xs, vs + ws, p)
  {
    hide Legal, Fault, Tracks;
    assert xs + vs + ws == xs + (vs + ws);
    if o.err != NoError {
      DecidedMore(m, xs + vs, xs + (vs + ws), o.err);
    }
  }

  lemma JudgedNothing(m: Input, xs: seq<Event>, c: Checker)
    requires AllLegal(m, xs) && Tracks(m, xs, c)
    ensures Judged(m, xs, [], Outcome(NoError, c))
  {
    assert xs + [] == xs;
  }

  lemma {:induction false} Judges(m: Input, t: Type, a: nat, c: Checker, xs: seq<Event>)
    requires m.Placed() && AllLegal(m, xs) && Tracks(m, xs, c)
    ensures Inside(m.bytes, m.base, c) && Judged(m, xs, Walk(m, t, a), Validate(m.bytes, m.base, t, a, c))
    decreases t, 3, 0
  {
    hide Legal, Fault, Tracks, Judged, AllLegal, U32, Validate, ValidateMap, ValidateHandles, ValidateElements, WalkMap, WalkSlots, WalkWords;
    TracksInside(m, xs, c);
    var o := Validate(m.bytes, m.base, t, a, c);
    if a == 0 {
      NullAccepted(m.bytes, m.base, t, c);
      JudgedNothing(m, xs, c);
    } else {
      var ys, x := xs + [Object(t, a)], Object(t, a);
      ObjectDecided(m, t, a, c, xs);
      if Legal(m, ys, |xs|) && AllLegal(m, ys) {
        LegalInside(m, ys, |xs|);
        var n, d := m.Word32(a + 4), Claiming(m.bytes, m.base, t, a, c);
        match t
        case HandleArray(nullable, _) => WordsJudged(m, nullable, a, n, 0, d, ys);
        case RefArray(_, _, _) => SlotsJudged(m, t, a, n, 0, d, ys);
        case MapOf(_, _) => MapJudged(m, t, a, d, ys);
        case _ => JudgedNothing(m, ys, d);
      }
      JudgedFirst(m, xs, x, Inner(m, t, a), o);
    }
  }

  lemma LegalInside(m: Input, xs: seq<Event>, i: nat)
    requires i < |xs| && xs[i].Object? && Legal(m, xs, i)
    ensures m.Has(xs[i].a, 8)
  {
  }

  lemma {:induction false} SlotJudged(m: Input, t: Type, nullable: bool, s: nat, c: Checker, xs: seq<Event>)
    requires m.Placed() && AllLegal(m, xs) && Tracks(m, xs, c) && m.Has(s, 8)
    ensures Inside(m.bytes, m.base, c) && Judged(m, xs, WalkSlot(m, t, nullable, s), ValidateSlot(m.bytes, m.base, t, nullable, s, c))
    decreases t, 4, 0
  {
    hide Legal, Fault, Tracks, Judged, AllLegal, Validate, ValidateSlot, Walk;
    TracksInside(m, xs, c);
    var ys, x, to := xs + [Pointer(nullable, s)], Pointer(nullable, s), Target(m.bytes, m.base, s);
    PointerDecided(m, t, nullable, s, c, xs);
    if Legal(m, ys, |xs|) && AllLegal(m, ys) {
      Judges(m, t, to, Visit(c, PointerAt(s)), ys);
    }
    JudgedFirst(m, xs, x, Walk(m, t, to), ValidateSlot(m.bytes, m.base, t, nullable, s, c));
  }

  lemma {:induction false} SlotsJudged(m: Input, t: Type, a: nat, n: nat, i: nat, c: Checker, xs: seq<Event>)
    requires m.Placed() && AllLegal(m, xs) && Tracks(m, xs, c) && t.RefArray? && i <= n && m.Has(a, 8 + 8 * n)
    ensures Inside(m.bytes, m.base, c) && Judged(m, xs, WalkSlots(m, t, a, n, i), ValidateElements(m.bytes, m.base, t, a, n, i, c))
    decreases t, 1, n - i
  {
    hide Legal, Fault, Tracks, AllLegal, ValidateSlot, WalkSlot;
    TracksInside(m, xs, c);
    if i == n {
      JudgedNothing(m, xs, c);
    } else {
      var s := a + 8 + 8 * i;
      var o, ws := ValidateSlot(m.bytes, m.base, t.elem, t.nullable, s, c), WalkSlot(m, t.elem, t.nullable, s);
      SlotJudged(m, t.elem, t.nullable, s, c, xs);
      if o.err == NoError {
        SlotsJudged(m, t, a, n, i + 1, o.checker, xs + ws);
      }
      JudgedThen(m, xs, ws, WalkSlots(m, t, a, n, i + 1), o, ValidateElements(m.bytes, m.base, t, a, n, i, c));
    }
  }

  lemma {:induction false} WordsJudged(m: Input, nullable: bool, a: nat, n: nat, i: nat, c: Checker, xs: seq<Event>)
    requires m.Placed() && AllLegal(m, xs) && Tracks(m, xs, c) && i <= n && m.Has(a, 8 + 4 * n)
    ensures Inside(m.bytes, m.base, c) && Judged(m, xs, WalkWords(m, nullable, a, n, i), ValidateHandles(m.bytes, m.base, nullable, a, n, i, c))
    decreases n - i
  {
    hide Legal, Fault, Tracks, Judged, AllLegal, U32, ValidateHandles;
    TracksInside(m, xs, c);
    if i == n {
      JudgedNothing(m, xs, c);
      NoMoreHandles(m, nullable, a, n, c);
    } else {
      var w := a + 8 + 4 * i;
      var ys, x := xs + [Word(nullable, w)], Word(nullable, w);
      WordDecided(m, nullable, a, n, i, c, xs);
      if Legal(m, ys, |xs|) && AllLegal(m, ys) {
        WordsJudged(m, nullable, a, n, i + 1, ClaimHandle(Visit(c, HandleAt(w)), m.Word32(w)), ys);
      }
      JudgedFirst(m, xs, x, WalkWords(m, nullable, a, n, i + 1), ValidateHandles(m.bytes, m.base, nullable, a, n, i, c));
    }
  }

  lemma NoMoreHandles(m: Input, nullable: bool, a: nat, n: nat, c: Checker)
    requires Inside(m.bytes, m.base, c) && m.Has(a, 8 + 4 * n)
    ensures ValidateHandles(m.bytes, m.base, nullable, a, n, n, c) == Outcome(NoError, c)
  {
  }

  lemma {:induction false} MapJudged(m: Input, t: Type, a: nat, c: Checker, xs: seq<Event>)
    requires m.Placed() && AllLegal(m, xs) && Tracks(m, xs, c) && t.MapOf? && m.Has(a, 24)
    ensures Inside(m.bytes, m.base, c) && Judged(m, xs, WalkMap(m, t, a), ValidateMap(m.bytes, m.base, t, a, 24, 0, c))
    decreases t, 1, 0
  {
    hide Legal, Fault, Tracks, Judged, AllLegal, ValidateSlot, WalkSlot, U32;
    TracksInside(m, xs, c);
    var ks, vs := WalkSlot(m, t.key, false, a + 8), WalkSlot(m, t.value, false, a + 16);
    var keys := ValidateSlot(m.bytes, m.base, t.key, false, a + 8, c);
    var o := ValidateMap(m.bytes, m.base, t, a, 24, 0, c);
    SlotJudged(m, t.key, false, a + 8, c, xs);
    if keys.err == NoError {
      JudgedMeans(m, xs, ks, keys);
      var values := ValidateSlot(m.bytes, m.base, t.value, false, a + 16, keys.checker);
      SlotJudged(m, t.value, false, a + 16, keys.checker, xs + ks);
      JudgedThen(m, xs, ks, vs, keys, values);
      if values.err == NoError {
        JudgedMeans(m, xs, ks + vs, values);
        PairJudged(m, t, a, xs + (ks + vs), values.checker, o);
      }
      JudgedThen(m, xs, ks + vs, [Pair(Target(m.bytes, m.base, a + 8), Target(m.bytes, m.base, a + 16))], values, o);
    } else {
      JudgedThen(m, xs, ks, vs, keys, o);
      JudgedThen(m, xs, ks + vs, [Pair(Target(m.bytes, m.base, a + 8), Target(m.bytes, m.base, a + 16))], o, o);
    }
  }

  lemma JudgedMeans(m: Input, xs: seq<Event>, ws: seq<Event>, o: Outcome)
    requires Judged(m, xs, ws, o) && o.err == NoError
    ensures AllLegal(m, xs + ws) && Tracks(m, xs + ws, o.checker)
  {
  }

  lemma PairJudged(m: Input, t: Type, a: nat, xs: seq<Event>, c: Checker, o: Outcome)
    requires AllLegal(m, xs) && Tracks(m, xs, c) && m.Has(a, 24)
    requires var keys, values := Target(m.bytes, m.base, a + 8), Target(m.bytes, m.base, a + 16);
      && m.Has(keys, 8) && m.Has(values, 8)
      && o == if m.Word32(keys + 4) != m.Word32(values + 4) then Outcome(DifferentSizedArraysInMap, c) else Outcome(NoError, c)
    ensures Judged(m, xs, [Pair(Target(m.bytes, m.base, a + 8), Target(m.bytes, m.base, a + 16))], o)
  {
    hide Tracks, U32;
    var x := Pair(Target(m.bytes, m.base, a + 8), Target(m.bytes, m.base, a + 16));
    var ys := xs + [x];
    assert ys[|xs|] == x;
    TracksInside(m, xs, c);
    TracksNext(m, xs, c, x, c);
    if Legal(m, ys, |xs|) && AllLegal(m, ys) {
      JudgedNothing(m, ys, c);
    }
    JudgedFirst(m, xs, x, [], o);
    assert [x] + [] == [x];
  }

  /** On any bytes: validation accepts if and only if everything reachable is legal;
      otherwise it reports what is wrong with the first that is not. */
  lemma VerdictExactly(m: Input, t: Type, a: nat)
    requires m.Placed()
    ensures var err := Validate(m.bytes, m.base, t, a, Fresh(m.bytes, m.base, m.handles)).err;
      && (err == NoError <==> AllLegal(m, Walk(m, t, a)))
      && forall i | FirstFault(m, Walk(m, t, a), i) :: err == Fault(m, Walk(m, t, a), i)
  {
    hide Legal, Fault, Validate, Walk;
    var c, ws := Fresh(m.bytes, m.base, m.handles), Walk(m, t, a);
    Judges(m, t, a, c, []);
    assert [] + ws == ws;
    if Validate(m.bytes, m.base, t, a, c).err != NoError {
      var i :| FirstFault(m, ws, i) && Validate(m.bytes, m.base, t, a, c).err == Fault(m, ws, i);
      assert forall j | FirstFault(m, ws, j) :: j == i;
    }
  }

  /** In particular a message is misaligned if and only if the first thing wrong with
      it is an object that does not begin at a whole word. */
  lemma MisalignedExactly(m: Input, t: Type, a: nat)
    requires m.Placed()
    ensures var ws := Walk(m, t, a);
      Validate(m.bytes, m.base, t, a, Fresh(m.bytes, m.base, m.handles)).err == MisalignedObject <==>
      exists i :: FirstFault(m, ws, i) && ws[i].Object? && ws[i].a % 8 != 0
  {
    hide Legal, Validate, Walk;
    VerdictExactly(m, t, a);
    var ws := Walk(m, t, a);
    if !AllLegal(m, ws) {
      var i := SomeFault(m, ws);
    }
  }

  lemma {:induction false} SomeFault(m: Input, xs: seq<Event>) returns (i: int)
    requires !AllLegal(m, xs)
    ensures FirstFault(m, xs, i)
  {
    hide Legal;
    var j :| 0 <= j < |xs| && !Legal(m, xs, j);
    i := 0;
    while Legal(m, xs, i)
      invariant 0 <= i <= j && forall k | 0 <= k < i :: Legal(m, xs, k)
      decreases j - i
    {
      i := i + 1;
    }
  }
}
