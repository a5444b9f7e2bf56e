/**
  Struct field placement: a first-fit search over the holes left by earlier
  fields, with booleans packed one bit at a time.

  `Pack` is the placement as a function of the field kinds.  Everything else in
  the layout theory follows from one invariant, `Chain`: in packing order every
  slot sits exactly where the slot before it leaves off, rounded up to its own
  alignment, and it keeps sitting there after later fields move into the holes.
*/
module Layout {

  /** What the placement needs to know about a field type. */
  datatype RawKind = Kind(isBool: bool, size: nat, align: nat)
  {
    predicate Valid() {
      && size > 0
      && align in {1, 2, 4, 8}
      && (isBool ==> size == 1 && align == 1)
    }
  }

  type Kind = k: RawKind | k.Valid() witness RawKind.Kind(true, 1, 1)

  /** A field (named by its ordinal) together with the place it was given. */
  datatype Slot = Slot(ord: nat, kind: Kind, offset: nat, bit: nat)
  {
    function End(): nat { offset + kind.size }
  }

  // ---------------------------------------------------------------- padding

  /** The padding formula, written out for the alignments that occur. */
  function ComputePadding(offset: nat, alignment: nat): (pad: nat)
    requires alignment in {1, 2, 4, 8}
    ensures pad < alignment && Multiple(offset + pad, alignment)
  {
    if alignment == 1 then 0
    else if alignment == 2 then Pad2(offset); (2 - offset % 2) % 2
    else if alignment == 4 then Pad4(offset); (4 - offset % 4) % 4
    else Pad8(offset); (8 - offset % 8) % 8
  }

  lemma Pad2(offset: nat)
    ensures var pad := (2 - offset % 2) % 2; pad < 2 && (offset + pad) % 2 == 0
  {
    var q, r := offset / 2, offset % 2;
    assert offset == 2 * q + r;
    if r == 0 {
      assert (2 - r) % 2 == 0;
    } else {
      assert (2 - r) % 2 == 2 - r;
      assert offset + (2 - r) == 2 * (q + 1);
    }
  }

  lemma Pad4(offset: nat)
    ensures var pad := (4 - offset % 4) % 4; pad < 4 && (offset + pad) % 4 == 0
  {
    var q, r := offset / 4, offset % 4;
    assert offset == 4 * q + r;
    if r == 0 {
      assert (4 - r) % 4 == 0;
    } else {
      assert (4 - r) % 4 == 4 - r;
      assert offset + (4 - r) == 4 * (q + 1);
    }
  }

  lemma Pad8(offset: nat)
    ensures var pad := (8 - offset % 8) % 8; pad < 8 && (offset + pad) % 8 == 0
  {
    var q, r := offset / 8, offset % 8;
    assert offset == 8 * q + r;
    if r == 0 {
      assert (8 - r) % 8 == 0;
    } else {
      assert (8 - r) % 8 == 8 - r;
      assert offset + (8 - r) == 8 * (q + 1);
    }
  }

  predicate Multiple(x: nat, alignment: nat)
    requires alignment in {1, 2, 4, 8}
  {
    if alignment == 1 then true
    else if alignment == 2 then x % 2 == 0
    else if alignment == 4 then x % 4 == 0
    else x % 8 == 0
  }

  function RoundUp(offset: nat, alignment: nat): (r: nat)
    requires alignment in {1, 2, 4, 8}
    ensures offset <= r < offset + alignment
    ensures Multiple(r, alignment)
  {
    offset + ComputePadding(offset, alignment)
  }

  /** `RoundUp` gives the least multiple that is not below its argument. */
  lemma RoundUpLeast(offset: nat, alignment: nat, m: nat)
    requires alignment in {1, 2, 4, 8} && offset <= m && Multiple(m, alignment)
    ensures RoundUp(offset, alignment) <= m
  {
  }

  /** Anything between an offset and its rounding rounds to the same place. */
  lemma RoundUpSqueeze(offset: nat, m: nat, alignment: nat)
    requires alignment in {1, 2, 4, 8} && offset <= m <= RoundUp(offset, alignment)
    ensures RoundUp(m, alignment) == RoundUp(offset, alignment)
  {
    hide RoundUp, Multiple;
    RoundUpLeast(m, alignment, RoundUp(offset, alignment));
    RoundUpLeast(offset, alignment, RoundUp(m, alignment));
  }

  lemma MultipleOf8(x: nat, align: nat)
    requires align in {1, 2, 4, 8} && Multiple(x, 8)
    ensures Multiple(x, align)
  {
    var q := x / 8;
    assert x == 2 * (4 * q) && x == 4 * (2 * q);
  }

  // -------------------------------------------------------------- placement

  /** The place of a field of kind `k` if it directly follows `prev`. */
  function Tentative(ord: nat, k: Kind, prev: Slot): (s: Slot)
    ensures s.ord == ord && s.kind == k
  {
    if k.isBool && prev.kind.isBool && prev.bit < 7 then
      Slot(ord, k, prev.offset, prev.bit + 1)
    else
      Slot(ord, k, RoundUp(prev.End(), k.align), 0)
  }

  /** Whether a field of kind `k` fits between slots `i` and `i + 1`. */
  predicate FitsAfter(order: seq<Slot>, i: nat, k: Kind)
    requires i + 1 < |order|
  {
    Tentative(0, k, order[i]).End() <= order[i + 1].offset
  }

  /** The index of the slot behind which the search from slot `i` puts `k`. */
  function FitIndex(order: seq<Slot>, k: Kind, i: nat): (j: nat)
    requires i < |order|
    ensures i <= j < |order|
    ensures forall m | i <= m < j :: !FitsAfter(order, m, k)
    ensures j + 1 == |order| || FitsAfter(order, j, k)
    decreases |order| - i
  {
    if i + 1 == |order| || FitsAfter(order, i, k) then i else FitIndex(order, k, i + 1)
  }

  /** Packing order after one more field has been placed. */
  function Place(order: seq<Slot>, ord: nat, k: Kind): seq<Slot> {
    if order == [] then
      [Slot(ord, k, 0, 0)]
    else
      var j := FitIndex(order, k, 0);
      order[..j + 1] + [Tentative(ord, k, order[j])] + order[j + 1..]
  }

  /** The slots of all fields, in packing order. */
  function Pack(kinds: seq<Kind>): (order: seq<Slot>)
    ensures |order| == |kinds|
  {
    if kinds == [] then [] else
      var n := |kinds| - 1;
      Place(Pack(kinds[..n]), n, kinds[n])
  }

  // ------------------------------------------------------ the chain invariant

  /** The position (not the name) of `s` is the one that follows `prev`. */
  predicate Follows(prev: Slot, s: Slot) {
    s == Tentative(s.ord, s.kind, prev)
  }

  ghost predicate Chain(order: seq<Slot>) {
    && (order != [] ==> order[0].offset == 0 && order[0].bit == 0)
    && (forall i | 0 <= i && i + 1 < |order| :: Follows(order[i], order[i + 1]))
  }

  /** A slot that starts a byte of its own and moved into the hole before
      `after` leaves `after` exactly where the rule puts it. */
  lemma InsertKeepsFollower(before: Slot, after: Slot, ord: nat, k: Kind)
    requires Follows(before, after)
    requires Tentative(0, k, before).End() <= after.offset
    ensures Follows(Tentative(ord, k, before), after)
    ensures !after.kind.isBool
    ensures after.bit == 0
  {
    hide RoundUp;
    var x := Tentative(ord, k, before);
    assert after.offset == RoundUp(before.End(), after.kind.align);
    RoundUpSqueeze(before.End(), x.End(), after.kind.align);
  }

  lemma PlaceKeepsChain(order: seq<Slot>, ord: nat, k: Kind)
    requires Chain(order)
    ensures Chain(Place(order, ord, k))
  {
    hide RoundUp;
    if order != [] {
      var j := FitIndex(order, k, 0);
      var x := Tentative(ord, k, order[j]);
      var r := Place(order, ord, k);
      if j + 1 < |order| {
        InsertKeepsFollower(order[j], order[j + 1], ord, k);
      }
      forall i | 0 <= i && i + 1 < |r| ensures Follows(r[i], r[i + 1]) {
        if i < j {
          assert Follows(order[i], order[i + 1]);
        } else if i > j + 1 {
          assert Follows(order[i - 1], order[i]);
        }
      }
    }
  }

  /** Every offset the compiler assigns is the previous end rounded up to the
      field's own alignment, or the next bit of the same byte, also after later
      fields have been inserted into holes. */
  lemma {:induction false} PackIsChain(kinds: seq<Kind>)
    ensures Chain(Pack(kinds))
  {
    hide RoundUp;
    if kinds != [] {
      var n := |kinds| - 1;
      PackIsChain(kinds[..n]);
      PlaceKeepsChain(Pack(kinds[..n]), n, kinds[n]);
    }
  }

  // -------------------------------------------------------- well-formedness

  predicate Disjoint(a: Slot, b: Slot) {
    || a.End() <= b.offset
    || b.End() <= a.offset
    || (a.kind.isBool && b.kind.isBool && a.offset == b.offset && a.bit != b.bit)
  }

  /** `b` lies behind `a`. */
  predicate After(a: Slot, b: Slot) {
    || a.End() <= b.offset
    || (a.kind.isBool && b.kind.isBool && a.offset == b.offset && a.bit < b.bit)
  }

  predicate LexLeq(a: Slot, b: Slot) {
    a.offset < b.offset || (a.offset == b.offset && a.bit <= b.bit)
  }

  predicate Aligned(s: Slot) {
    Multiple(s.offset, s.kind.align) && s.bit < 8 && (!s.kind.isBool ==> s.bit == 0)
  }

  lemma {:induction false} ChainAfter(order: seq<Slot>, i: nat, j: nat)
    requires Chain(order) && i < j < |order|
    ensures After(order[i], order[j])
    decreases j
  {
    hide RoundUp;
    assert Follows(order[j - 1], order[j]);
    if i < j - 1 {
      ChainAfter(order, i, j - 1);
    }
  }

  lemma {:induction false} ChainAligned(order: seq<Slot>, i: nat)
    requires Chain(order) && i < |order|
    ensures Aligned(order[i])
  {
    hide RoundUp;
    if i > 0 {
      ChainAligned(order, i - 1);
      assert Follows(order[i - 1], order[i]);
    }
  }

  /** Fields are aligned and pairwise disjoint, packing order is strictly
      increasing in (offset, bit), and the booleans of a byte fill it from bit 0
      without gaps. */
  lemma PackWellFormed(kinds: seq<Kind>)
    ensures var order := Pack(kinds);
      && (forall i | 0 <= i < |order| :: Aligned(order[i]))
      && (forall i, j | 0 <= i < j < |order| :: After(order[i], order[j]) && Disjoint(order[i], order[j]))
      && (forall i | 0 <= i < |order| && order[i].bit > 0 ::
            i > 0 && order[i - 1].kind.isBool && order[i].kind.isBool
            && order[i - 1].offset == order[i].offset && order[i - 1].bit == order[i].bit - 1)
  {
    hide RoundUp;
    var order := Pack(kinds);
    PackIsChain(kinds);
    forall i | 0 <= i < |order| ensures Aligned(order[i]) {
      ChainAligned(order, i);
    }
    forall i, j | 0 <= i < j < |order| ensures After(order[i], order[j]) {
      ChainAfter(order, i, j);
    }
    forall i | 0 <= i < |order| && order[i].bit > 0
      ensures i > 0 && order[i - 1].kind.isBool && order[i].kind.isBool
              && order[i - 1].offset == order[i].offset && order[i - 1].bit == order[i].bit - 1
    {
      assert i > 0;
      assert Follows(order[i - 1], order[i]);
    }
  }

  // ------------------------------------------------------ names and stability

  ghost predicate Names(order: seq<Slot>, kinds: seq<Kind>) {
    && (forall s | s in order :: s.ord < |kinds| && s.kind == kinds[s.ord])
    && (forall i, j | 0 <= i < j < |order| :: order[i].ord != order[j].ord)
    && (forall n | 0 <= n < |kinds| :: Named(order, n))
  }

  ghost predicate Named(order: seq<Slot>, n: nat) {
    exists i :: 0 <= i < |order| && order[i].ord == n
  }

  lemma PlaceContents(order: seq<Slot>, ord: nat, k: Kind, s: Slot)
    ensures s in Place(order, ord, k) <==> s in order || s == Placed(order, ord, k)
  {
    hide RoundUp;
    if order != [] {
      var j := FitIndex(order, k, 0);
      assert order == order[..j + 1] + order[j + 1..];
    }
  }

  function Placed(order: seq<Slot>, ord: nat, k: Kind): Slot {
    if order == [] then Slot(ord, k, 0, 0) else Tentative(ord, k, order[FitIndex(order, k, 0)])
  }

  /** The number of slots in front of the one placed next. */
  function PlaceIndex(order: seq<Slot>, k: Kind): (j: nat)
    ensures j <= |order|
  {
    if order == [] then 0 else FitIndex(order, k, 0) + 1
  }

  lemma PlaceShape(order: seq<Slot>, ord: nat, k: Kind)
    ensures var r, j := Place(order, ord, k), PlaceIndex(order, k);
      && |r| == |order| + 1
      && r[j] == Placed(order, ord, k)
      && (forall i | 0 <= i < j :: r[i] == order[i])
      && (forall i | j < i < |r| :: r[i] == order[i - 1])
  {
    hide RoundUp;
  }

  lemma InsertNames(order: seq<Slot>, kinds: seq<Kind>, r: seq<Slot>, j: nat)
    requires Names(order, kinds)
    requires j <= |order| && |r| == |order| + 1
    requires forall i | 0 <= i < j :: r[i] == order[i]
    requires forall i | j < i < |r| :: r[i] == order[i - 1]
    requires r[j].ord == |kinds|
    ensures Names(r, kinds + [r[j].kind])
  {
    hide RoundUp;
    forall m | 0 <= m < |kinds| + 1 ensures Named(r, m) {
      if m < |kinds| {
        assert Named(order, m);
        var i :| 0 <= i < |order| && order[i].ord == m;
        assert r[if i < j then i else i + 1].ord == m;
      } else {
        assert r[j].ord == m;
      }
    }
  }

  lemma PlaceNames(order: seq<Slot>, kinds: seq<Kind>, k: Kind)
    requires Names(order, kinds)
    ensures Names(Place(order, |kinds|, k), kinds + [k])
  {
    hide RoundUp;
    PlaceShape(order, |kinds|, k);
    InsertNames(order, kinds, Place(order, |kinds|, k), PlaceIndex(order, k));
  }

  /** Every field is placed exactly once. */
  lemma {:induction false} PackNames(kinds: seq<Kind>)
    ensures Names(Pack(kinds), kinds)
  {
    hide RoundUp, Place;
    if kinds != [] {
      var n := |kinds| - 1;
      PackNames(kinds[..n]);
      PlaceNames(Pack(kinds[..n]), kinds[..n], kinds[n]);
      assert kinds == kinds[..n] + [kinds[n]];
    }
  }

  /** The slot of the field with ordinal `n`. */
  function SlotOf(kinds: seq<Kind>, n: nat): (s: Slot)
    requires n < |kinds|
    ensures s.ord == n && s.kind == kinds[n]
    decreases |kinds|
  {
    var m := |kinds| - 1;
    if n == m then Placed(Pack(kinds[..m]), m, kinds[m]) else SlotOf(kinds[..m], n)
  }

  lemma {:induction false} SlotOfInPack(kinds: seq<Kind>, n: nat)
    requires n < |kinds|
    ensures SlotOf(kinds, n) in Pack(kinds)
    decreases |kinds|
  {
    hide RoundUp, Place, Placed;
    var m := |kinds| - 1;
    PlaceContents(Pack(kinds[..m]), m, kinds[m], SlotOf(kinds, n));
    if n < m {
      SlotOfInPack(kinds[..m], n);
    }
  }

  lemma SlotOfIsPacked(kinds: seq<Kind>, n: nat)
    requires n < |kinds|
    ensures SlotOf(kinds, n) in Pack(kinds)
    ensures forall s | s in Pack(kinds) && s.ord == n :: s == SlotOf(kinds, n)
  {
    hide Pack, SlotOf;
    SlotOfInPack(kinds, n);
    PackNames(kinds);
    var s, order := SlotOf(kinds, n), Pack(kinds);
    forall t | t in order && t.ord == n ensures t == s {
      var i :| 0 <= i < |order| && order[i] == t;
      var j :| 0 <= j < |order| && order[j] == s;
    }
  }

  /** Appending fields never moves an earlier one. */
  lemma {:induction false} AppendStable(kinds: seq<Kind>, more: seq<Kind>, n: nat)
    requires n < |kinds|
    ensures SlotOf(kinds + more, n) == SlotOf(kinds, n)
    decreases |more|
  {
    hide RoundUp;
    if more == [] {
      assert kinds + more == kinds;
    } else {
      var m := |more| - 1;
      assert (kinds + more)[..|kinds + more| - 1] == kinds + more[..m];
      AppendStable(kinds, more[..m], n);
    }
  }

  /** The slots of the first `n` fields, in packing order. */
  function Truncated(order: seq<Slot>, n: nat): seq<Slot> {
    if order == [] then [] else
      (if order[0].ord < n then [order[0]] else []) + Truncated(order[1..], n)
  }

  lemma {:induction false} TruncatedConcat(a: seq<Slot>, b: seq<Slot>, n: nat)
    ensures Truncated(a + b, n) == Truncated(a, n) + Truncated(b, n)
  {
    hide RoundUp;
    if a == [] {
      assert a + b == b;
    } else {
      assert (a + b)[1..] == a[1..] + b;
      TruncatedConcat(a[1..], b, n);
    }
  }

  lemma {:induction false} TruncatedAll(order: seq<Slot>, n: nat)
    requires forall s | s in order :: s.ord < n
    ensures Truncated(order, n) == order
  {
    hide RoundUp;
    if order != [] {
      TruncatedAll(order[1..], n);
    }
  }

  lemma TruncatedPlace(order: seq<Slot>, ord: nat, k: Kind, n: nat)
    requires n <= ord
    ensures Truncated(Place(order, ord, k), n) == Truncated(order, n)
  {
    hide RoundUp;
    if order != [] {
      var j := FitIndex(order, k, 0);
      var x := Tentative(ord, k, order[j]);
      var a, b := order[..j + 1], order[j + 1..];
      assert order == a + b;
      TruncatedConcat(a + [x], b, n);
      TruncatedConcat(a, [x], n);
      TruncatedConcat(a, b, n);
      assert Truncated([x], n) == [];
      assert Truncated(a, n) + [] == Truncated(a, n);
    }
  }

  /** Dropping the later fields from the packing order gives the packing order
      of the shorter struct. */
  lemma {:induction false} TruncatedPack(kinds: seq<Kind>, n: nat)
    requires n <= |kinds|
    ensures Truncated(Pack(kinds), n) == Pack(kinds[..n])
    decreases |kinds|
  {
    hide RoundUp;
    if n == |kinds| {
      assert kinds[..n] == kinds;
      PackNames(kinds);
      TruncatedAll(Pack(kinds), n);
    } else {
      var m := |kinds| - 1;
      TruncatedPack(kinds[..m], n);
      assert kinds[..m][..n] == kinds[..n];
      TruncatedPlace(Pack(kinds[..m]), m, kinds[m], n);
    }
  }

  // -------------------------------------------------------------- optimality

  ghost predicate FreeOf(q: Slot, order: seq<Slot>) {
    forall s | s in order :: Disjoint(q, s)
  }

  lemma AfterTentative(q: Slot, prev: Slot)
    requires Aligned(q) && After(prev, q)
    ensures LexLeq(Tentative(q.ord, q.kind, prev), q)
  {
    hide RoundUp;
    if prev.End() <= q.offset {
      RoundUpLeast(prev.End(), q.kind.align, q.offset);
    }
  }

  lemma {:induction false} FreeGoesBehind(order: seq<Slot>, q: Slot, m: nat)
    requires Chain(order) && Aligned(q) && FreeOf(q, order)
    requires m < |order| && m <= FitIndex(order, q.kind, 0)
    ensures After(order[m], q)
  {
    hide RoundUp;
    if m == 0 {
      assert Disjoint(q, order[0]);
    } else {
      FreeGoesBehind(order, q, m - 1);
      AfterTentative(q, order[m - 1]);
      assert !FitsAfter(order, m - 1, q.kind);
      assert Disjoint(q, order[m]);
      assert Follows(order[m - 1], order[m]);
    }
  }

  lemma PlacedIsFree(order: seq<Slot>, ord: nat, k: Kind)
    requires Chain(order)
    ensures FreeOf(Placed(order, ord, k), order)
  {
    hide RoundUp;
    PlaceKeepsChain(order, ord, k);
    var r := Place(order, ord, k);
    var x := Placed(order, ord, k);
    if order != [] {
      var j := FitIndex(order, k, 0);
      forall i | 0 <= i < |order| ensures Disjoint(x, order[i]) {
        if i <= j {
          ChainAfter(r, i, j + 1);
        } else {
          ChainAfter(r, j + 1, i + 1);
        }
      }
    }
  }

  lemma PlacedIsLeast(order: seq<Slot>, ord: nat, q: Slot)
    requires Chain(order) && Aligned(q) && FreeOf(q, order)
    ensures LexLeq(Placed(order, ord, q.kind), q)
  {
    hide RoundUp;
    if order != [] {
      var j := FitIndex(order, q.kind, 0);
      FreeGoesBehind(order, q, j);
      AfterTentative(q, order[j]);
    }
  }

  lemma PlacedIsAligned(order: seq<Slot>, ord: nat, k: Kind)
    requires Chain(order)
    ensures Aligned(Placed(order, ord, k))
  {
    hide RoundUp;
    var r := Place(order, ord, k);
    PlaceKeepsChain(order, ord, k);
    ChainAligned(r, if order == [] then 0 else FitIndex(order, k, 0) + 1);
  }

  lemma {:induction false} SlotOfIsPlaced(kinds: seq<Kind>, n: nat)
    requires n < |kinds|
    ensures SlotOf(kinds, n) == Placed(Pack(kinds[..n]), n, kinds[n])
    decreases |kinds|
  {
    hide RoundUp;
    var m := |kinds| - 1;
    if n < m {
      SlotOfIsPlaced(kinds[..m], n);
      assert kinds[..m][..n] == kinds[..n];
    }
  }

  /** First fit is optimal: every field gets the lexicographically least
      (offset, bit) that meets its alignment and is free of all fields with a
      lower ordinal. */
  lemma FirstFitOptimal(kinds: seq<Kind>, n: nat)
    requires n < |kinds|
    ensures var s := SlotOf(kinds, n); var lower := Truncated(Pack(kinds), n);
      && Aligned(s)
      && FreeOf(s, lower)
      && forall q: Slot | q.kind == s.kind && Aligned(q) && FreeOf(q, lower) :: LexLeq(s, q)
  {
    hide RoundUp;
    var s, lower := SlotOf(kinds, n), Pack(kinds[..n]);
    TruncatedPack(kinds, n);
    PackIsChain(kinds[..n]);
    SlotOfIsPlaced(kinds, n);
    PlacedIsFree(lower, n, kinds[n]);
    PlacedIsAligned(lower, n, kinds[n]);
    forall q: Slot | q.kind == s.kind && Aligned(q) && FreeOf(q, lower) ensures LexLeq(s, q) {
      PlacedIsLeast(lower, n, q);
    }
  }
}
