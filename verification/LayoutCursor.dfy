/**
  The encoder is never told an offset: it only moves its cursor past each field
  it writes.  Visiting the fields in packing order, the cursor finds exactly the
  places the compiler computed.
*/
module LayoutCursor {
  import opened Wire
  import opened Layout
  import opened Versions
  import opened Cursor
  import opened Codec
  import opened CodecRoundTrip

  /** A struct field: a plain value, or a union whose member is not a bool. */
  datatype RawField = Plain(t: Type) | Union(member: Type)

  type Field = f: RawField | f.Union? ==> !f.member.TBool? witness RawField.Plain(TBool)

  /** Size and alignment as the compiler sees them. */
  function KindOf(f: Field): Kind {
    match f
    case Union(_) => RawKind.Kind(false, 16, 8)
    case Plain(t) =>
      match t
      case TBool => RawKind.Kind(true, 1, 1)
      case TUint(w) => RawKind.Kind(false, w.Bytes(), w.Bytes())
      case THandle(_) => RawKind.Kind(false, 4, 4)
      case TInterface(_) => RawKind.Kind(false, 8, 4)
      case TPointer(_, _) => RawKind.Kind(false, 8, 8)
  }

  function KindsOf(fs: seq<Field>): (ks: seq<Kind>)
    ensures |ks| == |fs| && forall i | 0 <= i < |ks| :: ks[i] == KindOf(fs[i])
  {
    seq(|fs|, i requires 0 <= i < |fs| => KindOf(fs[i]))
  }

  /** Bytes of the first item the encoder writes for the field. */
  function FirstItem(f: Field): (n: nat)
    requires !(f.Plain? && f.t.TBool?)
    ensures n in {1, 2, 4, 8} && n == KindOf(f).align
  {
    match f
    case Union(_) => 8
    case Plain(t) =>
      match t
      case TUint(w) => w.Bytes()
      case THandle(_) => 4
      case TInterface(_) => 4
      case TPointer(_, _) => 8
  }

  /** What ends a union: align to a word first, then leave a pending byte. */
  function Finished(st: State): State {
    st.(offset := RoundUp(st.offset, 8) + if st.bitOffset > 0 then 1 else 0, bitOffset := 0)
  }

  /** The cursor behind a field.  A union writes an 8-byte header, then its
      member, and is ended. */
  function Past(st: State, f: RawField): State {
    match f
    case Plain(t) => Advance(st, t)
    case Union(member) => Finished(Advance(st.(offset := st.Pos(8) + 8, bitOffset := 0), member))
  }

  /** Where the encoder puts the field: byte and bit. */
  function WritesAt(st: State, f: Field): (nat, nat) {
    if f.Plain? && f.t.TBool? then (st.offset, st.bitOffset) else (st.Pos(FirstItem(f)), 0)
  }

  /** The cursor in front of the `i`-th field in packing order. */
  function CursorAt(st: State, fs: seq<Field>, order: seq<Slot>, i: nat): State
    requires i <= |order| && forall s | s in order :: s.ord < |fs|
  {
    if i == 0 then st else
      assert order[i - 1] in order;
      Past(CursorAt(st, fs, order, i - 1), fs[order[i - 1].ord])
  }

  /** The cursor stands directly behind slot `s`. */
  ghost predicate Behind(st: State, base: nat, s: Slot) {
    if s.kind.isBool && s.bit < 7 then st.offset == base + s.offset && st.bitOffset == s.bit + 1
    else st.offset == base + s.End() && st.bitOffset == 0
  }

  /** A union takes its 16 bytes exactly if its member is not a bool. */
  lemma UnionPast(st: State, f: RawField)
    requires f.Union?
    ensures Past(st, f).bitOffset == 0 && (Past(st, f).offset == st.Pos(8) + 16 <==> !f.member.TBool?)
  {
    hide RoundUp, Multiple;
    var header := st.(offset := st.Pos(8) + 8, bitOffset := 0);
    var at := header.offset;
    MultipleOf8Plus(st.Pos(8));
    MultipleOf8Plus(at);
    MultipleOf8(at, 1);
    MultipleOf8(at, 2);
    MultipleOf8(at, 4);
    RoundUpLeast(at, 1, at);
    RoundUpLeast(at, 2, at);
    RoundUpLeast(at, 4, at);
    RoundUpLeast(at, 8, at);
    var value := Advance(header, f.member);
    if !f.member.TBool? {
      assert at < value.offset <= at + 8;
      RoundUpLeast(value.offset, 8, at + 8);
      MultipleGap(RoundUp(value.offset, 8), at + 8, 8);
    }
  }

  /** Behind a union with a bool member, which the compiler gave 16 bytes, the next
      field is written at the end of these exactly if it is aligned to a word. */
  lemma BehindBoolUnion(st: State, f: Field)
    ensures WritesAt(Past(st, Union(TBool)), f) == (st.Pos(8) + 16, 0) <==> KindOf(f).align == 8
  {
    hide RoundUp, Multiple;
    var at, behind := st.Pos(8), Past(st, Union(TBool));
    MultipleOf8Plus(at);
    RoundUpLeast(at + 8, 8, at + 8);
    assert behind.offset == at + 9 && behind.bitOffset == 0;
    NineBehind(at);
  }

  lemma NineBehind(at: nat)
    requires Multiple(at, 8)
    ensures RoundUp(at + 9, 8) == at + 16
    ensures RoundUp(at + 9, 1) < at + 16 && RoundUp(at + 9, 2) < at + 16 && RoundUp(at + 9, 4) < at + 16
  {
    hide RoundUp, Multiple;
    MultipleOf8Plus(at);
    MultipleOf8Plus(at + 8);
    RoundUpLeast(at + 9, 8, at + 16);
    MultipleGap(RoundUp(at + 9, 8), at + 16, 8);
  }

  /** A field written where its slot is leaves the cursor behind the slot. */
  lemma PastSlot(st: State, base: nat, f: Field, s: Slot)
    requires s.kind == KindOf(f) && Aligned(s) && st.bitOffset < 8
    requires WritesAt(st, f) == (base + s.offset, s.bit)
    ensures Behind(Past(st, f), base, s)
  {
    hide RoundUp, Multiple;
    if f.Union? {
      UnionPast(st, f);
    }
  }

  /** From behind one slot, the next field is written at the slot that follows. */
  lemma NextSlot(st: State, base: nat, prev: Slot, f: Field, s: Slot)
    requires Multiple(base, 8) && Behind(st, base, prev) && Aligned(prev)
    requires s.kind == KindOf(f) && Follows(prev, s)
    ensures WritesAt(st, f) == (base + s.offset, s.bit)
  {
    hide RoundUp, Multiple;
    if !s.kind.isBool {
      assert st.ByteOffset() == base + prev.End();
      RoundUpShift(prev.End(), base, s.kind.align);
    }
  }

  lemma FirstSlot(st: State, base: nat, f: Field, s: Slot)
    requires Multiple(base, 8) && st.offset == base && st.bitOffset == 0
    requires s.kind == KindOf(f) && s.offset == 0 && s.bit == 0
    ensures WritesAt(st, f) == (base + s.offset, s.bit)
  {
    hide RoundUp, Multiple;
    if !s.kind.isBool {
      MultipleOf8(base, s.kind.align);
      RoundUpLeast(base, s.kind.align, base);
    }
  }

  lemma {:induction false} CursorFindsSlot(st: State, base: nat, fs: seq<Field>, order: seq<Slot>, i: nat)
    requires Multiple(base, 8) && st.offset == base && st.bitOffset == 0
    requires Chain(order) && (forall s | s in order :: s.ord < |fs| && s.kind == KindOf(fs[s.ord]))
    requires i < |order|
    ensures var here := CursorAt(st, fs, order, i); var f := fs[order[i].ord];
      && WritesAt(here, f) == (base + order[i].offset, order[i].bit)
      && Behind(Past(here, f), base, order[i])
      && (i > 0 ==> Behind(here, base, order[i - 1]))
      && here.bitOffset < 8 && here.limit == st.limit && here.check == st.check
  {
    hide RoundUp, Multiple, WritesAt, Past, KindOf, Aligned;
    assert order[i] in order;
    ChainAligned(order, i);
    var here, f := CursorAt(st, fs, order, i), fs[order[i].ord];
    if i == 0 {
      FirstSlot(st, base, f, order[0]);
    } else {
      CursorFindsSlot(st, base, fs, order, i - 1);
      assert order[i - 1] in order;
      ChainAligned(order, i - 1);
      assert Follows(order[i - 1], order[i]);
      var before := CursorAt(st, fs, order, i - 1);
      PastKeeps(before, fs[order[i - 1].ord]);
      SlotBit(order[i - 1]);
      NextSlot(here, base, order[i - 1], f, order[i]);
    }
    PastSlot(here, base, f, order[i]);
  }

  lemma SlotBit(s: Slot)
    requires Aligned(s)
    ensures s.bit < 8
  {
  }

  lemma PastKeeps(st: State, f: Field)
    ensures Past(st, f).limit == st.limit && Past(st, f).check == st.check
  {
  }

  /** The slots of the fields form a chain and carry the fields' kinds. */
  ghost predicate Packed(fs: seq<Field>, order: seq<Slot>) {
    && |order| == |fs| && Chain(order)
    && (forall s | s in order :: s.ord < |fs| && s.kind == KindOf(fs[s.ord]))
  }

  lemma PackIsPacked(fs: seq<Field>)
    ensures Packed(fs, Pack(KindsOf(fs)))
  {
    hide Pack, KindOf;
    PackIsChain(KindsOf(fs));
    PackNames(KindsOf(fs));
  }

  lemma SlotInPayload(kinds: seq<Kind>, i: nat)
    requires i < |kinds|
    ensures HEADER_SIZE + Pack(kinds)[i].End() <= PayloadSize(kinds, |kinds|)
    ensures Multiple(PayloadSize(kinds, |kinds|), 8)
  {
    hide Pack, PayloadSize;
    PayloadSizeBounds(kinds);
    assert Pack(kinds)[i] in Pack(kinds);
  }

  lemma LimitWords(st: State)
    requires Multiple(st.limit, 8)
    ensures st.limit % 8 == 0
  {
  }
}
