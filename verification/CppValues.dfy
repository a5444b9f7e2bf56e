/**
  The values that the C++ bindings serialize: arrays of plain data, of bools, of
  handles and of pointers to further objects, strings and maps; what they are
  allowed to be, and how many bytes they take.
*/
module CppValues {
  import opened Wire

  datatype ValidationError =
    | NoError | MisalignedObject | IllegalMemoryRange | UnexpectedStructHeader | UnexpectedArrayHeader
    | IllegalHandle | UnexpectedInvalidHandle | IllegalPointer | UnexpectedNullPointer | DifferentSizedArraysInMap

  /** The types, with their validation parameters: `expected` is the length of a
      fixed-size array, 0 when any length will do. A string is `PodArray(1, 0)`; a map
      is described by the types of its key array and its value array. */
  datatype Type =
    | PodArray(size: nat, expected: nat)
    | BoolArray(expected: nat)
    | HandleArray(nullable: bool, expected: nat)
    | RefArray(elem: Type, nullable: bool, expected: nat)
    | MapOf(key: Type, value: Type)

  /** A non-null value. `Node` is an object that points to others: an array of
      objects with its length in `second`, or a map with version 0 in `second`
      and its key and value arrays. A handle 0 is invalid. */
  datatype Val =
    | Pods(size: nat, count: nat, data: seq<byte>)
    | Bits(bits: seq<bool>)
    | Handles(handles: seq<nat>)
    | Node(second: nat, kids: seq<Option<Val>>)

  // ---- Types ----

  /** `size * count` for the sizes that plain elements have. */
  function Times(size: nat, count: nat): nat {
    if size == 8 then 8 * count else if size == 4 then 4 * count else if size == 2 then 2 * count else count
  }

  function Expected(t: Type): nat {
    if t.MapOf? then 0 else t.expected
  }

  predicate WellFormed(t: Type) {
    match t
    case PodArray(size, _) => size == 1 || size == 2 || size == 4 || size == 8
    case RefArray(elem, _, _) => WellFormed(elem)
    case MapOf(key, value) =>
      && WellFormed(key) && !key.MapOf? && Expected(key) == 0
      && WellFormed(value) && !value.MapOf? && Expected(value) == 0
    case _ => true
  }

  function Count(v: Val): nat {
    match v
    case Pods(_, count, _) => count
    case Bits(bits) => |bits|
    case Handles(handles) => |handles|
    case Node(second, _) => second
  }

  /** The type of the object behind slot `i`. */
  function KidType(t: Type, i: nat): Type
    requires t.RefArray? || t.MapOf?
  {
    if t.RefArray? then t.elem else if i == 0 then t.key else t.value
  }

  predicate HasType(t: Type, v: Val)
    decreases t
  {
    match t
    case PodArray(size, _) => v.Pods? && v.size == size && |v.data| == Times(size, v.count)
    case BoolArray(_) => v.Bits?
    case HandleArray(_, _) => v.Handles? && forall h | h in v.handles :: h < 0x1_0000_0000
    case RefArray(elem, _, _) =>
      v.Node? && v.second == |v.kids| && forall i | 0 <= i < |v.kids| && v.kids[i].Some? :: HasType(elem, v.kids[i].value)
    case MapOf(key, value) =>
      && v.Node? && v.second == 0 && |v.kids| == 2 && v.kids[0].Some? && v.kids[1].Some?
      && HasType(key, v.kids[0].value) && HasType(value, v.kids[1].value)
      && Count(v.kids[0].value) == Count(v.kids[1].value)
  }

  lemma KidHasType(t: Type, v: Val, i: nat)
    requires HasType(t, v) && v.Node? && i < |v.kids| && v.kids[i].Some?
    ensures t.RefArray? || t.MapOf?
    ensures HasType(KidType(t, i), v.kids[i].value)
  {
  }

  lemma KidWellFormed(t: Type, i: nat)
    requires WellFormed(t) && (t.RefArray? || t.MapOf?)
    ensures WellFormed(KidType(t, i))
  {
  }

  // ---- What serialization accepts ----

  predicate WrongLength(t: Type, v: Val) {
    Expected(t) != 0 && Count(v) != Expected(t)
  }

  /** The first error that serialization meets. */
  function Check(t: Type, v: Val): ValidationError
    requires HasType(t, v)
    decreases t, 0
  {
    if WrongLength(t, v) then UnexpectedArrayHeader
    else match t
      case PodArray(_, _) => NoError
      case BoolArray(_) => NoError
      case HandleArray(nullable, _) => if !nullable && 0 in v.handles then UnexpectedInvalidHandle else NoError
      case RefArray(elem, nullable, _) => CheckKids(elem, nullable, v.kids)
      case MapOf(key, value) =>
        var e := Check(key, v.kids[0].value);
        if e != NoError then e else Check(value, v.kids[1].value)
  }

  function CheckKids(elem: Type, nullable: bool, kids: seq<Option<Val>>): ValidationError
    requires forall i | 0 <= i < |kids| && kids[i].Some? :: HasType(elem, kids[i].value)
    decreases elem, |kids| + 1
  {
    if kids == [] then NoError
    else
      var l := |kids| - 1;
      var e := CheckKids(elem, nullable, kids[..l]);
      if e != NoError then e
      else if kids[l].None? then (if nullable then NoError else UnexpectedNullPointer)
      else Check(elem, kids[l].value)
  }

  lemma {:induction false} CheckKidsAt(elem: Type, nullable: bool, kids: seq<Option<Val>>, i: nat)
    requires forall i | 0 <= i < |kids| && kids[i].Some? :: HasType(elem, kids[i].value)
    requires CheckKids(elem, nullable, kids) == NoError && i < |kids|
    ensures if kids[i].Some? then Check(elem, kids[i].value) == NoError else nullable
    decreases |kids|
  {
    var l := |kids| - 1;
    if i < l {
      CheckKidsAt(elem, nullable, kids[..l], i);
    }
  }

  /** An accepted object has accepted objects behind its pointers, and nulls only
      where the type allows them. */
  lemma CheckKid(t: Type, v: Val, i: nat)
    requires HasType(t, v) && Check(t, v) == NoError && v.Node? && i < |v.kids|
    ensures if v.kids[i].Some? then HasType(KidType(t, i), v.kids[i].value) && Check(KidType(t, i), v.kids[i].value) == NoError
            else t.RefArray? && t.nullable
  {
    if t.RefArray? {
      CheckKidsAt(t.elem, t.nullable, v.kids, i);
    }
  }

  // ---- Sizes ----

  function Align8(n: nat): (r: nat)
    ensures n <= r < n + 8 && r % 8 == 0
  {
    n + (8 - n % 8) % 8
  }

  /** The bytes that the elements of an object take. */
  function Storage(v: Val): nat {
    match v
    case Pods(size, count, _) => Times(size, count)
    case Bits(bits) => (|bits| + 7) / 8
    case Handles(handles) => 4 * |handles|
    case Node(_, kids) => 8 * |kids|
  }

  /** The bytes of the object itself, header included. */
  function Block(v: Val): nat { 8 + Align8(Storage(v)) }

  /** The bytes of an object with everything it points to. */
  function Size(v: Val): nat
    decreases v
  {
    Block(v) + if v.Node? then Before(v.kids, |v.kids|) else 0
  }

  function SizeOf(o: Option<Val>): nat
    decreases o
  {
    if o.None? then 0 else Size(o.value)
  }

  /** The bytes of the objects behind the first `i` pointers. */
  function Before(kids: seq<Option<Val>>, i: nat): nat
    requires i <= |kids|
    decreases kids, i
  {
    if i == 0 then 0 else Before(kids, i - 1) + SizeOf(kids[i - 1])
  }

  lemma {:induction false} BeforeOrder(kids: seq<Option<Val>>, i: nat, j: nat)
    requires i < j <= |kids|
    ensures Before(kids, i) + SizeOf(kids[i]) <= Before(kids, j)
    decreases j
  {
    if i + 1 < j {
      BeforeOrder(kids, i, j - 1);
    }
  }

  /** Sizes are whole words, so every object starts on a word. */
  lemma {:induction false} SizeAligned(v: Val)
    ensures Size(v) % 8 == 0 && Size(v) >= 8
    decreases v
  {
    hide Block, Before;
    BlockAligned(v);
    if v.Node? {
      BeforeAligned(v.kids, |v.kids|);
      WordsAdd(Block(v), Before(v.kids, |v.kids|));
    }
  }

  lemma BlockAligned(v: Val)
    ensures Block(v) % 8 == 0 && Block(v) >= 8
  {
    hide Storage;
    WordsAdd(8, Align8(Storage(v)));
  }

  lemma WordsAdd(x: nat, y: nat)
    requires x % 8 == 0 && y % 8 == 0
    ensures (x + y) % 8 == 0
  {
  }

  lemma {:induction false} BeforeAligned(kids: seq<Option<Val>>, i: nat)
    requires i <= |kids|
    ensures Before(kids, i) % 8 == 0
    decreases kids, i
  {
    if i > 0 {
      BeforeAligned(kids, i - 1);
      SizeOfAligned(kids[i - 1]);
      WordsAdd(Before(kids, i - 1), SizeOf(kids[i - 1]));
    }
  }

  lemma {:induction false} SizeOfAligned(o: Option<Val>)
    ensures SizeOf(o) % 8 == 0
    decreases o
  {
    if o.Some? {
      SizeAligned(o.value);
    }
  }

  /** The number of bits in a byte count fits its 32-bit computation. */
  predicate BitsFit(v: Val)
    decreases v
  {
    match v
    case Bits(bits) => |bits| + 7 < 0x1_0000_0000
    case Node(_, kids) => forall i | 0 <= i < |kids| && kids[i].Some? :: BitsFit(kids[i].value)
    case _ => true
  }

  /** No 32-bit size or offset wraps around. */
  predicate NoWrap(v: Val) {
    Size(v) < 0x1_0000_0000 && BitsFit(v)
  }

  lemma KidNoWrap(v: Val, i: nat)
    requires NoWrap(v) && v.Node? && i < |v.kids| && v.kids[i].Some?
    ensures NoWrap(v.kids[i].value)
  {
    BeforeOrder(v.kids, i, |v.kids|);
  }

  // ---- Handles ----

  function Valid(handles: seq<nat>): seq<nat> {
    if handles == [] then []
    else
      var l := |handles| - 1;
      Valid(handles[..l]) + if handles[l] == 0 then [] else [handles[l]]
  }

  /** The valid handles of a value, in the order in which they are encoded. */
  function HandlesOf(v: Val): seq<nat>
    decreases v
  {
    match v
    case Handles(handles) => Valid(handles)
    case Node(_, kids) => HandlesBefore(kids, |kids|)
    case _ => []
  }

  function HandlesBefore(kids: seq<Option<Val>>, i: nat): seq<nat>
    requires i <= |kids|
    decreases kids, i
  {
    if i == 0 then []
    else HandlesBefore(kids, i - 1) + HandlesIn(kids[i - 1])
  }

  function HandlesIn(o: Option<Val>): seq<nat>
    decreases o
  {
    if o.None? then [] else HandlesOf(o.value)
  }
}
