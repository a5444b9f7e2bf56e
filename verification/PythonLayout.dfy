/**
  The Python side of struct layout.  The generator turns the packed fields into
  a list of groups (one per field, one per byte of booleans) without any
  offsets; the runtime filters the groups by version and lays them out again
  from sizes and alignments alone.
*/
module PythonLayout {
  import opened Layout
  import opened Versions

  const HEADER_SIZE: nat := 8

  /** A field as a group knows it: no offset, no bit. */
  datatype Member = Member(ord: nat, kind: Kind)

  datatype Group = Single(field: Member) | Booleans(fields: seq<Member>)
  {
    function ByteSize(): nat { if Single? then field.kind.size else 1 }
    function Alignment(): (a: nat)
      ensures a in {1, 2, 4, 8}
    {
      if Single? then field.kind.align else 1
    }
  }

  function Members(run: seq<Slot>): (r: seq<Member>)
    ensures |r| == |run|
  {
    seq(|run|, i requires 0 <= i < |run| => Member(run[i].ord, run[i].kind))
  }

  // ------------------------------------------------------------- byte layout

  /** Which fields start in a byte, and whether no field covers it. */
  datatype ByteInfo = ByteInfo(isPadding: bool, packedFields: seq<Slot>)

  function StartingAt(order: seq<Slot>, b: nat): seq<Slot> {
    if order == [] then [] else
      var n := |order| - 1;
      StartingAt(order[..n], b) + (if order[n].offset == b then [order[n]] else [])
  }

  ghost predicate Covered(order: seq<Slot>, b: nat) {
    exists s :: s in order && s.offset <= b < s.End()
  }

  /** The byte list after the slots of `order` have been entered. */
  ghost predicate Entered(bytes: seq<ByteInfo>, order: seq<Slot>, limit: nat) {
    && (forall b | 0 <= b < |bytes| :: bytes[b].packedFields == StartingAt(order, b))
    && (forall b | 0 <= b < |bytes| :: bytes[b].isPadding <==> b < limit && !Covered(order, b))
  }

  function Limit(order: seq<Slot>): nat { if order == [] then 0 else order[|order| - 1].End() }

  /** Marks the padding bytes and collects the fields that start in each byte.
      Every index is in range and no byte is both padding and in use. */
  method GetByteLayout(order: seq<Slot>, numBytes: nat) returns (bytes: seq<ByteInfo>)
    requires Chain(order)
    requires numBytes >= 8
    requires forall s | s in order :: 8 + s.End() <= numBytes
    ensures |bytes| == numBytes - 8
    ensures forall b | 0 <= b < |bytes| :: bytes[b].packedFields == StartingAt(order, b)
    ensures forall b | 0 <= b < |bytes| :: bytes[b].isPadding <==> !Covered(order, b)
    ensures forall b | 0 <= b < |bytes| :: !(bytes[b].isPadding && bytes[b].packedFields != [])
  {
    hide RoundUp, Multiple;
    var total := numBytes - HEADER_SIZE;
    bytes := seq(total, _ => ByteInfo(false, []));
    var limit, n := 0, 0;
    while n < |order|
      invariant 0 <= n <= |order|
      invariant |bytes| == total
      invariant limit == Limit(order[..n]) <= total
      invariant Entered(bytes, order[..n], limit)
    {
      var s := order[n];
      assert s in order;
      ghost var was := bytes;
      bytes := MarkPadding(bytes, limit, s.offset);
      bytes := bytes[s.offset := bytes[s.offset].(packedFields := bytes[s.offset].packedFields + [s])];
      EnterStep(order, n, was, bytes);
      limit := s.offset + s.kind.size;
      n := n + 1;
    }
    assert order[..n] == order;
    ghost var was := bytes;
    bytes := MarkPadding(bytes, limit, total);
    forall b | 0 <= b < total
      ensures bytes[b].isPadding <==> !Covered(order, b)
      ensures !(bytes[b].isPadding && bytes[b].packedFields != [])
    {
      assert was[b].packedFields == StartingAt(order, b);
      if b >= limit { NotCoveredPast(order, b); }
      StartersCover(order, b);
    }
  }

  lemma EnterStep(order: seq<Slot>, n: nat, was: seq<ByteInfo>, bytes: seq<ByteInfo>)
    requires Chain(order) && n < |order| && |bytes| == |was|
    requires Entered(was, order[..n], Limit(order[..n]))
    requires forall b | 0 <= b < |was| ::
      && (bytes[b].isPadding <==> was[b].isPadding || Limit(order[..n]) <= b < order[n].offset)
      && bytes[b].packedFields == was[b].packedFields + if b == order[n].offset then [order[n]] else []
    ensures Entered(bytes, order[..n + 1], order[n].End()) && order[n].End() == Limit(order[..n + 1])
  {
    hide RoundUp, Multiple;
    var head, limit := order[..n], Limit(order[..n]);
    assert order[..n + 1][..n] == head;
    ChainPrefix(order, n);
    EndBeforeStart(order, n);
    forall b | 0 <= b < |bytes| ensures bytes[b].isPadding <==> b < order[n].End() && !Covered(order[..n + 1], b) {
      CoverStep(order, n, b);
      if b >= limit { NotCoveredPast(head, b); }
    }
  }

  method MarkPadding(bytes: seq<ByteInfo>, from: nat, to: nat) returns (r: seq<ByteInfo>)
    requires to <= |bytes|
    ensures |r| == |bytes|
    ensures forall b | 0 <= b < |bytes| :: r[b].packedFields == bytes[b].packedFields
    ensures forall b | 0 <= b < |bytes| :: r[b].isPadding <==> bytes[b].isPadding || from <= b < to
  {
    hide RoundUp, Multiple;
    r := bytes;
    var i := from;
    while i < to
      invariant from <= i <= if from <= to then to else from
      invariant |r| == |bytes|
      invariant forall b | 0 <= b < |bytes| :: r[b].packedFields == bytes[b].packedFields
      invariant forall b | 0 <= b < |bytes| :: r[b].isPadding <==> bytes[b].isPadding || from <= b < i
    {
      r := r[i := r[i].(isPadding := true)];
      i := i + 1;
    }
  }

  /** A slot starts at the limit so far or behind it, or shares the byte that
      ends at the limit. */
  lemma EndBeforeStart(order: seq<Slot>, n: nat)
    requires Chain(order) && n < |order|
    ensures n == 0 ==> order[n].offset == 0
    ensures n > 0 ==> order[n].offset >= order[n - 1].End() || order[n].offset + 1 == order[n - 1].End() == order[n].End()
  {
    hide RoundUp, Multiple;
    if n > 0 { assert Follows(order[n - 1], order[n]); }
  }

  lemma NotCoveredPast(order: seq<Slot>, b: nat)
    requires Chain(order) && (order != [] ==> order[|order| - 1].End() <= b)
    ensures !Covered(order, b)
  {
    hide RoundUp, Multiple;
    forall s | s in order ensures s.End() <= b {
      var i :| 0 <= i < |order| && order[i] == s;
      if i < |order| - 1 { ChainAfter(order, i, |order| - 1); }
    }
  }

  lemma ChainPrefix(order: seq<Slot>, n: nat)
    requires Chain(order) && n <= |order|
    ensures Chain(order[..n])
  {
    hide RoundUp, Multiple;
    forall i | 0 <= i && i + 1 < n ensures Follows(order[..n][i], order[..n][i + 1]) {
      assert Follows(order[i], order[i + 1]);
    }
  }

  lemma CoverStep(order: seq<Slot>, n: nat, b: nat)
    requires n < |order|
    ensures Covered(order[..n + 1], b) <==> Covered(order[..n], b) || order[n].offset <= b < order[n].End()
  {
    hide RoundUp, Multiple;
    assert order[..n + 1] == order[..n] + [order[n]];
    if Covered(order[..n], b) {
      var s :| s in order[..n] && s.offset <= b < s.End();
      assert s in order[..n + 1];
    }
    if order[n].offset <= b < order[n].End() {
      assert order[n] in order[..n + 1];
    }
  }

  lemma {:induction false} StartersCover(order: seq<Slot>, b: nat)
    ensures StartingAt(order, b) != [] ==> Covered(order, b)
  {
    hide RoundUp, Multiple;
    if order != [] {
      var n := |order| - 1;
      StartersCover(order[..n], b);
      if order[n].offset == b {
        assert order[n] in order;
      } else if StartingAt(order[..n], b) != [] {
        var s :| s in order[..n] && s.offset <= b < s.End();
        assert s in order;
      }
    }
  }

  // ------------------------------------------------------------------ groups

  /** The end of the run of slots that start in the same byte as `order[0]`. */
  function RunEnd(order: seq<Slot>, j: nat): (e: nat)
    requires 0 < j <= |order|
    ensures j <= e <= |order|
    ensures forall i | j <= i < e :: order[i].offset == order[0].offset
    ensures e < |order| ==> order[e].offset != order[0].offset
    decreases |order| - j
  {
    if j < |order| && order[j].offset == order[0].offset then RunEnd(order, j + 1) else j
  }

  function GroupOf(run: seq<Slot>): Group
    requires run != []
  {
    if run[0].kind.isBool then Booleans(Members(run)) else Single(Member(run[0].ord, run[0].kind))
  }

  /** One group per byte in which a field starts. */
  function GroupUp(order: seq<Slot>): seq<Group> {
    if order == [] then [] else
      var j := RunEnd(order, 1);
      [GroupOf(order[..j])] + GroupUp(order[j..])
  }

  /** Slots increase; those of one byte are booleans with increasing ordinals
      and consecutive bits, and a new byte starts at bit 0. */
  ghost predicate Orderly(a: Slot, b: Slot) {
    || (a.offset < b.offset && b.bit == 0)
    || (a.offset == b.offset && a.kind.isBool && b.kind.isBool && a.ord < b.ord && b.bit == a.bit + 1)
  }

  ghost predicate Sorted(order: seq<Slot>) {
    forall i | 0 <= i && i + 1 < |order| :: Orderly(order[i], order[i + 1])
  }

  lemma PlaceSorted(order: seq<Slot>, ord: nat, k: Kind)
    requires Chain(order) && Sorted(order)
    requires forall s | s in order :: s.ord < ord
    ensures Sorted(Place(order, ord, k))
  {
    hide RoundUp, Multiple;
    PlaceKeepsChain(order, ord, k);
    PlaceShape(order, ord, k);
    var r, j := Place(order, ord, k), PlaceIndex(order, k);
    forall i | 0 <= i && i + 1 < |r| ensures Orderly(r[i], r[i + 1]) {
      assert Follows(r[i], r[i + 1]);
      if i + 1 < j {
        assert Orderly(order[i], order[i + 1]);
      } else if i + 1 == j {
        assert order[i] in order;
      } else if i == j {
        InsertKeepsFollower(order[i - 1], order[i], ord, k);
      } else {
        assert Orderly(order[i - 1], order[i]);
      }
    }
  }

  lemma {:induction false} PackSorted(kinds: seq<Kind>)
    ensures Sorted(Pack(kinds))
  {
    hide RoundUp, Multiple;
    if kinds != [] {
      var n := |kinds| - 1;
      PackSorted(kinds[..n]);
      PackIsChain(kinds[..n]);
      PackNames(kinds[..n]);
      PlaceSorted(Pack(kinds[..n]), n, kinds[n]);
    }
  }

  lemma SortedFrom(order: seq<Slot>, j: nat)
    requires Sorted(order) && j <= |order|
    ensures Sorted(order[j..]) && Sorted(order[..j])
  {
    hide RoundUp, Multiple;
    forall i | 0 <= i && i + 1 < |order| - j ensures Orderly(order[j..][i], order[j..][i + 1]) {
      assert Orderly(order[j + i], order[j + i + 1]);
    }
    forall i | 0 <= i && i + 1 < j ensures Orderly(order[..j][i], order[..j][i + 1]) {
      assert Orderly(order[i], order[i + 1]);
    }
  }

  lemma {:induction false} SortedOffsets(order: seq<Slot>, i: nat, j: nat)
    requires Sorted(order) && i < j < |order|
    ensures order[i].offset <= order[j].offset
  {
    hide RoundUp, Multiple;
    if i < j - 1 { SortedOffsets(order, i, j - 1); }
    assert Orderly(order[j - 1], order[j - 1 + 1]);
  }

  /** What a run of slots in one byte looks like. */
  lemma {:induction false} RunShape(order: seq<Slot>, i: nat)
    requires Sorted(order) && order != [] && i < RunEnd(order, 1)
    ensures order[i].offset == order[0].offset
    ensures order[i].bit == order[0].bit + i
    ensures i > 0 ==> order[0].kind.isBool && order[i].kind.isBool && order[0].ord < order[i].ord
  {
    hide RoundUp, Multiple;
    if i > 0 {
      RunShape(order, i - 1);
      assert Orderly(order[i - 1], order[i - 1 + 1]);
    }
  }

  // ----------------------------------------------------------- group filter

  /** The version of the field with ordinal `ord`. */
  function VersionOf(versions: seq<nat>, ord: nat): nat {
    if ord < |versions| then versions[ord] else 0
  }

  function FilterMembers(ms: seq<Member>, versions: seq<nat>, v: nat): seq<Member> {
    if ms == [] then [] else
      (if VersionOf(versions, ms[0].ord) <= v then [ms[0]] else []) + FilterMembers(ms[1..], versions, v)
  }

  function MinVersion(ms: seq<Member>, versions: seq<nat>): (r: nat)
    requires ms != []
    ensures forall m | m in ms :: r <= VersionOf(versions, m.ord)
    ensures exists m :: m in ms && r == VersionOf(versions, m.ord)
  {
    var first := VersionOf(versions, ms[0].ord);
    assert ms[0] in ms;
    if |ms| == 1 then first else
      var rest := MinVersion(ms[1..], versions);
      if first <= rest then first else rest
  }

  /** A group as version `v` sees it: absent, whole, or cut down to its members
      of version `v` or older. */
  function FilterGroup(g: Group, versions: seq<nat>, v: nat): seq<Group> {
    match g
    case Single(m) => if VersionOf(versions, m.ord) <= v then [g] else []
    case Booleans(ms) =>
      if ms != [] && MinVersion(ms, versions) <= v then [Booleans(FilterMembers(ms, versions, v))] else []
  }

  function FilterGroups(groups: seq<Group>, versions: seq<nat>, v: nat): seq<Group> {
    if groups == [] then [] else FilterGroup(groups[0], versions, v) + FilterGroups(groups[1..], versions, v)
  }

  /** `versions` puts exactly the first `n` fields in version `v`. */
  ghost predicate Cut(versions: seq<nat>, v: nat, n: nat) {
    n <= |versions| && forall i | 0 <= i < |versions| :: versions[i] <= v <==> i < n
  }

  ghost predicate InRange(order: seq<Slot>, n: nat) {
    forall s | s in order :: s.ord < n
  }

  lemma {:induction false} FilterMembersPrefix(run: seq<Slot>, versions: seq<nat>, v: nat, n: nat)
    requires Cut(versions, v, n) && InRange(run, |versions|)
    ensures FilterMembers(Members(run), versions, v) == Members(Truncated(run, n))
  {
    hide RoundUp, Multiple;
    if run != [] {
      assert run[0] in run;
      FilterMembersPrefix(run[1..], versions, v, n);
      assert Members(run)[1..] == Members(run[1..]);
      assert Members(Truncated(run, n)) ==
        Members(if run[0].ord < n then [run[0]] else []) + Members(Truncated(run[1..], n));
    }
  }

  lemma {:induction false} TruncatedNone(order: seq<Slot>, n: nat)
    requires forall s | s in order :: n <= s.ord
    ensures Truncated(order, n) == []
  {
    hide RoundUp, Multiple;
    if order != [] {
      assert order[0] in order;
      TruncatedNone(order[1..], n);
    }
  }

  lemma {:induction false} TruncatedSubset(order: seq<Slot>, n: nat, s: Slot)
    requires s in Truncated(order, n)
    ensures s in order && s.ord < n
  {
    hide RoundUp, Multiple;
    if s !in Truncated(order[1..], n) {
      assert s == order[0];
    } else {
      TruncatedSubset(order[1..], n, s);
    }
  }

  /** A run that ends before slots of a later byte becomes one group. */
  lemma GroupUpRun(run: seq<Slot>, rest: seq<Slot>)
    requires run != []
    requires forall s | s in run :: s.offset == run[0].offset
    requires rest != [] ==> rest[0].offset != run[0].offset
    ensures GroupUp(run + rest) == [GroupOf(run)] + GroupUp(rest)
  {
    hide RoundUp, Multiple;
    var order := run + rest;
    assert forall i | 0 <= i < |run| :: order[i] == run[i] && run[i] in run;
    var j := RunEnd(order, 1);
    assert rest != [] ==> order[|run|] == rest[0];
    assert order[..j] == run && order[j..] == rest;
  }

  lemma RunFilter(run: seq<Slot>, versions: seq<nat>, v: nat, n: nat)
    requires run != [] && Cut(versions, v, n) && InRange(run, |versions|)
    requires !run[0].kind.isBool ==> |run| == 1
    requires forall i | 0 < i < |run| :: run[0].ord < run[i].ord
    ensures FilterGroup(GroupOf(run), versions, v)
      == if run[0].ord < n then [GroupOf(Truncated(run, n))] else []
    ensures run[0].ord < n ==> Truncated(run, n) != [] && Truncated(run, n)[0] == run[0]
    ensures run[0].ord >= n ==> Truncated(run, n) == []
  {
    hide RoundUp, Multiple;
    assert forall i | 0 <= i < |run| :: run[i] in run;
    if run[0].ord >= n {
      TruncatedNone(run, n);
    }
    if run[0].kind.isBool {
      var ms := Members(run);
      assert forall i | 0 <= i < |run| :: ms[i].ord == run[i].ord;
      assert ms[0] in ms;
      FilterMembersPrefix(run, versions, v, n);
    } else {
      assert run[1..] == [];
    }
  }

  lemma TruncatedRun(order: seq<Slot>, j: nat, n: nat)
    requires Sorted(order) && order != [] && j == RunEnd(order, 1)
    ensures var t, u := Truncated(order[..j], n), Truncated(order[j..], n);
      Truncated(order, n) == t + u && (t != [] ==> GroupUp(t + u) == [GroupOf(t)] + GroupUp(u))
  {
    hide GroupOf, GroupUp, RoundUp, Multiple;
    var run, rest := order[..j], order[j..];
    var t, u := Truncated(run, n), Truncated(rest, n);
    assert order == run + rest;
    TruncatedConcat(run, rest, n);
    if t != [] {
      forall s | s in t ensures s.offset == order[0].offset {
        TruncatedSubset(run, n, s);
        var i :| 0 <= i < |run| && run[i] == s;
        RunShape(order, i);
      }
      if u != [] {
        TruncatedSubset(rest, n, u[0]);
        RestIsLater(order, j, u[0]);
      }
      GroupUpRun(t, u);
    }
  }

  /** Filtering the groups is grouping the filtered slots. */
  lemma {:induction false} FilterGroupUp(order: seq<Slot>, versions: seq<nat>, v: nat, n: nat)
    requires Sorted(order) && Cut(versions, v, n) && InRange(order, |versions|)
    ensures FilterGroups(GroupUp(order), versions, v) == GroupUp(Truncated(order, n))
  {
    hide GroupOf, GroupUp, RoundUp, Multiple, RunEnd, FilterGroup;
    if order == [] {
      GroupUpNil();
    } else {
      var j := RunEnd(order, 1);
      var run, rest := order[..j], order[j..];
      SortedFrom(order, j);
      FilterGroupUp(rest, versions, v, n);
      forall i | 0 <= i < j ensures i > 0 ==> run[0].ord < run[i].ord && run[0].kind.isBool {
        RunShape(order, i);
      }
      if j > 1 { RunShape(order, 1); }
      RunFilter(run, versions, v, n);
      GroupUpCons(order);
      TruncatedRun(order, j, n);
      if Truncated(run, n) == [] {
        assert Truncated(run, n) + Truncated(rest, n) == Truncated(rest, n);
      }
    }
  }

  lemma RestIsLater(order: seq<Slot>, j: nat, s: Slot)
    requires Sorted(order) && order != [] && j == RunEnd(order, 1) && s in order[j..]
    ensures order[0].offset < s.offset
  {
    hide RoundUp, Multiple;
    var i :| 0 <= i < |order[j..]| && order[j..][i] == s;
    SortedOffsets(order, 0, j);
    if i > 0 { SortedOffsets(order, j, j + i); }
  }

  // ---------------------------------------------------------------- relayout

  function SlotsAt(g: Group, at: nat): seq<Slot> {
    match g
    case Single(m) => [Slot(m.ord, m.kind, at, 0)]
    case Booleans(ms) => seq(|ms|, i requires 0 <= i < |ms| => Slot(ms[i].ord, ms[i].kind, at, i))
  }

  /** The slots the runtime gives the groups from position `index` on. */
  function Relayout(groups: seq<Group>, index: nat): seq<Slot> {
    if groups == [] then [] else
      var at := RoundUp(index, groups[0].Alignment());
      SlotsAt(groups[0], at) + Relayout(groups[1..], at + groups[0].ByteSize())
  }

  function EndIndex(groups: seq<Group>, index: nat): nat {
    if groups == [] then index else
      EndIndex(groups[1..], RoundUp(index, groups[0].Alignment()) + groups[0].ByteSize())
  }

  /** The runtime's layout loop: pad, place, advance, and pad the end to 8. */
  method GetStruct(groups: seq<Group>) returns (slots: seq<Slot>, size: nat)
    ensures slots == Relayout(groups, 0)
    ensures size == RoundUp(EndIndex(groups, 0), 8)
  {
    hide RoundUp, Multiple, Relayout, EndIndex;
    assert groups[0..] == groups;
    slots := [];
    var index: nat, i := 0, 0;
    while i < |groups|
      invariant 0 <= i <= |groups|
      invariant slots + Relayout(groups[i..], index) == Relayout(groups, 0)
      invariant EndIndex(groups[i..], index) == EndIndex(groups, 0)
    {
      var g := groups[i];
      assert groups[i..] == [g] + groups[i + 1..];
      RelayoutStep(g, groups[i + 1..], index, RoundUp(index, g.Alignment()));
      index := index + NeededPaddingForAlignment(index, g.Alignment());
      slots := slots + SlotsAt(g, index);
      index := index + g.ByteSize();
      i := i + 1;
    }
    RelayoutNil(index);
    assert groups[i..] == [] && slots + [] == slots;
    size := index + NeededPaddingForAlignment(index, 8);
  }

  /** The runtime's padding, written out for the alignments that occur. */
  function NeededPaddingForAlignment(value: nat, alignment: nat): (pad: nat)
    requires alignment in {1, 2, 4, 8}
    ensures value + pad == RoundUp(value, alignment)
  {
    if alignment == 1 then 0
    else if alignment == 2 then if value % 2 != 0 then 2 - value % 2 else 0
    else if alignment == 4 then if value % 4 != 0 then 4 - value % 4 else 0
    else if value % 8 != 0 then 8 - value % 8 else 0
  }

  /** `order` continues a chain that has reached `index`. */
  ghost predicate Continues(order: seq<Slot>, index: nat) {
    && (order != [] ==> order[0].bit == 0 && order[0].offset == RoundUp(index, order[0].kind.align))
    && (forall i | 0 <= i && i + 1 < |order| :: Follows(order[i], order[i + 1]))
  }

  lemma RunSlots(order: seq<Slot>, j: nat)
    requires Sorted(order) && order != [] && j == RunEnd(order, 1) && order[0].bit == 0
    ensures SlotsAt(GroupOf(order[..j]), order[0].offset) == order[..j]
    ensures order[0].offset + GroupOf(order[..j]).ByteSize() == order[j - 1].End()
    ensures GroupOf(order[..j]).Alignment() == order[0].kind.align
  {
    hide RoundUp, Multiple;
    forall i | 0 <= i < j ensures order[i].offset == order[0].offset && order[i].bit == i
                                  && (i > 0 ==> order[0].kind.isBool && order[i].kind.isBool)
    {
      RunShape(order, i);
    }
    var g := GroupOf(order[..j]);
    if order[0].kind.isBool {
      forall i | 0 <= i < j ensures SlotsAt(g, order[0].offset)[i] == order[i] {}
    }
  }

  lemma RoundUpZero(align: nat)
    requires align in {1, 2, 4, 8}
    ensures RoundUp(0, align) == 0
  {
  }

  lemma RestContinues(order: seq<Slot>, index: nat, j: nat)
    requires Sorted(order) && Continues(order, index) && order != [] && j == RunEnd(order, 1)
    ensures Sorted(order[j..]) && Continues(order[j..], order[j - 1].End())
  {
    hide RoundUp, Multiple;
    var rest := order[j..];
    SortedFrom(order, j);
    if rest != [] {
      assert Follows(order[j - 1], order[j - 1 + 1]);
      assert Orderly(order[j - 1], order[j - 1 + 1]);
      RunShape(order, j - 1);
    }
    forall i | 0 <= i && i + 1 < |rest| ensures Follows(rest[i], rest[i + 1]) {
      assert Follows(order[j + i], order[j + i + 1]);
    }
  }

  lemma RelayoutNil(index: nat)
    ensures Relayout([], index) == [] && EndIndex([], index) == index
  {
  }

  lemma RelayoutStep(g: Group, rest: seq<Group>, index: nat, at: nat)
    requires at == RoundUp(index, g.Alignment())
    ensures Relayout([g] + rest, index) == SlotsAt(g, at) + Relayout(rest, at + g.ByteSize())
    ensures EndIndex([g] + rest, index) == EndIndex(rest, at + g.ByteSize())
  {
    hide RoundUp, Multiple;
    assert ([g] + rest)[1..] == rest;
  }

  lemma {:induction false} RelayoutGroupUp(order: seq<Slot>, index: nat)
    requires Sorted(order) && Continues(order, index)
    ensures Relayout(GroupUp(order), index) == order
    ensures EndIndex(GroupUp(order), index) == if order == [] then index else order[|order| - 1].End()
  {
    hide RoundUp, Multiple, Relayout, EndIndex, GroupOf, GroupUp, RunEnd, Sorted;
    if order == [] {
      RelayoutNil(index);
      GroupUpNil();
    } else {
      var j := RunEnd(order, 1);
      GroupUpCons(order);
      RunSlots(order, j);
      RestContinues(order, index, j);
      RelayoutGroupUp(order[j..], order[j - 1].End());
      RelayoutStep(GroupOf(order[..j]), GroupUp(order[j..]), index, order[0].offset);
      assert order == order[..j] + order[j..];
    }
  }

  /** Laying out again the groups that exist in version `v`, knowing only sizes,
      alignments and versions, gives the offsets and bits the compiler computed
      for the whole struct, and the byte size in the table entry that governs
      `v`. */
  lemma VersionRelayout(fields: seq<FieldDecl>, v: nat, k: nat)
    requires VersionInfo(fields).Ok? && Governs(VersionInfo(fields).value, k, v)
    ensures var entry := VersionInfo(fields).value[k];
      var versions := seq(|fields|, i requires 0 <= i < |fields| => fields[i].Version());
      var groups := FilterGroups(GroupUp(Pack(Kinds(fields))), versions, v);
      && Relayout(groups, 0) == Truncated(Pack(Kinds(fields)), entry.numFields)
      && 8 + RoundUp(EndIndex(groups, 0), 8) == entry.numBytes
  {
    hide RoundUp, Multiple;
    var kinds, n := Kinds(fields), VersionInfo(fields).value[k].numFields;
    var versions := seq(|fields|, i requires 0 <= i < |fields| => fields[i].Version());
    var order := Pack(kinds);
    VersionEntryIsTruncation(fields, k);
    forall i | 0 <= i < |fields| ensures versions[i] <= v <==> i < n { FieldsOfVersion(fields, v, k, i); }
    PackSorted(kinds);
    PackNames(kinds);
    FilterGroupUp(order, versions, v, n);
    TruncatedPack(kinds, n);
    assert Kinds(fields[..n]) == kinds[..n];
    RelayoutPack(kinds[..n]);
  }

  /** The runtime's layout of a whole struct is the compiler's. */
  lemma RelayoutPack(kinds: seq<Kind>)
    ensures Relayout(GroupUp(Pack(kinds)), 0) == Pack(kinds)
    ensures 8 + RoundUp(EndIndex(GroupUp(Pack(kinds)), 0), 8) == PayloadSize(kinds, |kinds|)
  {
    hide RoundUp, Multiple;
    RoundUpZero(8);
    PackSorted(kinds);
    PackIsChain(kinds);
    PayloadSizeIsLastEnd(kinds);
    var order := Pack(kinds);
    if order != [] { RoundUpZero(order[0].kind.align); }
    RelayoutGroupUp(order, 0);
  }

  // ----------------------------------------------------- groups from bytes

  lemma {:induction false} StartingAtRun(order: seq<Slot>, b: nat, m: nat, e: nat)
    requires m <= e <= |order|
    requires forall i | 0 <= i < |order| :: order[i].offset == b <==> m <= i < e
    ensures StartingAt(order, b) == order[m..e]
  {
    hide RoundUp, Multiple;
    if order != [] {
      var n := |order| - 1;
      if m <= n < e {
        StartingAtRun(order[..n], b, m, n);
        assert order[m..e] == order[..n][m..n] + [order[n]];
      } else if e <= n {
        StartingAtRun(order[..n], b, m, e);
        assert order[m..e] == order[..n][m..e];
      } else {
        StartingAtRun(order[..n], b, n, n);
        assert order[m..e] == [];
      }
    }
  }

  /** The generator's groups, byte by byte; a byte of another kind than bool
      holds the start of one field only. */
  method GetFieldGroups(order: seq<Slot>, bytes: seq<ByteInfo>) returns (groups: seq<Group>)
    requires Sorted(order)
    requires forall i | 0 <= i < |order| :: order[i].offset < |bytes|
    requires forall b | 0 <= b < |bytes| :: bytes[b].packedFields == StartingAt(order, b)
    ensures groups == GroupUp(order)
    ensures forall b | 0 <= b < |bytes| && bytes[b].packedFields != [] && !bytes[b].packedFields[0].kind.isBool ::
      |bytes[b].packedFields| == 1
  {
    hide RoundUp, Multiple, GroupUp, GroupOf, StartingAt, Sorted;
    groups := [];
    ghost var m := 0;
    var b := 0;
    while b < |bytes|
      invariant 0 <= b <= |bytes| && 0 <= m <= |order|
      invariant forall i | 0 <= i < |order| :: i < m <==> order[i].offset < b
      invariant groups + GroupUp(order[m..]) == GroupUp(order)
      invariant forall c | 0 <= c < b && bytes[c].packedFields != [] && !bytes[c].packedFields[0].kind.isBool ::
        |bytes[c].packedFields| == 1
    {
      ghost var e := ByteRun(order, b, m);
      var run := bytes[b].packedFields;
      assert run == order[m..e];
      if run != [] {
        assert m < e;
        groups := groups + [GroupOf(run)];
      }
      m := e;
      b := b + 1;
    }
    NoneLeft(order, m, b);
    assert GroupUp([]) == [] by { GroupUpNil(); }
    assert groups + [] == groups;
  }

  lemma NoneLeft(order: seq<Slot>, m: nat, n: nat)
    requires m <= |order|
    requires forall i | 0 <= i < |order| :: order[i].offset < n
    requires forall i | 0 <= i < |order| :: i < m <==> order[i].offset < n
    ensures order[m..] == []
  {
    var last := |order| - 1;
    assert order == [] || (order[last].offset < n && last < m);
  }

  lemma GroupUpCons(order: seq<Slot>)
    requires order != []
    ensures var j := RunEnd(order, 1); GroupUp(order) == [GroupOf(order[..j])] + GroupUp(order[j..])
  {
    hide GroupOf, RunEnd;
  }

  lemma GroupUpNil()
    ensures GroupUp([]) == []
  {
  }

  lemma ByteRun(order: seq<Slot>, b: nat, m: nat) returns (e: nat)
    requires Sorted(order) && m <= |order|
    requires forall i | 0 <= i < |order| :: i < m <==> order[i].offset < b
    ensures m <= e <= |order|
    ensures StartingAt(order, b) == order[m..e]
    ensures forall i | 0 <= i < |order| :: i < e <==> order[i].offset < b + 1
    ensures GroupUp(order[m..]) == (if m == e then [] else [GroupOf(order[m..e])]) + GroupUp(order[e..])
    ensures m < e && !order[m].kind.isBool ==> e == m + 1
  {
    hide RoundUp, Multiple, GroupOf, StartingAt;
    if m == |order| || order[m].offset != b {
      e := m;
      forall i | m <= i < |order| ensures b < order[i].offset {
        if i > m { SortedOffsets(order, m, i); }
      }
    } else {
      var rest := order[m..];
      SortedFrom(order, m);
      var j := RunEnd(rest, 1);
      e := m + j;
      forall i | 0 <= i < j ensures rest[i].offset == b && (i > 0 ==> rest[0].kind.isBool) { RunShape(rest, i); }
      forall i | e <= i < |order| ensures b < order[i].offset {
        RestIsLater(rest, j, rest[j..][i - e]);
      }
      assert order[m..e] == rest[..j] && order[e..] == rest[j..];
    }
    forall i | 0 <= i < |order| ensures order[i].offset == b <==> m <= i < e {
      if m <= i < e { assert order[i] == order[m..][i - m]; }
    }
    StartingAtRun(order, b, m, e);
  }
}
