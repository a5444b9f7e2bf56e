/**
  Payload sizes and the version table of a struct.
*/
module Versions {
  import opened Layout

  const STRUCT_HEADER_SIZE: nat := 8

  datatype Result<+T, +E> = Ok(value: T) | Err(error: E)

  /** The MinVersion attribute of a field: missing, not a uint32, or a value. */
  datatype MinVersionAttr = Absent | Illformed | Given(value: nat)

  datatype FieldDecl = FieldDecl(kind: Kind, attr: MinVersionAttr, allowedInNonZeroVersion: bool)
  {
    /** The value the compiler reads for the field; 0 when there is none. */
    function Version(): nat { if attr.Given? then attr.value else 0 }
  }

  datatype StructVersion = StructVersion(versionNumber: nat, numFields: nat, numBytes: nat)

  datatype VersionError = OutOfOrder(field: nat) | BadValue(field: nat) | NotNullable(field: nat)

  function Kinds(fields: seq<FieldDecl>): (r: seq<Kind>)
    ensures |r| == |fields| && forall i | 0 <= i < |r| :: r[i] == fields[i].kind
  {
    seq(|fields|, i requires 0 <= i < |fields| => fields[i].kind)
  }

  function Max(a: nat, b: nat): nat { if a < b then b else a }

  /** Bytes of a struct, header included, that ends with slot `s`. */
  function PayloadSizeWith(s: Slot): nat {
    STRUCT_HEADER_SIZE + RoundUp(s.End(), 8)
  }

  /** The running maximum over the first `n` fields in ordinal order. */
  function PayloadSize(kinds: seq<Kind>, n: nat): nat
    requires n <= |kinds|
  {
    if n == 0 then STRUCT_HEADER_SIZE
    else Max(PayloadSize(kinds, n - 1), PayloadSizeWith(SlotOf(kinds, n - 1)))
  }

  // ------------------------------------------------------------ payload size

  lemma RoundUp8Mono(a: nat, b: nat)
    requires a <= b
    ensures RoundUp(a, 8) <= RoundUp(b, 8)
  {
    hide RoundUp, Multiple;
    RoundUpLeast(a, 8, RoundUp(b, 8));
  }

  lemma {:induction false} PayloadSizeCovers(kinds: seq<Kind>, n: nat, i: nat)
    requires i < n <= |kinds|
    ensures PayloadSizeWith(SlotOf(kinds, i)) <= PayloadSize(kinds, n)
  {
    hide RoundUp, Multiple;
    if i < n - 1 {
      PayloadSizeCovers(kinds, n - 1, i);
    }
  }

  lemma {:induction false} PayloadSizeAttained(kinds: seq<Kind>, n: nat, bound: nat)
    requires n <= |kinds| && STRUCT_HEADER_SIZE <= bound
    requires forall i | 0 <= i < n :: PayloadSizeWith(SlotOf(kinds, i)) <= bound
    ensures PayloadSize(kinds, n) <= bound
  {
    hide RoundUp, Multiple;
    if n > 0 {
      PayloadSizeAttained(kinds, n - 1, bound);
    }
  }

  /** The maximum over ordinal order is reached at the last slot in packing order. */
  lemma PayloadSizeIsLastEnd(kinds: seq<Kind>)
    ensures var order := Pack(kinds);
      PayloadSize(kinds, |kinds|)
        == if order == [] then 8 else 8 + RoundUp(order[|order| - 1].End(), 8)
  {
    hide RoundUp, Multiple, SlotOf, Pack;
    var order := Pack(kinds);
    if order != [] {
      PackIsChain(kinds);
      PackNames(kinds);
      var last := order[|order| - 1];
      SlotOfIsPacked(kinds, last.ord);
      assert last in order;
      PayloadSizeCovers(kinds, |kinds|, last.ord);
      forall i | 0 <= i < |kinds| ensures PayloadSizeWith(SlotOf(kinds, i)) <= PayloadSizeWith(last) {
        SlotOfIsPacked(kinds, i);
        var p :| 0 <= p < |order| && order[p] == SlotOf(kinds, i);
        if p < |order| - 1 {
          ChainAfter(order, p, |order| - 1);
        }
        RoundUp8Mono(order[p].End(), last.End());
      }
      PayloadSizeAttained(kinds, |kinds|, PayloadSizeWith(last));
    }
  }

  /** Sum of the field sizes, each rounded up to 8. */
  function RoundedSum(order: seq<Slot>): nat {
    if order == [] then 0
    else RoundedSum(order[..|order| - 1]) + RoundUp(order[|order| - 1].kind.size, 8)
  }

  function RoundedKindSum(kinds: seq<Kind>): nat {
    if kinds == [] then 0
    else RoundedKindSum(kinds[..|kinds| - 1]) + RoundUp(kinds[|kinds| - 1].size, 8)
  }

  lemma RoundUpTo8(prev: nat, align: nat)
    requires align in {1, 2, 4, 8}
    ensures RoundUp(prev, align) <= RoundUp(prev, 8)
  {
    hide RoundUp, Multiple;
    MultipleOf8(RoundUp(prev, 8), align);
    RoundUpLeast(prev, align, RoundUp(prev, 8));
  }

  lemma MultipleOf8Sum(x: nat, y: nat)
    requires Multiple(x, 8) && Multiple(y, 8)
    ensures Multiple(x + y, 8)
  {
    assert x + y == 8 * (x / 8 + y / 8);
  }

  lemma RoundUp8Add(a: nat, b: nat)
    ensures RoundUp(a + b, 8) <= RoundUp(a, 8) + RoundUp(b, 8)
  {
    hide RoundUp, Multiple;
    MultipleOf8Sum(RoundUp(a, 8), RoundUp(b, 8));
    RoundUpLeast(a + b, 8, RoundUp(a, 8) + RoundUp(b, 8));
  }

  lemma RoundUp8Idem(a: nat)
    ensures RoundUp(RoundUp(a, 8), 8) == RoundUp(a, 8)
  {
    hide RoundUp, Multiple;
    RoundUpLeast(RoundUp(a, 8), 8, RoundUp(a, 8));
  }

  lemma RoundUpStep(prev: nat, size: nat, align: nat)
    requires align in {1, 2, 4, 8}
    ensures RoundUp(RoundUp(prev, align) + size, 8) <= RoundUp(prev, 8) + RoundUp(size, 8)
  {
    hide RoundUp, Multiple;
    RoundUpTo8(prev, align);
    RoundUp8Mono(RoundUp(prev, align), RoundUp(prev, 8));
    RoundUp8Idem(prev);
    RoundUp8Add(RoundUp(prev, align), size);
  }

  lemma {:induction false} ChainEndBound(order: seq<Slot>)
    requires Chain(order) && order != []
    ensures RoundUp(order[|order| - 1].End(), 8) <= RoundedSum(order)
  {
    hide RoundUp, Multiple;
    var n := |order| - 1;
    if n > 0 {
      var head := order[..n];
      forall i | 0 <= i && i + 1 < |head| ensures Follows(head[i], head[i + 1]) {
        assert Follows(order[i], order[i + 1]);
      }
      ChainEndBound(head);
      assert Follows(order[n - 1], order[n]);
      RoundUpStep(order[n - 1].End(), order[n].kind.size, order[n].kind.align);
    }
  }

  lemma {:induction false} RoundedSumConcat(a: seq<Slot>, b: seq<Slot>)
    ensures RoundedSum(a + b) == RoundedSum(a) + RoundedSum(b)
  {
    hide RoundUp, Multiple;
    if b == [] {
      assert a + b == a;
    } else {
      var n := |b| - 1;
      assert (a + b)[..|a + b| - 1] == a + b[..n];
      RoundedSumConcat(a, b[..n]);
    }
  }

  lemma {:induction false} RoundedSumPack(kinds: seq<Kind>)
    ensures RoundedSum(Pack(kinds)) == RoundedKindSum(kinds)
  {
    hide RoundUp, Multiple;
    if kinds != [] {
      var n := |kinds| - 1;
      RoundedSumPack(kinds[..n]);
      RoundedSumPlace(Pack(kinds[..n]), n, kinds[n]);
    }
  }

  lemma RoundedSumPlace(order: seq<Slot>, ord: nat, k: Kind)
    ensures RoundedSum(Place(order, ord, k)) == RoundedSum(order) + RoundUp(k.size, 8)
  {
    hide RoundUp, Multiple;
    var x := Placed(order, ord, k);
    assert RoundedSum([x]) == RoundUp(k.size, 8) by { assert [x][..0] == []; }
    if order != [] {
      var j := FitIndex(order, k, 0);
      var a, b := order[..j + 1], order[j + 1..];
      assert order == a + b;
      RoundedSumConcat(a + [x], b);
      RoundedSumConcat(a, [x]);
      RoundedSumConcat(a, b);
    }
  }

  lemma MultipleOf8Plus(x: nat)
    requires Multiple(x, 8)
    ensures Multiple(STRUCT_HEADER_SIZE + x, 8)
  {
  }

  lemma MultipleOf8Zero()
    ensures Multiple(0, 8)
  {
  }

  lemma {:induction false} PayloadSizeMultiple(kinds: seq<Kind>, n: nat)
    requires n <= |kinds|
    ensures Multiple(PayloadSize(kinds, n), 8)
  {
    hide RoundUp, Multiple;
    if n > 0 {
      PayloadSizeMultiple(kinds, n - 1);
      MultipleOf8Plus(RoundUp(SlotOf(kinds, n - 1).End(), 8));
    } else {
      assert Multiple(0, 8) by { MultipleOf8Zero(); }
      MultipleOf8Plus(0);
    }
  }

  lemma PayloadSizeUpper(kinds: seq<Kind>)
    ensures PayloadSize(kinds, |kinds|) <= 8 + RoundedKindSum(kinds)
  {
    hide RoundUp, Multiple;
    PayloadSizeIsLastEnd(kinds);
    PackIsChain(kinds);
    RoundedSumPack(kinds);
    var order := Pack(kinds);
    if order != [] {
      ChainEndBound(order);
    }
  }

  /** The struct size is a multiple of 8 that covers every field and stays below
      the header plus the field sizes each rounded up to 8. */
  lemma PayloadSizeBounds(kinds: seq<Kind>)
    ensures var n := PayloadSize(kinds, |kinds|);
      && Multiple(n, 8)
      && (forall s | s in Pack(kinds) :: 8 + s.End() <= n)
      && n <= 8 + RoundedKindSum(kinds)
  {
    hide RoundUp, Multiple;
    PayloadSizeMultiple(kinds, |kinds|);
    PayloadSizeUpper(kinds);
    PackNames(kinds);
    forall s | s in Pack(kinds) ensures STRUCT_HEADER_SIZE + s.End() <= PayloadSize(kinds, |kinds|) {
      SlotOfIsPacked(kinds, s.ord);
      PayloadSizeCovers(kinds, |kinds|, s.ord);
    }
  }

  // ----------------------------------------------------------- version table

  datatype VersionState = VersionState(info: seq<StructVersion>, previous: nat, size: nat)

  /** The state of the version computation after the first `n` fields. */
  function VersionFold(fields: seq<FieldDecl>, n: nat): Result<VersionState, VersionError>
    requires n <= |fields|
  {
    if n == 0 then Ok(VersionState([], 0, STRUCT_HEADER_SIZE)) else
      match VersionFold(fields, n - 1)
      case Err(e) => Err(e)
      case Ok(st) => VersionStep(fields[n - 1], n - 1, PayloadSizeWith(SlotOf(Kinds(fields), n - 1)), st)
  }

  /** The checks on one MinVersion attribute, in the order they are made. */
  function CheckMinVersion(i: nat, f: FieldDecl, previous: nat): (r: Result<(), VersionError>)
    ensures r.Ok? <==>
      !f.attr.Illformed? && previous <= f.Version() && (f.Version() != 0 ==> f.allowedInNonZeroVersion)
  {
    if f.attr.Absent? && previous != 0 then Err(OutOfOrder(i))
    else if f.attr.Illformed? then Err(BadValue(i))
    else if f.attr.Given? && f.attr.value < previous then Err(OutOfOrder(i))
    else if f.Version() != 0 && !f.allowedInNonZeroVersion then Err(NotNullable(i))
    else Ok(())
  }

  /** One round of the field loop; `bytes` is the struct size that covers field `i`. */
  function VersionStep(f: FieldDecl, i: nat, bytes: nat, st: VersionState): Result<VersionState, VersionError> {
    match CheckMinVersion(i, f, st.previous)
    case Err(e) => Err(e)
    case Ok(_) =>
      var later := f.Version() > st.previous;
      Ok(VersionState(
        if later then st.info + [StructVersion(st.previous, i, st.size)] else st.info,
        if later then f.Version() else st.previous,
        Max(st.size, bytes)))
  }

  function VersionInfo(fields: seq<FieldDecl>): Result<seq<StructVersion>, VersionError> {
    match VersionFold(fields, |fields|)
    case Err(e) => Err(e)
    case Ok(st) => Ok(st.info + [StructVersion(st.previous, |fields|, st.size)])
  }

  /** What the compiler demands of the MinVersion attributes. */
  ghost predicate VersionsLegal(fields: seq<FieldDecl>, n: nat)
    requires n <= |fields|
  {
    && (forall i | 0 <= i < n :: !fields[i].attr.Illformed?)
    && (forall i | 0 <= i < n && fields[i].Version() != 0 :: fields[i].allowedInNonZeroVersion)
    && (forall i, j | 0 <= i < j < n :: fields[i].Version() <= fields[j].Version())
  }

  ghost predicate Increasing(info: seq<StructVersion>) {
    forall k | 0 <= k && k + 1 < |info| :: info[k].versionNumber < info[k + 1].versionNumber
  }

  lemma {:induction false} LastIsMax(info: seq<StructVersion>, k: nat)
    requires k < |info| && Increasing(info)
    ensures info[k].versionNumber <= info[|info| - 1].versionNumber
    decreases |info| - k
  {
    hide RoundUp, Multiple;
    if k + 1 < |info| {
      assert info[k].versionNumber < info[k + 1].versionNumber;
      LastIsMax(info, k + 1);
    }
  }

  /** Exactly the first `e.numFields` fields belong to version `e.versionNumber`. */
  ghost predicate EntryCounts(fields: seq<FieldDecl>, n: nat, e: StructVersion)
    requires n <= |fields|
  {
    && e.numFields <= n
    && (forall i | 0 <= i < n :: fields[i].Version() <= e.versionNumber <==> i < e.numFields)
  }

  ghost predicate FoldMeans(fields: seq<FieldDecl>, n: nat, st: VersionState)
    requires n <= |fields|
  {
    && st.previous == (if n == 0 then 0 else fields[n - 1].Version())
    && Increasing(st.info)
    && (forall e | e in st.info :: EntryCounts(fields, n, e))
    && (st.info == [] ==> st.previous == 0)
    && (st.info != [] ==> st.info[0].versionNumber == 0 && st.info[|st.info| - 1].versionNumber < st.previous)
  }

  lemma FoldStepMeans(fields: seq<FieldDecl>, n: nat, bytes: nat, st: VersionState, st': VersionState)
    requires n < |fields| && FoldMeans(fields, n, st) && VersionsLegal(fields, n)
    requires VersionStep(fields[n], n, bytes, st) == Ok(st')
    ensures FoldMeans(fields, n + 1, st')
  {
    forall e | e in st'.info ensures EntryCounts(fields, n + 1, e) {
      if e in st.info {
        var k :| 0 <= k < |st.info| && st.info[k] == e;
        LastIsMax(st.info, k);
        assert EntryCounts(fields, n, e);
      }
    }
  }

  lemma {:induction false} FoldCorrect(fields: seq<FieldDecl>, n: nat)
    requires n <= |fields|
    ensures VersionFold(fields, n).Ok? <==> VersionsLegal(fields, n)
    ensures VersionFold(fields, n).Ok? ==> FoldMeans(fields, n, VersionFold(fields, n).value)
  {
    hide RoundUp, Multiple, SlotOf, PayloadSizeWith;
    if n > 0 {
      FoldCorrect(fields, n - 1);
      if VersionFold(fields, n - 1).Ok? {
        var st := VersionFold(fields, n - 1).value;
        var bytes := PayloadSizeWith(SlotOf(Kinds(fields), n - 1));
        StepLegal(fields, n - 1, bytes, st);
        if VersionFold(fields, n).Ok? {
          FoldStepMeans(fields, n - 1, bytes, st, VersionFold(fields, n).value);
        }
      }
    }
  }

  lemma StepLegal(fields: seq<FieldDecl>, n: nat, bytes: nat, st: VersionState)
    requires n < |fields| && VersionsLegal(fields, n)
    requires st.previous == (if n == 0 then 0 else fields[n - 1].Version())
    ensures VersionStep(fields[n], n, bytes, st).Ok? <==> VersionsLegal(fields, n + 1)
  {
    hide RoundUp, Multiple;
    if n > 0 {
      assert forall i | 0 <= i < n :: fields[i].Version() <= fields[n - 1].Version();
    }
  }

  lemma {:induction false} FoldSize(fields: seq<FieldDecl>, n: nat)
    requires n <= |fields| && VersionFold(fields, n).Ok?
    ensures VersionFold(fields, n).value.size == PayloadSize(Kinds(fields), n)
  {
    hide RoundUp, Multiple, SlotOf, PayloadSizeWith;
    if n > 0 {
      FoldSize(fields, n - 1);
    }
  }

  lemma {:induction false} FoldPrefix(fields: seq<FieldDecl>, head: seq<FieldDecl>, n: nat)
    requires n <= |head| && head <= fields
    ensures VersionFold(fields, n) == VersionFold(head, n)
  {
    hide RoundUp, Multiple, SlotOf, PayloadSizeWith, VersionStep;
    if n > 0 {
      FoldPrefix(fields, head, n - 1);
      assert SlotOf(Kinds(fields), n - 1) == SlotOf(Kinds(head), n - 1) by {
        var rest := Kinds(fields)[|head|..];
        assert Kinds(fields) == Kinds(head) + rest;
        AppendStable(Kinds(head), rest, n - 1);
      }
    }
  }

  /** Entry `k` ends the table of the struct cut down to the entry's fields. */
  lemma {:induction false} EntryIsTruncation(fields: seq<FieldDecl>, n: nat, k: nat)
    requires n <= |fields| && VersionFold(fields, n).Ok? && k < |VersionFold(fields, n).value.info|
    ensures var info := VersionFold(fields, n).value.info;
      && info[k].numFields <= n
      && VersionInfo(fields[..info[k].numFields]) == Ok(info[..k + 1])
  {
    hide RoundUp, Multiple, SlotOf, PayloadSizeWith;
    if n > 0 {
      var st := VersionFold(fields, n - 1).value;
      var info := VersionFold(fields, n).value.info;
      if k < |st.info| {
        EntryIsTruncation(fields, n - 1, k);
        assert info[..k + 1] == st.info[..k + 1];
      } else {
        FoldPrefix(fields, fields[..n - 1], n - 1);
        assert info[..k + 1] == info;
      }
    }
  }

  /** The version table exists exactly when the attributes are well formed, never
      decrease, and put only nullable types in later versions.  It starts at
      version 0, its version numbers increase strictly, the last entry has all
      fields, and each entry's fields are those its version has. */
  lemma VersionTable(fields: seq<FieldDecl>)
    ensures VersionInfo(fields).Ok? <==> VersionsLegal(fields, |fields|)
    ensures VersionInfo(fields).Ok? ==>
      var info := VersionInfo(fields).value;
      && info != [] && info[0].versionNumber == 0
      && Increasing(info)
      && info[|info| - 1].numFields == |fields|
      && (forall e | e in info :: EntryCounts(fields, |fields|, e))
  {
    hide RoundUp, Multiple, SlotOf, PayloadSizeWith, VersionFold;
    FoldCorrect(fields, |fields|);
  }

  /** The error names the first field with which the attributes stop being legal: it is
      ill formed, or else below an earlier one, or else too late for its type. */
  ghost predicate ErrorMeans(fields: seq<FieldDecl>, e: VersionError) {
    && e.field < |fields|
    && VersionsLegal(fields, e.field) && !VersionsLegal(fields, e.field + 1)
    && (e.BadValue? <==> fields[e.field].attr.Illformed?)
    && (e.OutOfOrder? <==>
         && !fields[e.field].attr.Illformed?
         && exists i | 0 <= i < e.field :: fields[i].Version() > fields[e.field].Version())
  }

  lemma StepError(fields: seq<FieldDecl>, n: nat, bytes: nat, st: VersionState)
    requires n < |fields| && VersionsLegal(fields, n)
    requires st.previous == (if n == 0 then 0 else fields[n - 1].Version())
    requires VersionStep(fields[n], n, bytes, st).Err?
    ensures ErrorMeans(fields, VersionStep(fields[n], n, bytes, st).error)
  {
    StepLegal(fields, n, bytes, st);
  }

  lemma {:induction false} FoldErrorMeans(fields: seq<FieldDecl>, n: nat)
    requires n <= |fields| && VersionFold(fields, n).Err?
    ensures ErrorMeans(fields, VersionFold(fields, n).error)
  {
    hide RoundUp, Multiple, SlotOf, PayloadSizeWith, ErrorMeans, VersionStep;
    if n > 0 {
      if VersionFold(fields, n - 1).Err? {
        FoldErrorMeans(fields, n - 1);
      } else {
        FoldCorrect(fields, n - 1);
        StepError(fields, n - 1, PayloadSizeWith(SlotOf(Kinds(fields), n - 1)), VersionFold(fields, n - 1).value);
      }
    }
  }

  /** Without a table, the error is that of the first offending field. */
  lemma VersionErrorExactly(fields: seq<FieldDecl>)
    requires VersionInfo(fields).Err?
    ensures ErrorMeans(fields, VersionInfo(fields).error)
  {
    hide ErrorMeans, VersionFold;
    FoldErrorMeans(fields, |fields|);
  }

  lemma LastEntrySize(fields: seq<FieldDecl>)
    requires VersionInfo(fields).Ok?
    ensures var info := VersionInfo(fields).value;
      info != [] && info[|info| - 1].numBytes == PayloadSize(Kinds(fields), |fields|)
  {
    hide RoundUp, Multiple;
    FoldSize(fields, |fields|);
  }

  /** Each entry of the table is the last entry of what the compiler gives for
      the struct truncated to that version's fields, and the entries before it
      are that struct's earlier ones; its byte size is the truncated struct's. */
  lemma VersionEntryIsTruncation(fields: seq<FieldDecl>, k: nat)
    requires VersionInfo(fields).Ok? && k < |VersionInfo(fields).value|
    ensures var info := VersionInfo(fields).value; var n := info[k].numFields;
      && n <= |fields|
      && VersionInfo(fields[..n]) == Ok(info[..k + 1])
      && info[k].numBytes == PayloadSize(Kinds(fields[..n]), n)
  {
    hide RoundUp, Multiple;
    var st := VersionFold(fields, |fields|).value;
    var info := VersionInfo(fields).value;
    if k < |st.info| {
      EntryIsTruncation(fields, |fields|, k);
      assert info[..k + 1] == st.info[..k + 1];
    } else {
      assert info[..k + 1] == info;
      assert fields[..|fields|] == fields;
    }
    LastEntrySize(fields[..info[k].numFields]);
  }

  /** The table lists the version of every field. */
  lemma {:induction false} FoldLists(fields: seq<FieldDecl>, n: nat, i: nat)
    requires i < n <= |fields| && VersionFold(fields, n).Ok?
    ensures var st := VersionFold(fields, n).value;
      fields[i].Version() == st.previous || exists e :: e in st.info && e.versionNumber == fields[i].Version()
  {
    hide RoundUp, Multiple;
    if i < n - 1 {
      FoldLists(fields, n - 1, i);
      var st, st' := VersionFold(fields, n - 1).value, VersionFold(fields, n).value;
      if fields[i].Version() == st.previous {
        if st.previous != st'.previous {
          assert st'.info[|st.info|].versionNumber == st.previous;
        }
      } else {
        var e :| e in st.info && e.versionNumber == fields[i].Version();
        assert e in st'.info;
      }
    }
  }

  lemma {:induction false} IncreasingApart(info: seq<StructVersion>, j: nat, k: nat)
    requires Increasing(info) && j < k < |info|
    ensures info[j].versionNumber < info[k].versionNumber
  {
    hide RoundUp, Multiple;
    if j < k - 1 {
      IncreasingApart(info, j, k - 1);
    }
    assert info[k - 1].versionNumber < info[k - 1 + 1].versionNumber;
  }

  /** Entry `k` is the one that governs version `v`. */
  ghost predicate Governs(info: seq<StructVersion>, k: nat, v: nat) {
    k < |info| && info[k].versionNumber <= v && (k + 1 < |info| ==> v < info[k + 1].versionNumber)
  }

  lemma TableLists(fields: seq<FieldDecl>, i: nat) returns (j: nat)
    requires VersionInfo(fields).Ok? && i < |fields|
    ensures j < |VersionInfo(fields).value| && VersionInfo(fields).value[j].versionNumber == fields[i].Version()
  {
    hide VersionFold;
    FoldLists(fields, |fields|, i);
    var info := VersionInfo(fields).value;
    var st := VersionFold(fields, |fields|).value;
    if fields[i].Version() == st.previous {
      j := |info| - 1;
    } else {
      var e :| e in st.info && e.versionNumber == fields[i].Version();
      j :| 0 <= j < |st.info| && st.info[j] == e;
    }
  }

  /** The fields that exist in version `v` are those of the entry that governs it. */
  lemma FieldsOfVersion(fields: seq<FieldDecl>, v: nat, k: nat, i: nat)
    requires VersionInfo(fields).Ok? && Governs(VersionInfo(fields).value, k, v)
    requires i < |fields|
    ensures fields[i].Version() <= v <==> i < VersionInfo(fields).value[k].numFields
  {
    hide VersionInfo, VersionsLegal;
    VersionTable(fields);
    var info := VersionInfo(fields).value;
    assert EntryCounts(fields, |fields|, info[k]) by { assert info[k] in info; }
    var j := TableLists(fields, i);
    if j < k { IncreasingApart(info, j, k); }
    if j > k + 1 { IncreasingApart(info, k + 1, j); }
  }
}
