/**
  The struct compiler as it runs: field objects whose offset, bit and minimum
  version are filled in place, ordinal by ordinal, over a packing list that
  grows in the middle.
*/
module StructCompiler {
  import opened Layout
  import opened Versions

  class StructField {
    const decl: FieldDecl
    var offset: nat
    var bit: nat
    var minVersion: nat

    constructor (decl: FieldDecl)
      ensures this.decl == decl
    {
      hide RoundUp, Multiple;
      this.decl := decl;
    }

    predicate At(s: Slot)
      reads this`offset, this`bit
    {
      offset == s.offset && bit == s.bit
    }
  }

  class MojomStruct {
    /** The fields in ordinal order. */
    const fields: seq<StructField>
    var versionInfo: seq<StructVersion>

    constructor (fields: seq<StructField>)
      requires forall i, j | 0 <= i < j < |fields| :: fields[i] != fields[j]
      ensures this.fields == fields && Distinct()
    {
      hide RoundUp, Multiple;
      this.fields := fields;
      versionInfo := [];
    }

    ghost predicate Distinct() {
      forall i, j | 0 <= i < j < |fields| :: fields[i] != fields[j]
    }

    ghost function Decls(): (r: seq<FieldDecl>)
      ensures |r| == |fields| && forall i | 0 <= i < |r| :: r[i] == fields[i].decl
    {
      seq(|fields|, i requires 0 <= i < |fields| => fields[i].decl)
    }

    ghost function FieldKinds(): (r: seq<Kind>)
      ensures |r| == |fields| && forall i | 0 <= i < |r| :: r[i] == fields[i].decl.kind
    {
      Kinds(Decls())
    }

    /** The packing list holds the field objects of `order`, each at its slot. */
    ghost predicate Holds(packing: seq<StructField>, order: seq<Slot>)
      reads fields`offset, fields`bit
    {
      && |packing| == |order|
      && forall p | 0 <= p < |order| ::
           order[p].ord < |fields| && packing[p] == fields[order[p].ord] && packing[p].At(order[p])
    }

    /** Every field is at the slot first fit gives it. */
    ghost predicate PlacedByFirstFit()
      reads fields`offset, fields`bit
    {
      forall i | 0 <= i < |fields| :: fields[i].At(SlotOf(FieldKinds(), i))
    }

    /** Every field ends at the slot first fit gives it. */
    method ComputeFieldOffsets()
      requires Distinct()
      modifies fields`offset, fields`bit
      ensures PlacedByFirstFit()
    {
      hide RoundUp, Multiple, Place;
      ghost var kinds := FieldKinds();
      var packing: seq<StructField> := [];
      var i := 0;
      while i < |fields|
        invariant 0 <= i <= |fields|
        invariant Holds(packing, Pack(kinds[..i]))
      {
        ghost var order := Pack(kinds[..i]);
        assert forall s | s in order :: s.ord < i && s.kind == kinds[s.ord] by {
          PackNames(kinds[..i]);
        }
        packing := PlaceField(fields[i], i, packing, order);
        assert kinds[..i + 1][..i] == kinds[..i];
        i := i + 1;
      }
      assert kinds[..i] == kinds;
      HoldsAll(packing);
    }

    lemma HoldsAll(packing: seq<StructField>)
      requires Holds(packing, Pack(FieldKinds()))
      ensures PlacedByFirstFit()
    {
      hide RoundUp, Multiple;
      var kinds := FieldKinds();
      var order := Pack(kinds);
      forall n | 0 <= n < |fields| ensures fields[n].At(SlotOf(kinds, n)) {
        SlotOfIsPacked(kinds, n);
        var p :| 0 <= p < |order| && order[p] == SlotOf(kinds, n);
        assert packing[p] == fields[n];
      }
    }

    /** One round of the field loop: into the first hole, or to the end. */
    method PlaceField(field: StructField, i: nat, packing: seq<StructField>, ghost order: seq<Slot>) returns (packing': seq<StructField>)
      requires Distinct() && i < |fields| && field == fields[i]
      requires Holds(packing, order)
      requires forall s | s in order :: s.ord < i && s.kind == fields[s.ord].decl.kind
      requires i == 0 <==> order == []
      modifies field`offset, field`bit
      ensures Holds(packing', Place(order, i, fields[i].decl.kind))
    {
      hide RoundUp, Multiple, Tentative, Place;
      assert field !in packing && Mirrors(packing, order) by {
        forall p | 0 <= p < |packing| ensures packing[p] != field && packing[p].decl.kind == order[p].kind {
          assert order[p] in order;
        }
      }
      if i == 0 {
        field.offset, field.bit := 0, 0;
        packing' := [field];
      } else {
        var before := FindHole(field, packing, order, i);
        packing' := packing[..before + 1] + [field] + packing[before + 1..];
      }
      PlaceShape(order, i, field.decl.kind);
      HoldsInsert(packing, order, packing', Place(order, i, field.decl.kind), PlaceIndex(order, field.decl.kind));
    }

    lemma HoldsInsert(packing: seq<StructField>, order: seq<Slot>, packing': seq<StructField>, r: seq<Slot>, j: nat)
      requires Holds(packing, order)
      requires j <= |order| && |packing'| == |r| == |order| + 1
      requires forall p | 0 <= p < j :: packing'[p] == packing[p] && r[p] == order[p]
      requires forall p | j < p < |r| :: packing'[p] == packing[p - 1] && r[p] == order[p - 1]
      requires r[j].ord < |fields| && packing'[j] == fields[r[j].ord] && packing'[j].At(r[j])
      ensures Holds(packing', r)
    {
      hide RoundUp, Multiple;
    }

    static ghost predicate Mirrors(packing: seq<StructField>, order: seq<Slot>)
      reads packing`offset, packing`bit
    {
      && |packing| == |order|
      && forall p | 0 <= p < |order| :: packing[p].At(order[p]) && packing[p].decl.kind == order[p].kind
    }

    /** The search for two neighbours with enough space between them. */
    static method FindHole(field: StructField, packing: seq<StructField>, ghost order: seq<Slot>, ghost ord: nat)
      returns (before: nat)
      requires packing != [] && field !in packing && Mirrors(packing, order)
      modifies field`offset, field`bit
      ensures before == FitIndex(order, field.decl.kind, 0)
      ensures field.At(Tentative(ord, field.decl.kind, order[before]))
    {
      hide RoundUp, Multiple;
      ghost var k := field.decl.kind;
      before := 0;
      while before + 1 < |packing|
        invariant before < |packing|
        invariant Mirrors(packing, order)
        invariant FitIndex(order, k, 0) == FitIndex(order, k, before)
      {
        ComputeTentativeFieldOffset(field, packing[before], ord, order[before]);
        assert packing[before + 1].At(order[before + 1]);
        if field.offset + field.decl.kind.size <= packing[before + 1].offset {
          return;
        }
        before := before + 1;
      }
      ComputeTentativeFieldOffset(field, packing[before], ord, order[before]);
    }

    static method ComputeTentativeFieldOffset(field: StructField, previous: StructField, ghost ord: nat, ghost slot: Slot)
      requires field != previous
      requires previous.At(slot) && slot.kind == previous.decl.kind
      modifies field`offset, field`bit
      ensures field.At(Tentative(ord, field.decl.kind, slot))
    {
      var k, prev := field.decl.kind, previous.decl.kind;
      if k.isBool && prev.isBool && previous.bit < 7 {
        field.offset := previous.offset;
        field.bit := previous.bit + 1;
      } else {
        var offset := previous.offset + prev.size;
        field.offset := offset + ComputePadding(offset, k.align);
        field.bit := 0;
      }
    }

    static function ComputePayloadSizeSoFar(field: StructField, ghost s: Slot): (bytes: nat)
      requires field.At(s) && s.kind == field.decl.kind
      reads field`offset, field`bit
      ensures bytes == PayloadSizeWith(s)
    {
      var end := field.offset + field.decl.kind.size;
      STRUCT_HEADER_SIZE + end + ComputePadding(end, 8)
    }

    /** The version table, or the first offending field. */
    method ComputeVersionInfo() returns (err: Result<(), VersionError>)
      requires Distinct() && PlacedByFirstFit()
      modifies this`versionInfo, fields`minVersion
      ensures err.Ok? ==> VersionInfo(Decls()) == Ok(versionInfo)
      ensures err.Ok? ==> forall i | 0 <= i < |fields| :: fields[i].minVersion == fields[i].decl.Version()
      ensures err.Err? ==> VersionInfo(Decls()) == Err(err.error)
    {
      hide RoundUp, Multiple, SlotOf, PayloadSizeWith;
      ghost var decls := Decls();
      versionInfo := [];
      var previous, size, i := 0, STRUCT_HEADER_SIZE, 0;
      while i < |fields|
        invariant 0 <= i <= |fields|
        invariant VersionFold(decls, i) == Ok(VersionState(versionInfo, previous, size))
        invariant forall j | 0 <= j < i :: fields[j].minVersion == fields[j].decl.Version()
      {
        var f := fields[i];
        err := CheckMinVersion(i, f.decl, previous);
        if err.Err? {
          FoldError(decls, i + 1);
          return;
        }
        f.minVersion := f.decl.Version();
        if f.decl.Version() > previous {
          versionInfo := versionInfo + [StructVersion(previous, i, size)];
          previous := f.decl.Version();
        }
        assert f.At(SlotOf(FieldKinds(), i));
        size := Max(size, ComputePayloadSizeSoFar(f, SlotOf(FieldKinds(), i)));
        i := i + 1;
      }
      versionInfo := versionInfo + [StructVersion(previous, |fields|, size)];
      return Ok(());
    }
  }

  /** An error found early is the error of the whole run. */
  lemma {:induction false} FoldError(decls: seq<FieldDecl>, n: nat)
    requires n <= |decls| && VersionFold(decls, n).Err?
    ensures VersionInfo(decls) == Err(VersionFold(decls, n).error)
    decreases |decls| - n
  {
    hide RoundUp, Multiple;
    if n < |decls| {
      FoldError(decls, n + 1);
    }
  }
}
