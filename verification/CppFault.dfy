/**
  The error that serialization reports, over the places of a value: a place is the
  sequence of pointers that lead to it, and places are ordered as they are met.
*/
module CppFault {
  import opened Wire
  import opened CppValues

  type Path = seq<nat>

  /** `p` is met before `q`: on the way to it, or where they part at an earlier pointer. */
  predicate Earlier(p: Path, q: Path) {
    || p < q
    || exists n | 0 <= n < |p| && n < |q| :: p[..n] == q[..n] && p[n] < q[n]
  }

  predicate Nullable(t: Type) { t.RefArray? && t.nullable }

  /** What is wrong at the end of `p`, which begins at a pointer to an optional object. */
  function FaultAt(t: Type, nullable: bool, v: Option<Val>, p: Path): ValidationError
    requires v.Some? ==> HasType(t, v.value)
    decreases |p|
  {
    match v
    case None => if p == [] && !nullable then UnexpectedNullPointer else NoError
    case Some(x) =>
      if p == [] then
        if WrongLength(t, x) then UnexpectedArrayHeader
        else if t.HandleArray? && !t.nullable && 0 in x.handles then UnexpectedInvalidHandle
        else NoError
      else if !x.Node? || p[0] >= |x.kids| then NoError
      else FaultAt(KidType(t, p[0]), Nullable(t), x.kids[p[0]], p[1..])
  }

  /** `e` is what is wrong at the first place where anything is. */
  ghost predicate First(t: Type, nullable: bool, v: Option<Val>, e: ValidationError)
    requires v.Some? ==> HasType(t, v.value)
  {
    if e == NoError then forall p: Path :: FaultAt(t, nullable, v, p) == NoError
    else exists p: Path :: FirstPlace(t, nullable, v, e, p)
  }

  ghost predicate FirstPlace(t: Type, nullable: bool, v: Option<Val>, e: ValidationError, p: Path)
    requires v.Some? ==> HasType(t, v.value)
  {
    && FaultAt(t, nullable, v, p) == e
    && forall q: Path | Earlier(q, p) :: FaultAt(t, nullable, v, q) == NoError
  }

  /** Nothing is wrong behind the first `n` pointers of an object. */
  ghost predicate CleanUpto(t: Type, x: Val, n: nat)
    requires HasType(t, x) && x.Node? && n <= |x.kids|
  {
    forall p: Path | p != [] && p[0] < n :: FaultAt(t, false, Some(x), p) == NoError
  }

  /** What the pointer with index `i` leads to. */
  ghost predicate KidFirst(t: Type, x: Val, i: nat, e: ValidationError)
    requires HasType(t, x) && x.Node? && i < |x.kids|
  {
    First(KidType(t, i), Nullable(t), x.kids[i], e)
  }

  lemma KidFault(t: Type, x: Val, i: nat, p: Path)
    requires HasType(t, x) && x.Node? && i < |x.kids| && p != [] && p[0] == i
    ensures FaultAt(t, false, Some(x), p) == FaultAt(KidType(t, i), Nullable(t), x.kids[i], p[1..])
  {
  }

  lemma KidClean(t: Type, x: Val, i: nat)
    requires HasType(t, x) && x.Node? && i < |x.kids| && CleanUpto(t, x, i) && KidFirst(t, x, i, NoError)
    ensures CleanUpto(t, x, i + 1)
  {
    forall p: Path | p != [] && p[0] < i + 1 ensures FaultAt(t, false, Some(x), p) == NoError {
      if p[0] == i {
        KidFault(t, x, i, p);
      }
    }
  }

  lemma EarlierBelow(q: Path, i: nat, p: Path)
    requires Earlier(q, [i] + p)
    ensures q == [] || q[0] < i || (q[0] == i && Earlier(q[1..], p))
  {
    var r := [i] + p;
    if q < r {
      if q != [] {
        assert q[1..] < p;
      }
    } else {
      var n :| 0 <= n < |q| && n < |r| && q[..n] == r[..n] && q[n] < r[n];
      if n > 0 {
        assert q[0] == q[..n][0] == r[..n][0] == i;
        assert q[1..][..n - 1] == q[..n][1..] == r[..n][1..] == p[..n - 1];
        assert q[1..][n - 1] < p[n - 1];
      }
    }
  }

  lemma KidFaulty(t: Type, x: Val, i: nat, e: ValidationError)
    requires HasType(t, x) && x.Node? && i < |x.kids| && CleanUpto(t, x, i)
    requires FaultAt(t, false, Some(x), []) == NoError
    requires e != NoError && KidFirst(t, x, i, e)
    ensures First(t, false, Some(x), e)
  {
    var p: Path :| FirstPlace(KidType(t, i), Nullable(t), x.kids[i], e, p);
    var r: Path := [i] + p;
    assert r[1..] == p;
    KidFault(t, x, i, r);
    forall q: Path | Earlier(q, r) ensures FaultAt(t, false, Some(x), q) == NoError {
      EarlierBelow(q, i, p);
      if q != [] && q[0] == i {
        KidFault(t, x, i, q);
      }
    }
    assert FirstPlace(t, false, Some(x), e, r);
  }

  lemma NothingEarlier(q: Path)
    ensures !Earlier(q, [])
  {
  }

  /** An object that is wrong itself is met before all it points to. */
  lemma OwnFirst(t: Type, x: Val)
    requires HasType(t, x) && FaultAt(t, false, Some(x), []) != NoError
    ensures First(t, false, Some(x), FaultAt(t, false, Some(x), []))
  {
    forall q: Path ensures !Earlier(q, []) {
      NothingEarlier(q);
    }
    assert FirstPlace(t, false, Some(x), FaultAt(t, false, Some(x), []), []);
  }

  lemma NullFirst(t: Type, nullable: bool)
    ensures First(t, nullable, None, if nullable then NoError else UnexpectedNullPointer)
  {
    if !nullable {
      forall q: Path ensures !Earlier(q, []) {
        NothingEarlier(q);
      }
      assert FirstPlace(t, nullable, None, UnexpectedNullPointer, []);
    }
  }

  /** Whether the pointer to an object may be null does not matter to the object. */
  lemma {:induction false} FlagUnused(t: Type, x: Val, e: ValidationError)
    requires HasType(t, x) && First(t, false, Some(x), e)
    ensures First(t, true, Some(x), e)
  {
    assert forall p: Path :: FaultAt(t, true, Some(x), p) == FaultAt(t, false, Some(x), p);
    if e != NoError {
      var p: Path :| FirstPlace(t, false, Some(x), e, p);
      assert FirstPlace(t, true, Some(x), e, p);
    }
  }

  lemma {:induction false} KidsFirst(t: Type, x: Val, n: nat)
    requires HasType(t, x) && t.RefArray? && n <= |x.kids| && FaultAt(t, false, Some(x), []) == NoError
    ensures CheckKids(t.elem, t.nullable, x.kids[..n]) == NoError ==> CleanUpto(t, x, n)
    ensures CheckKids(t.elem, t.nullable, x.kids[..n]) != NoError ==>
      First(t, false, Some(x), CheckKids(t.elem, t.nullable, x.kids[..n]))
    decreases t, 0, n
  {
    hide First, FaultAt, CleanUpto, Check;
    if n == 0 {
      NothingClean(t, x);
    } else {
      var i := n - 1;
      KidsFirst(t, x, i);
      assert x.kids[..n][..i] == x.kids[..i];
      if CheckKids(t.elem, t.nullable, x.kids[..i]) == NoError {
        var e := CheckKids(t.elem, t.nullable, x.kids[..n]);
        if x.kids[i].Some? {
          CheckIsFirstFault(t.elem, x.kids[i].value);
          if t.nullable {
            FlagUnused(t.elem, x.kids[i].value, e);
          }
        } else {
          NullFirst(t.elem, t.nullable);
        }
        assert KidFirst(t, x, i, e);
        if e == NoError {
          KidClean(t, x, i);
        } else {
          KidFaulty(t, x, i, e);
        }
      }
    }
  }

  lemma NothingClean(t: Type, x: Val)
    requires HasType(t, x) && x.Node?
    ensures CleanUpto(t, x, 0)
  {
  }

  lemma MapFirst(t: Type, x: Val)
    requires HasType(t, x) && t.MapOf?
    requires First(t.key, false, x.kids[0], Check(t.key, x.kids[0].value))
    requires First(t.value, false, x.kids[1], Check(t.value, x.kids[1].value))
    ensures First(t, false, Some(x), Check(t, x))
  {
    hide First, CleanUpto;
    assert FaultAt(t, false, Some(x), []) == NoError;
    NothingClean(t, x);
    var e := Check(t.key, x.kids[0].value);
    assert KidFirst(t, x, 0, e);
    if e != NoError {
      KidFaulty(t, x, 0, e);
    } else {
      KidClean(t, x, 0);
      var e' := Check(t.value, x.kids[1].value);
      assert KidFirst(t, x, 1, e');
      if e' != NoError {
        KidFaulty(t, x, 1, e');
      } else {
        KidClean(t, x, 1);
        AllClean(t, x);
      }
    }
  }

  lemma AllClean(t: Type, x: Val)
    requires HasType(t, x) && FaultAt(t, false, Some(x), []) == NoError
    requires x.Node? ==> CleanUpto(t, x, |x.kids|)
    ensures First(t, false, Some(x), NoError)
  {
    forall p: Path ensures FaultAt(t, false, Some(x), p) == NoError {
    }
  }

  /** Serialization reports what is wrong at the first place that has anything wrong,
      and nothing exactly if no place has. */
  lemma {:induction false} CheckIsFirstFault(t: Type, x: Val)
    requires HasType(t, x)
    ensures First(t, false, Some(x), Check(t, x))
    decreases t, 1, 0
  {
    hide First, CleanUpto;
    if FaultAt(t, false, Some(x), []) != NoError {
      OwnFirst(t, x);
    } else if t.RefArray? {
      KidsFirst(t, x, |x.kids|);
      assert x.kids[..|x.kids|] == x.kids;
      if Check(t, x) == NoError {
        AllClean(t, x);
      }
    } else if t.MapOf? {
      CheckIsFirstFault(t.key, x.kids[0].value);
      CheckIsFirstFault(t.value, x.kids[1].value);
      MapFirst(t, x);
    } else {
      AllClean(t, x);
    }
  }
}
