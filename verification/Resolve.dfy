/**
  Resolution of value references: constants defined by other constants, resolved
  in passes over all references until a pass resolves nothing new.
*/
module Resolve {
  import opened Wire

  /** What a constant was assigned: a literal, or another reference. */
  datatype Source<V> = Literal(value: V) | Reference(ref: nat)

  datatype Declared<V> = Constant(source: Source<V>) | EnumValue(value: V) | BuiltIn(value: V)

  /** What an identifier means where it is used: what the lookup in its scope
      finds, the value of the enum that is being assigned to, a built-in. */
  datatype Names<V> = Names(found: Option<Declared<V>>, special: Option<V>, builtIn: Option<V>)
  {
    predicate Unknown() { found.None? && special.None? && builtIn.None? }

    /** The first of the three that is there. */
    function Meaning(): Option<Declared<V>> {
      if found.Some? then found
      else if special.Some? then Some(EnumValue(special.value))
      else if builtIn.Some? then Some(BuiltIn(builtIn.value))
      else None
    }
  }

  // ---- Chains of constants ----

  /** The reference that reference `i` is defined by: only a constant that the scope
      knows has one. */
  function Next<V>(names: seq<Names<V>>, i: nat): Option<nat> {
    if i >= |names| then None
    else match names[i].found
      case Some(Constant(Reference(j))) => Some(j)
      case _ => None
  }

  /** The value that reference `i` has by itself: that of what the scope knows, and only
      if it knows nothing, the special enum value, and only without that, the
      built-in. */
  function Own<V>(names: seq<Names<V>>, i: nat): Option<V> {
    if i >= |names| then None
    else match names[i]
      case Names(Some(Constant(Literal(v))), _, _) => Some(v)
      case Names(Some(EnumValue(v)), _, _) => Some(v)
      case Names(Some(BuiltIn(v)), _, _) => Some(v)
      case Names(None, Some(v), _) => Some(v)
      case Names(None, None, builtIn) => builtIn
      case _ => None
  }

  /** The reference `k` steps down the chain from `i`. */
  function Follow<V>(names: seq<Names<V>>, i: nat, k: nat): Option<nat> {
    if k == 0 then Some(i)
    else
      var j := Follow(names, i, k - 1);
      if j.None? then None else Next(names, j.value)
  }

  /** The chain from `i` ends in the value `v`. */
  ghost predicate EndsIn<V(!new)>(names: seq<Names<V>>, i: nat, v: V) {
    exists k: nat :: Follow(names, i, k).Some? && Own(names, Follow(names, i, k).value) == Some(v)
  }

  lemma {:induction false} FollowFirst<V>(names: seq<Names<V>>, i: nat, k: nat)
    requires Next(names, i).Some?
    ensures Follow(names, i, k + 1) == Follow(names, Next(names, i).value, k)
  {
    if k > 0 {
      FollowFirst(names, i, k - 1);
    }
  }

  lemma {:induction false} FollowNone<V>(names: seq<Names<V>>, i: nat, k: nat)
    requires Next(names, i).None? && k > 0
    ensures Follow(names, i, k).None?
  {
    if k > 1 {
      FollowNone(names, i, k - 1);
    } else {
      assert Follow(names, i, 0) == Some(i);
    }
  }

  lemma EndsOwn<V(!new)>(names: seq<Names<V>>, i: nat)
    requires Own(names, i).Some?
    ensures EndsIn(names, i, Own(names, i).value)
  {
    assert Follow(names, i, 0) == Some(i);
  }

  lemma EndsNext<V(!new)>(names: seq<Names<V>>, i: nat, v: V)
    requires Next(names, i).Some? && EndsIn(names, Next(names, i).value, v)
    ensures EndsIn(names, i, v)
  {
    var k: nat :| Follow(names, Next(names, i).value, k).Some? && Own(names, Follow(names, Next(names, i).value, k).value) == Some(v);
    FollowFirst(names, i, k);
    assert Follow(names, i, k + 1).Some?;
  }

  // ---- The passes ----

  /** The references without a value. */
  function Unresolved<V>(concrete: seq<Option<V>>): seq<nat> {
    if concrete == [] then []
    else
      var l := |concrete| - 1;
      Unresolved(concrete[..l]) + if concrete[l].None? then [l] else []
  }

  lemma {:induction false} UnresolvedMeans<V>(concrete: seq<Option<V>>, i: nat)
    ensures i in Unresolved(concrete) <==> i < |concrete| && concrete[i].None?
  {
    if concrete != [] {
      UnresolvedMeans(concrete[..|concrete| - 1], i);
    }
  }

  /** Values are only added. */
  ghost predicate Grows<V>(before: seq<Option<V>>, after: seq<Option<V>>) {
    |after| == |before| && forall i | 0 <= i < |before| && before[i].Some? :: after[i] == before[i]
  }

  lemma {:induction false} FewerUnresolved<V>(before: seq<Option<V>>, after: seq<Option<V>>)
    requires Grows(before, after)
    ensures |Unresolved(after)| <= |Unresolved(before)|
    ensures |Unresolved(after)| == |Unresolved(before)| ==> forall i | 0 <= i < |before| :: before[i].None? ==> after[i].None?
    decreases |before|
  {
    if before != [] {
      var l := |before| - 1;
      FewerUnresolved(before[..l], after[..l]);
      assert forall i | 0 <= i < l :: before[..l][i] == before[i] && after[..l][i] == after[i];
    }
  }

  ghost predicate AllSound<V(!new)>(names: seq<Names<V>>, concrete: seq<Option<V>>) {
    |concrete| == |names| && forall i | 0 <= i < |concrete| && concrete[i].Some? :: EndsIn(names, i, concrete[i].value)
  }

  /** What its definition gives reference `i` at the moment. */
  function Given<V>(names: seq<Names<V>>, concrete: seq<Option<V>>, i: nat): Option<V> {
    if Next(names, i).None? then Own(names, i)
    else if Next(names, i).value < |concrete| then concrete[Next(names, i).value]
    else None
  }

  ghost predicate Settled<V>(names: seq<Names<V>>, concrete: seq<Option<V>>, i: nat)
    requires |concrete| == |names| && i < |names|
  {
    concrete[i].None? ==> Given(names, concrete, i).None?
  }

  /** In a state that no pass changes, a chain that ends in a value is resolved. */
  lemma {:induction false} SettledIsComplete<V>(names: seq<Names<V>>, concrete: seq<Option<V>>, i: nat, k: nat)
    requires |concrete| == |names| && i < |names| && forall j | 0 <= j < |names| :: Settled(names, concrete, j)
    requires Follow(names, i, k).Some? && Own(names, Follow(names, i, k).value).Some?
    ensures concrete[i].Some?
    decreases k
  {
    assert Settled(names, concrete, i);
    if Next(names, i).Some? && k > 0 {
      FollowFirst(names, i, k - 1);
      var j := Next(names, i).value;
      if j < |names| {
        SettledIsComplete(names, concrete, j, k - 1);
      } else {
        OutsideHasNoOwn(names, j, k - 1);
        assert false;
      }
    } else if k > 0 {
      FollowNone(names, i, k);
      assert false;
    } else {
      assert Follow(names, i, 0) == Some(i);
    }
  }

  lemma {:induction false} OutsideHasNoOwn<V>(names: seq<Names<V>>, j: nat, k: nat)
    requires j >= |names|
    ensures Follow(names, j, k).Some? ==> k == 0 && Own(names, j).None? && Follow(names, j, k).value == j
  {
    if k > 0 {
      FollowNone(names, j, k);
    }
  }

  lemma SettledStep<V>(names: seq<Names<V>>, first: seq<Option<V>>, before: seq<Option<V>>, after: seq<Option<V>>, i: nat)
    requires |names| == |first| == |before| == |after| && i < |names| && before[i] == first[i]
    requires after == before[i := Given(names, before, i)]
    requires before == first ==> forall j | 0 <= j < i :: Settled(names, before, j)
    ensures after == first ==> forall j | 0 <= j <= i :: Settled(names, after, j)
  {
    if after == first {
      assert before == first;
    }
  }

  class Descriptor<V(!new)> {
    const names: seq<Names<V>>
    var declared: seq<Option<Declared<V>>>
    var concrete: seq<Option<V>>
    var unresolved: seq<nat>

    ghost predicate Valid()
      reads this
    {
      && |declared| == |concrete| == |names|
      && (forall i | 0 <= i < |names| :: Next(names, i).Some? ==> Next(names, i).value < |names|)
      && (forall i | 0 <= i < |names| && declared[i].Some? :: declared[i] == names[i].Meaning())
      && AllSound(names, concrete)
      && (forall i | 0 <= i < |names| && concrete[i].Some? :: concrete[i] == Given(names, concrete, i))
    }

    constructor (names: seq<Names<V>>)
      requires forall i | 0 <= i < |names| :: Next(names, i).Some? ==> Next(names, i).value < |names|
      ensures Valid() && this.names == names && concrete == seq(|names|, _ => None) && declared == seq(|names|, _ => None)
    {
      this.names := names;
      declared, concrete, unresolved := seq(|names|, _ => None), seq(|names|, _ => None), [];
    }

    /** Finds the declaration once, then takes over the value it has by now. */
    method ResolveValueRef(i: nat) returns (resolved: bool)
      requires Valid() && i < |names|
      modifies this`declared, this`concrete
      ensures Valid() && resolved == concrete[i].Some?
      ensures declared == old(declared)[i := names[i].Meaning()]
      ensures concrete == old(concrete)[i := Given(names, old(concrete), i)]
      ensures Grows(old(concrete), concrete)
    {
      hide EndsIn;
      if declared[i].None? {
        declared := declared[i := names[i].Meaning()];
        if declared[i].None? {
          concrete := concrete[i := None];
          return false;
        }
      }
      if Own(names, i).Some? {
        EndsOwn(names, i);
      }
      match declared[i].value {
        case Constant(Literal(v)) => concrete := concrete[i := Some(v)];
        case Constant(Reference(j)) =>
          assert Next(names, i) == Some(j);
          if concrete[j].Some? {
            EndsNext(names, i, concrete[j].value);
          }
          concrete := concrete[i := concrete[j]];
        case EnumValue(v) => concrete := concrete[i := Some(v)];
        case BuiltIn(v) => concrete := concrete[i := Some(v)];
      }
      resolved := concrete[i].Some?;
    }

    /** One pass over all references, in order. */
    method ResolveValueReferences() returns (left: seq<nat>)
      requires Valid()
      modifies this`declared, this`concrete
      ensures Valid() && Grows(old(concrete), concrete) && left == Unresolved(concrete)
      ensures forall i | 0 <= i < |names| :: declared[i] == names[i].Meaning()
      ensures (forall i | 0 <= i < |names| :: old(concrete)[i].None? ==> concrete[i].None?) ==>
        forall i | 0 <= i < |names| :: Settled(names, concrete, i)
    {
      hide AllSound, Given, Settled, Next;
      left := [];
      var i := 0;
      while i < |names|
        invariant Valid() && 0 <= i <= |names| && Grows(old(concrete), concrete)
        invariant left == Unresolved(concrete[..i])
        invariant forall j | 0 <= j < i :: declared[j] == names[j].Meaning()
        invariant concrete[i..] == old(concrete)[i..]
        invariant concrete == old(concrete) ==> forall j | 0 <= j < i :: Settled(names, concrete, j)
      {
        ghost var before := concrete;
        var resolved := ResolveValueRef(i);
        SettledStep(names, old(concrete), before, concrete, i);
        assert concrete[..i] == before[..i];
        assert concrete[..i + 1][..i] == concrete[..i];
        if !resolved {
          left := left + [i];
        }
        i := i + 1;
      }
      assert concrete[..i] == concrete;
      if forall i | 0 <= i < |names| :: old(concrete)[i].None? ==> concrete[i].None? {
        assert concrete == old(concrete);
      }
    }

    /** Passes as long as they resolve something; what is left is reported. */
    method Resolve() returns (ok: bool)
      requires Valid()
      modifies this
      ensures Valid()
      ensures forall i: nat, v: V | i < |names| :: concrete[i] == Some(v) <==> EndsIn(names, i, v)
      ensures unresolved == Unresolved(concrete) && (ok <==> unresolved == [])
      ensures forall i | 0 <= i < |names| :: declared[i] == names[i].Meaning()
    {
      var left := ResolveValueReferences();
      var count := |left|;
      if count == 0 {
        AllResolved(names, concrete);
      }
      while count > 0
        invariant Valid() && count == |left| && left == Unresolved(concrete)
        invariant forall i | 0 <= i < |names| :: declared[i] == names[i].Meaning()
        invariant count == 0 ==> forall i | 0 <= i < |names| :: Settled(names, concrete, i)
        decreases count
      {
        ghost var before := concrete;
        left := ResolveValueReferences();
        FewerUnresolved(before, concrete);
        if |left| < count {
          count := |left|;
          if count == 0 {
            AllResolved(names, concrete);
          }
        } else {
          break;
        }
      }
      unresolved := left;
      ok := count == 0;
      Complete(names, concrete);
    }
  }

  lemma AllResolved<V>(names: seq<Names<V>>, concrete: seq<Option<V>>)
    requires |concrete| == |names| && Unresolved(concrete) == []
    ensures forall i | 0 <= i < |names| :: Settled(names, concrete, i)
  {
    forall i | 0 <= i < |names| ensures concrete[i].Some? {
      UnresolvedMeans(concrete, i);
    }
  }

  /** The chain of a reference ends in at most one value. */
  lemma EndsOnce<V(!new)>(names: seq<Names<V>>, i: nat, v: V, w: V)
    requires EndsIn(names, i, v) && EndsIn(names, i, w)
    ensures v == w
  {
    var k: nat :| Follow(names, i, k).Some? && Own(names, Follow(names, i, k).value) == Some(v);
    var l: nat :| Follow(names, i, l).Some? && Own(names, Follow(names, i, l).value) == Some(w);
    if k < l {
      EndsHere(names, i, k, l);
    } else if l < k {
      EndsHere(names, i, l, k);
    }
  }

  lemma {:induction false} EndsHere<V>(names: seq<Names<V>>, i: nat, k: nat, l: nat)
    requires Follow(names, i, k).Some? && Own(names, Follow(names, i, k).value).Some? && k < l
    ensures Follow(names, i, l).None?
    decreases l
  {
    if k < l - 1 {
      EndsHere(names, i, k, l - 1);
    }
  }

  lemma Complete<V(!new)>(names: seq<Names<V>>, concrete: seq<Option<V>>)
    requires AllSound(names, concrete) && forall i | 0 <= i < |names| :: Settled(names, concrete, i)
    ensures forall i: nat, v: V | i < |names| :: concrete[i] == Some(v) <==> EndsIn(names, i, v)
  {
    forall i: nat, v: V | i < |names| && EndsIn(names, i, v) ensures concrete[i] == Some(v) {
      var k: nat :| Follow(names, i, k).Some? && Own(names, Follow(names, i, k).value) == Some(v);
      SettledIsComplete(names, concrete, i, k);
      EndsOnce(names, i, v, concrete[i].value);
    }
  }

  // ---- What stays unresolved ----

  /** The chain from `i` comes to an identifier that means nothing. */
  ghost predicate LeadsToUndefined<V>(names: seq<Names<V>>, i: nat) {
    exists k: nat :: Follow(names, i, k).Some? && Follow(names, i, k).value < |names| && names[Follow(names, i, k).value].Unknown()
  }

  /** The chain from `i` comes to the same reference twice. */
  ghost predicate LeadsToCycle<V>(names: seq<Names<V>>, i: nat) {
    exists k: nat, l: nat :: k < l && Follow(names, i, k).Some? && Follow(names, i, k) == Follow(names, i, l)
  }

  lemma {:induction false} EarlierSome<V>(names: seq<Names<V>>, i: nat, k: nat, l: nat)
    requires k <= l && Follow(names, i, l).Some?
    ensures Follow(names, i, k).Some?
    decreases l
  {
    if k < l {
      EarlierSome(names, i, k, l - 1);
    }
  }

  lemma {:induction false} CycleGoesOn<V>(names: seq<Names<V>>, i: nat, k: nat, l: nat, m: nat)
    requires k < l && Follow(names, i, k).Some? && Follow(names, i, k) == Follow(names, i, l)
    ensures Follow(names, i, m).Some?
    ensures m >= l ==> Follow(names, i, m) == Follow(names, i, m - (l - k))
    decreases m
  {
    if m > l {
      CycleGoesOn(names, i, k, l, m - 1);
      CycleGoesOn(names, i, k, l, m - (l - k));
      assert Follow(names, i, m) == Next(names, Follow(names, i, m - 1).value);
      assert Follow(names, i, m - (l - k)) == Next(names, Follow(names, i, m - 1 - (l - k)).value);
    } else {
      EarlierSome(names, i, m, l);
    }
  }

  lemma ValueOrNot<V(!new)>(names: seq<Names<V>>, i: nat, v: V)
    requires EndsIn(names, i, v)
    ensures !LeadsToUndefined(names, i) && !LeadsToCycle(names, i)
  {
    var e: nat :| Follow(names, i, e).Some? && Own(names, Follow(names, i, e).value) == Some(v);
    if k: nat :| Follow(names, i, k).Some? && Follow(names, i, k).value < |names| && names[Follow(names, i, k).value].Unknown() {
      if k < e {
        EarlierSome(names, i, k + 1, e);
      } else if e < k {
        EndsHere(names, i, e, k);
      }
      assert false;
    }
    if k: nat, l: nat :| k < l && Follow(names, i, k).Some? && Follow(names, i, k) == Follow(names, i, l) {
      CycleGoesOn(names, i, k, l, e + 1);
      EndsHere(names, i, e, e + 1);
      assert false;
    }
  }

  lemma {:induction false} GoesOn<V(!new)>(names: seq<Names<V>>, i: nat, k: nat)
    requires forall i | 0 <= i < |names| :: Next(names, i).Some? ==> Next(names, i).value < |names|
    requires i < |names| && (forall v :: !EndsIn(names, i, v)) && !LeadsToUndefined(names, i)
    ensures Follow(names, i, k).Some? && Follow(names, i, k).value < |names|
  {
    if k > 0 {
      GoesOn(names, i, k - 1);
      var j := Follow(names, i, k - 1).value;
      if Own(names, j).Some? {
        assert EndsIn(names, i, Own(names, j).value);
      }
      assert !names[j].Unknown();
    }
  }

  lemma {:induction false} Pigeonhole(f: seq<nat>, n: nat) returns (i: nat, j: nat)
    requires |f| > n && forall k | 0 <= k < |f| :: f[k] < n
    ensures i < j < |f| && f[i] == f[j]
    decreases n
  {
    if p :| 0 <= p < |f| && f[p] == n - 1 {
      var g := f[..p] + f[p + 1..];
      if q :| 0 <= q < |f| && q != p && f[q] == n - 1 {
        i, j := if p < q then p else q, if p < q then q else p;
      } else {
        i, j := Pigeonhole(g, n - 1);
        i, j := if i < p then i else i + 1, if j < p then j else j + 1;
      }
    } else {
      assert f[0] < n;
      i, j := Pigeonhole(f, n - 1);
    }
  }

  /** A reference without a value is on, or leads to, a cycle of constants or an
      undefined name, and the other way round. */
  lemma UnresolvedExactly<V(!new)>(names: seq<Names<V>>, i: nat)
    requires forall i | 0 <= i < |names| :: Next(names, i).Some? ==> Next(names, i).value < |names|
    requires i < |names|
    ensures (forall v :: !EndsIn(names, i, v)) <==> LeadsToUndefined(names, i) || LeadsToCycle(names, i)
  {
    forall v | EndsIn(names, i, v) ensures !LeadsToUndefined(names, i) && !LeadsToCycle(names, i) {
      ValueOrNot(names, i, v);
    }
    if (forall v :: !EndsIn(names, i, v)) && !LeadsToUndefined(names, i) {
      var n := |names|;
      forall k: nat ensures Follow(names, i, k).Some? && Follow(names, i, k).value < n {
        GoesOn(names, i, k);
      }
      var f := seq(n + 1, (k: nat) => if Follow(names, i, k).Some? then Follow(names, i, k).value else 0);
      var k, l := Pigeonhole(f, n);
      assert Follow(names, i, k) == Follow(names, i, l);
    }
  }

  /** An error message is about an undefined name where nothing was found, and
      about an unresolved value otherwise. */
  lemma Reported<V(!new)>(names: seq<Names<V>>, i: nat)
    requires forall i | 0 <= i < |names| :: Next(names, i).Some? ==> Next(names, i).value < |names|
    requires i < |names| && (forall v :: !EndsIn(names, i, v))
    ensures names[i].Unknown() || (Next(names, i).Some? && forall v :: !EndsIn(names, Next(names, i).value, v))
  {
    if !names[i].Unknown() {
      if Own(names, i).Some? {
        EndsOwn(names, i);
      }
      forall v ensures !EndsIn(names, Next(names, i).value, v) {
        if EndsIn(names, Next(names, i).value, v) {
          EndsNext(names, i, v);
        }
      }
    }
  }
}
