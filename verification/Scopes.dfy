/**
  Scopes and their name tables. Every declared object is entered into its own
  scope and all enclosing ones under names that grow towards the root; a lookup
  climbs from scope to scope. Dotted names are paths of identifiers.
*/
module Scopes {
  import opened Wire

  type Path = seq<string>

  datatype Kind = AbstractModule | FileModule | InterfaceScope | StructScope | EnumScope

  datatype Scope = Scope(kind: Kind, shortName: string, fullName: Path, parent: Option<nat>)

  /** A declared object: the scope it is declared in, and its simple name. */
  datatype Object = Object(scope: nat, name: string)

  type Table = map<Path, int>

  // ---- Dotted names ----

  /** An identifier is not empty and has no dot in it. */
  predicate IsIdentifier(id: string) { id != "" && '.' !in id }

  predicate IsPath(p: Path) { forall i | 0 <= i < |p| :: IsIdentifier(p[i]) }

  /** The path as a string, with dots between the identifiers. */
  function Dotted(p: Path): string {
    if |p| == 0 then "" else if |p| == 1 then p[0] else p[0] + "." + Dotted(p[1..])
  }

  /** What follows the first identifier. */
  function Tail(p: Path): string {
    if |p| <= 1 then "" else "." + Dotted(p[1..])
  }

  lemma DottedTail(p: Path)
    requires IsPath(p)
    ensures p != [] ==> Dotted(p) == p[0] + Tail(p) && Dotted(p) != ""
    ensures Tail(p) == "" || Tail(p)[0] == '.'
    ensures p == [] ==> Dotted(p) == ""
  {
  }

  lemma TailMeans(p: Path)
    requires p != []
    ensures Tail(p) == "" <==> |p| == 1
    ensures Tail(p) != "" ==> Tail(p)[1..] == Dotted(p[1..])
  {
    if |p| > 1 {
      assert ("." + Dotted(p[1..]))[1..] == Dotted(p[1..]);
    }
  }

  function FirstDot(s: string): nat {
    if s == "" || s[0] == '.' then 0 else 1 + FirstDot(s[1..])
  }

  lemma {:induction false} HeadEnds(a: string, x: string)
    requires '.' !in a && (x == "" || x[0] == '.')
    ensures FirstDot(a + x) == |a|
    decreases |a|
  {
    if a == "" {
      assert a + x == x;
    } else {
      HeadEnds(a[1..], x);
      assert (a + x)[1..] == a[1..] + x;
    }
  }

  lemma SameHead(a: string, x: string, b: string, y: string)
    requires '.' !in a && '.' !in b && (x == "" || x[0] == '.') && (y == "" || y[0] == '.') && a + x == b + y
    ensures a == b && x == y
  {
    HeadEnds(a, x);
    HeadEnds(b, y);
    assert (a + x)[..|a|] == a && (b + y)[..|b|] == b && (a + x)[|a|..] == x && (b + y)[|b|..] == y;
  }

  /** Two paths are the same exactly if their dotted names are, so tables keyed
      by dotted names are tables keyed by paths. */
  lemma {:induction false} DottedInjective(p: Path, q: Path)
    requires IsPath(p) && IsPath(q) && Dotted(p) == Dotted(q)
    ensures p == q
    decreases |p|
  {
    hide Dotted, Tail;
    DottedTail(p);
    DottedTail(q);
    if p != [] && q != [] {
      SameHead(p[0], Tail(p), q[0], Tail(q));
      TailMeans(p);
      TailMeans(q);
      if |p| > 1 {
        DottedInjective(p[1..], q[1..]);
        assert p == [p[0]] + p[1..] && q == [q[0]] + q[1..];
      }
    }
  }

  // ---- The tree of scopes ----

  /** Parents come first. A file module has the name of the abstract module it
      belongs to; every other scope adds its short name. */
  ghost predicate Tree(scopes: seq<Scope>) {
    && |scopes| > 0 && scopes[0] == Scope(AbstractModule, "", [], None)
    && forall s | 0 < s < |scopes| :: Placed(scopes, s)
  }

  ghost predicate Placed(scopes: seq<Scope>, s: int)
    requires 0 <= s < |scopes|
  {
    && scopes[s].parent.Some? && scopes[s].parent.value < s
    && var parent := scopes[scopes[s].parent.value];
       match scopes[s].kind
       case AbstractModule => parent.kind.AbstractModule? && scopes[s].fullName == parent.fullName + [scopes[s].shortName]
       case FileModule => parent.kind.AbstractModule? && scopes[s].fullName == parent.fullName
       case _ => !parent.kind.AbstractModule? && scopes[s].fullName == parent.fullName + [scopes[s].shortName]
  }

  /** `a` is `s` or encloses it. */
  predicate Encloses(scopes: seq<Scope>, a: nat, s: nat)
    decreases s
  {
    a == s || (s < |scopes| && scopes[s].parent.Some? && scopes[s].parent.value < s && Encloses(scopes, a, scopes[s].parent.value))
  }

  function FullName(scopes: seq<Scope>, o: Object): Path
    requires o.scope < |scopes|
  {
    scopes[o.scope].fullName + [o.name]
  }

  /** The rest of a name, seen from a scope that encloses it. */
  function From(scopes: seq<Scope>, a: nat, name: Path): Path
    requires a < |scopes| && |scopes[a].fullName| <= |name|
  {
    name[|scopes[a].fullName|..]
  }

  lemma {:induction false} EnclosingName(scopes: seq<Scope>, a: nat, s: nat)
    requires Tree(scopes) && s < |scopes| && Encloses(scopes, a, s)
    ensures a < |scopes| && a <= s && scopes[a].fullName <= scopes[s].fullName
    decreases s
  {
    if a != s {
      assert Placed(scopes, s);
      EnclosingName(scopes, a, scopes[s].parent.value);
    }
  }

  lemma {:induction false} RootEncloses(scopes: seq<Scope>, s: nat)
    requires Tree(scopes) && s < |scopes|
    ensures Encloses(scopes, 0, s)
    decreases s
  {
    if s > 0 {
      assert Placed(scopes, s);
      RootEncloses(scopes, scopes[s].parent.value);
    }
  }

  /** Some enclosing scope has any given prefix of the name; the outermost such
      one is not a file module. */
  lemma {:induction false} PrefixScope(scopes: seq<Scope>, s: nat, prefix: Path) returns (a: nat)
    requires Tree(scopes) && s < |scopes| && prefix <= scopes[s].fullName
    ensures Encloses(scopes, a, s) && a < |scopes| && scopes[a].fullName == prefix && !scopes[a].kind.FileModule?
    decreases s
  {
    if s == 0 {
      a := 0;
    } else {
      assert Placed(scopes, s);
      if prefix == scopes[s].fullName && !scopes[s].kind.FileModule? {
        a := s;
      } else {
        a := PrefixScope(scopes, scopes[s].parent.value, prefix);
      }
    }
  }

  // ---- The tables ----

  /** An entry names an object declared in the scope or inside it, by what the
      object's full name adds to the scope's name. */
  ghost predicate EntriesRight(scopes: seq<Scope>, tables: seq<Table>, objects: seq<Object>) {
    && |tables| == |scopes|
    && (forall o | 0 <= o < |objects| :: objects[o].scope < |scopes|)
    && (forall s, n | 0 <= s < |tables| && n in tables[s] ::
          && 0 <= tables[s][n] < |objects|
          && FullName(scopes, objects[tables[s][n]]) == scopes[s].fullName + n
          && Encloses(scopes, s, objects[tables[s][n]].scope))
  }

  /** Every object is entered in its scope and all enclosing ones. */
  ghost predicate EntriesComplete(scopes: seq<Scope>, tables: seq<Table>, objects: seq<Object>)
    requires EntriesRight(scopes, tables, objects)
  {
    forall o, s | 0 <= o < |objects| && 0 <= s < |scopes| && Encloses(scopes, s, objects[o].scope) ::
      EnteredIn(scopes, tables, objects, o, s)
  }

  ghost predicate EnteredIn(scopes: seq<Scope>, tables: seq<Table>, objects: seq<Object>, o: int, s: int)
    requires 0 <= o < |objects| && 0 <= s < |scopes| == |tables| && objects[o].scope < |scopes|
  {
    var full := FullName(scopes, objects[o]);
    scopes[s].fullName <= full && From(scopes, s, full) in tables[s] && tables[s][From(scopes, s, full)] == o
  }

  /** The objects that have a full name. */
  ghost predicate IsNamed(scopes: seq<Scope>, objects: seq<Object>, name: Path) {
    exists o :: 0 <= o < |objects| && objects[o].scope < |scopes| && FullName(scopes, objects[o]) == name
  }

  /** The tables after entering object `o` under `n` in scope `s`, and outwards. */
  ghost function Entered(scopes: seq<Scope>, tables: seq<Table>, s: nat, n: Path, o: nat): seq<Table>
    requires Tree(scopes) && s < |scopes| == |tables|
    decreases s
  {
    var here := tables[s := tables[s][n := o]];
    if s == 0 then here
    else
      assert Placed(scopes, s);
      Entered(scopes, here, scopes[s].parent.value, if scopes[s].kind.FileModule? then n else [scopes[s].shortName] + n, o)
  }

  lemma {:induction false} EnteredAt(scopes: seq<Scope>, tables: seq<Table>, s: nat, n: Path, o: nat, x: nat)
    requires Tree(scopes) && s < |scopes| == |tables| && x < |scopes|
    ensures |Entered(scopes, tables, s, n, o)| == |tables|
    ensures Encloses(scopes, x, s) ==> scopes[x].fullName <= scopes[s].fullName
    ensures Entered(scopes, tables, s, n, o)[x] ==
      if Encloses(scopes, x, s) then tables[x][From(scopes, x, scopes[s].fullName + n) := o] else tables[x]
    decreases s
  {
    if Encloses(scopes, x, s) {
      EnclosingName(scopes, x, s);
    }
    var here := tables[s := tables[s][n := o]];
    assert From(scopes, s, scopes[s].fullName + n) == n;
    if s > 0 {
      assert Placed(scopes, s);
      var p, m := scopes[s].parent.value, if scopes[s].kind.FileModule? then n else [scopes[s].shortName] + n;
      assert scopes[p].fullName + m == scopes[s].fullName + n;
      EnteredAt(scopes, here, p, m, o, x);
      if x == s && Encloses(scopes, s, p) {
        EnclosingName(scopes, s, p);
      }
    }
  }

  /** The name is free in the scope and all enclosing ones. */
  ghost predicate FreeOutwards(scopes: seq<Scope>, tables: seq<Table>, s: nat, n: Path)
    requires Tree(scopes) && s < |scopes| == |tables|
    decreases s
  {
    && n !in tables[s]
    && (s > 0 ==>
         assert Placed(scopes, s);
         FreeOutwards(scopes, tables, scopes[s].parent.value, if scopes[s].kind.FileModule? then n else [scopes[s].shortName] + n))
  }

  lemma {:induction false} FreeElsewhere(scopes: seq<Scope>, tables: seq<Table>, other: seq<Table>, s: nat, n: Path)
    requires Tree(scopes) && s < |scopes| == |tables| == |other|
    requires forall x | 0 <= x <= s :: other[x] == tables[x]
    ensures FreeOutwards(scopes, other, s, n) == FreeOutwards(scopes, tables, s, n)
    decreases s
  {
    if s > 0 {
      assert Placed(scopes, s);
      FreeElsewhere(scopes, tables, other, scopes[s].parent.value, if scopes[s].kind.FileModule? then n else [scopes[s].shortName] + n);
    }
  }

  /** A name is free outwards exactly if no object has the full name. */
  lemma {:induction false} FreeMeans(scopes: seq<Scope>, tables: seq<Table>, objects: seq<Object>, s: nat, n: Path)
    requires Tree(scopes) && EntriesRight(scopes, tables, objects) && EntriesComplete(scopes, tables, objects) && s < |scopes|
    ensures FreeOutwards(scopes, tables, s, n) <==> !IsNamed(scopes, objects, scopes[s].fullName + n)
    decreases s
  {
    var full := scopes[s].fullName + n;
    if n in tables[s] {
      assert FullName(scopes, objects[tables[s][n]]) == full;
    }
    if s > 0 {
      assert Placed(scopes, s);
      var p, m := scopes[s].parent.value, if scopes[s].kind.FileModule? then n else [scopes[s].shortName] + n;
      assert scopes[p].fullName + m == full;
      FreeMeans(scopes, tables, objects, p, m);
    } else if IsNamed(scopes, objects, full) {
      var o :| 0 <= o < |objects| && objects[o].scope < |scopes| && FullName(scopes, objects[o]) == full;
      RootEncloses(scopes, objects[o].scope);
      assert EnteredIn(scopes, tables, objects, o, 0);
      assert From(scopes, 0, full) == full == n;
    }
  }

  // ---- Growing ----

  lemma {:induction false} EnclosesInLonger(scopes: seq<Scope>, scope: Scope, a: nat, s: nat)
    requires Tree(scopes) && s < |scopes|
    ensures Encloses(scopes + [scope], a, s) == Encloses(scopes, a, s)
    decreases s
  {
    if a != s && scopes[s].parent.Some? && scopes[s].parent.value < s {
      EnclosesInLonger(scopes, scope, a, scopes[s].parent.value);
    }
  }

  /** A new scope encloses nothing yet. */
  lemma GrownTables(scopes: seq<Scope>, tables: seq<Table>, objects: seq<Object>, scope: Scope)
    requires Tree(scopes) && EntriesRight(scopes, tables, objects) && EntriesComplete(scopes, tables, objects)
    requires Placed(scopes + [scope], |scopes|)
    ensures Tree(scopes + [scope])
    ensures EntriesRight(scopes + [scope], tables + [map[]], objects)
    ensures EntriesComplete(scopes + [scope], tables + [map[]], objects)
  {
    var grown := scopes + [scope];
    forall s | 0 < s < |grown| ensures Placed(grown, s) {
      assert s < |scopes| ==> Placed(scopes, s);
    }
    forall s, n | 0 <= s < |scopes| && n in tables[s] ensures Encloses(grown, s, objects[tables[s][n]].scope) {
      EnclosesInLonger(scopes, scope, s, objects[tables[s][n]].scope);
    }
    forall o, s | 0 <= o < |objects| && 0 <= s < |grown| && Encloses(grown, s, objects[o].scope)
      ensures EnteredIn(grown, tables + [map[]], objects, o, s)
    {
      EnclosesInLonger(scopes, scope, s, objects[o].scope);
      EnclosingName(scopes, s, objects[o].scope);
      assert EnteredIn(scopes, tables, objects, o, s);
    }
  }

  /** After a successful registration the tables are right and complete again. */
  lemma EnteredKeeps(scopes: seq<Scope>, tables: seq<Table>, objects: seq<Object>, s: nat, name: string)
    requires Tree(scopes) && EntriesRight(scopes, tables, objects) && EntriesComplete(scopes, tables, objects) && s < |scopes|
    requires !IsNamed(scopes, objects, scopes[s].fullName + [name])
    ensures var grown := Entered(scopes, tables, s, [name], |objects|);
      && EntriesRight(scopes, grown, objects + [Object(s, name)])
      && EntriesComplete(scopes, grown, objects + [Object(s, name)])
  {
    EnteredRight(scopes, tables, objects, s, name);
    var grown, more, full := Entered(scopes, tables, s, [name], |objects|), objects + [Object(s, name)], scopes[s].fullName + [name];
    hide EntriesRight, Entered;
    forall o, x | 0 <= o < |more| && 0 <= x < |scopes| && Encloses(scopes, x, more[o].scope)
      ensures EnteredIn(scopes, grown, more, o, x)
    {
      EnteredAt(scopes, tables, s, [name], |objects|, x);
      if o < |objects| {
        assert EnteredIn(scopes, tables, objects, o, x);
        assert FullName(scopes, objects[o]) != full;
        if Encloses(scopes, x, s) {
          RestsDiffer(scopes, x, FullName(scopes, objects[o]), full);
        }
      }
    }
  }

  lemma EnteredRight(scopes: seq<Scope>, tables: seq<Table>, objects: seq<Object>, s: nat, name: string)
    requires Tree(scopes) && EntriesRight(scopes, tables, objects) && s < |scopes|
    ensures EntriesRight(scopes, Entered(scopes, tables, s, [name], |objects|), objects + [Object(s, name)])
  {
    hide Entered;
    var grown, more, full := Entered(scopes, tables, s, [name], |objects|), objects + [Object(s, name)], scopes[s].fullName + [name];
    EnteredAt(scopes, tables, s, [name], |objects|, 0);
    forall x, n | 0 <= x < |grown| && n in grown[x]
      ensures 0 <= grown[x][n] < |more| && FullName(scopes, more[grown[x][n]]) == scopes[x].fullName + n
      ensures Encloses(scopes, x, more[grown[x][n]].scope)
    {
      EnteredAt(scopes, tables, s, [name], |objects|, x);
      if Encloses(scopes, x, s) {
        EnclosingName(scopes, x, s);
        assert scopes[x].fullName + From(scopes, x, full) == full;
      }
    }
  }

  lemma RestsDiffer(scopes: seq<Scope>, x: nat, a: Path, b: Path)
    requires x < |scopes| && scopes[x].fullName <= a && scopes[x].fullName <= b && a != b
    ensures From(scopes, x, a) != From(scopes, x, b)
  {
    assert a == scopes[x].fullName + From(scopes, x, a);
    assert b == scopes[x].fullName + From(scopes, x, b);
  }

  /** A registered type is declared around its scope, under the scope's name, and
      no two types are the same object. */
  ghost predicate Owned(scopes: seq<Scope>, objects: seq<Object>, types: map<int, int>) {
    && (forall s | s in types ::
          && 0 < s < |scopes| && IsType(scopes[s].kind) && 0 <= types[s] < |objects|
          && scopes[s].parent == Some(objects[types[s]].scope) && scopes[s].shortName == objects[types[s]].name)
    && (forall s, x | s in types && x in types && s != x :: types[s] != types[x])
  }

  class Descriptor {
    var scopes: seq<Scope>
    var tables: seq<Table>
    var abstractScopesByName: map<Path, int>
    var objects: seq<Object>
    /** The registered types: which object a type's scope belongs to. */
    var types: map<int, int>

    ghost predicate Valid()
      reads this
    {
      && Tree(scopes) && EntriesRight(scopes, tables, objects) && EntriesComplete(scopes, tables, objects)
      && Cached() && Owned(scopes, objects, types)
    }

    /** Abstract modules are unique by name. */
    ghost predicate Cached()
      reads this
    {
      && [] in abstractScopesByName
      && (forall n | n in abstractScopesByName ::
            0 <= abstractScopesByName[n] < |scopes| && scopes[abstractScopesByName[n]].kind.AbstractModule?
            && scopes[abstractScopesByName[n]].fullName == n)
      && (forall s | 0 <= s < |scopes| && scopes[s].kind.AbstractModule? ::
            scopes[s].fullName in abstractScopesByName && abstractScopesByName[scopes[s].fullName] == s)
    }

    constructor ()
      ensures Valid() && scopes == [Scope(AbstractModule, "", [], None)] && objects == [] && types == map[]
    {
      scopes, tables := [Scope(AbstractModule, "", [], None)], [map[]];
      abstractScopesByName, objects, types := map[[] := 0], [], map[];
    }

    /** Adds a scope at the end. */
    method Add(scope: Scope) returns (s: nat)
      requires Valid() && scope.parent.Some? && scope.parent.value < |scopes| && Placed(scopes + [scope], |scopes|)
      requires scope.kind.AbstractModule? ==> scope.fullName !in abstractScopesByName
      modifies this
      ensures Valid() && s == |old(scopes)| && scopes == old(scopes) + [scope] && tables == old(tables) + [map[]] && objects == old(objects)
      ensures types == old(types)
      ensures abstractScopesByName.Keys == old(abstractScopesByName.Keys) + if scope.kind.AbstractModule? then {scope.fullName} else {}
    {
      hide EntriesRight, EntriesComplete, Tree, Placed;
      s := |scopes|;
      ghost var before := scopes;
      ghost var olds := tables;
      scopes, tables := scopes + [scope], tables + [map[]];
      if scope.kind.AbstractModule? {
        abstractScopesByName := abstractScopesByName[scope.fullName := s];
      }
      GrownTables(before, olds, objects, scope);
    }

    /** The abstract module with a name, made on first use with all its parents. */
    method GetAbstractModuleScope(name: Path) returns (s: nat)
      requires Valid()
      modifies this
      ensures Valid() && s < |scopes| && scopes[s].kind.AbstractModule? && scopes[s].fullName == name
      ensures old(scopes) <= scopes && objects == old(objects) && types == old(types)
      ensures |tables| >= |old(tables)| && tables[..|old(tables)|] == old(tables)
      ensures forall n | n in abstractScopesByName :: n in old(abstractScopesByName) || |n| <= |name|
      ensures forall x | |old(scopes)| <= x < |scopes| :: scopes[x].kind.AbstractModule?
      decreases |name|
    {
      hide EntriesRight, EntriesComplete, Tree;
      if name in abstractScopesByName {
        return abstractScopesByName[name];
      }
      var l := |name| - 1;
      var p := GetAbstractModuleScope(name[..l]);
      assert name[..l] + [name[l]] == name;
      s := Add(Scope(AbstractModule, name[l], name, Some(p)));
    }

    /** A file module belongs to the abstract module of its namespace; interface,
        struct and enum scopes lie in another lexical scope. */
    method NewLexicalScope(kind: Kind, parent: Option<nat>, shortName: string, moduleName: Path) returns (s: nat)
      requires Valid() && !kind.AbstractModule?
      requires !kind.FileModule? ==> parent.Some? && parent.value < |scopes| && !scopes[parent.value].kind.AbstractModule?
      modifies this
      ensures Valid() && s < |scopes| && old(scopes) <= scopes && objects == old(objects) && types == old(types)
      ensures |tables| >= |old(tables)| && tables[..|old(tables)|] == old(tables)
      ensures |old(scopes)| <= s && scopes[s].kind == kind
      ensures forall x | |old(scopes)| <= x < |scopes| && x != s :: scopes[x].kind.AbstractModule?
      ensures scopes[s].fullName == if kind.FileModule? then moduleName else old(scopes[parent.value].fullName) + [shortName]
    {
      hide EntriesRight, EntriesComplete, Tree;
      if kind.FileModule? {
        var p := GetAbstractModuleScope(moduleName);
        s := Add(Scope(FileModule, shortName, moduleName, Some(p)));
      } else {
        s := Add(Scope(kind, shortName, scopes[parent.value].fullName + [shortName], parent));
      }
    }

    /** Enters an object under a longer and longer name, up to the root. */
    method RegisterObjectWithNamePrefix(s: nat, name: string, prefix: Path, o: nat) returns (ok: bool)
      requires Tree(scopes) && s < |scopes| == |tables|
      modifies this`tables
      ensures ok <==> old(FreeOutwards(scopes, tables, s, prefix + [name]))
      ensures ok ==> tables == old(Entered(scopes, tables, s, prefix + [name], o))
      decreases s
    {
      var n := prefix + [name];
      if n in tables[s] {
        return false;
      }
      ghost var before := tables;
      tables := tables[s := tables[s][n := o]];
      if s > 0 {
        assert Placed(scopes, s);
        var longer := if scopes[s].kind.FileModule? then prefix else [scopes[s].shortName] + prefix;
        assert longer + [name] == if scopes[s].kind.FileModule? then n else [scopes[s].shortName] + n;
        FreeElsewhere(scopes, before, tables, scopes[s].parent.value, longer + [name]);
        ok := RegisterObjectWithNamePrefix(scopes[s].parent.value, name, longer, o);
      } else {
        ok := true;
      }
    }

    /** Registration succeeds exactly if no object has the full name yet. */
    method Register(s: nat, name: string) returns (ok: bool)
      requires Valid() && s < |scopes|
      modifies this`tables, this`objects
      ensures ok <==> !IsNamed(scopes, old(objects), scopes[s].fullName + [name])
      ensures ok ==> Valid() && objects == old(objects) + [Object(s, name)]
    {
      FreeMeans(scopes, tables, objects, s, [name]);
      ghost var olds, before := tables, objects;
      var o := |objects|;
      assert [] + [name] == [name];
      ok := RegisterObjectWithNamePrefix(s, name, [], o);
      if ok {
        objects := objects + [Object(s, name)];
        EnteredKeeps(scopes, olds, before, s, name);
      }
    }

    /** RegisterInScope of a type whose scope is `s`: the type goes by the scope's
        name in the scope around it. */
    method RegisterType(s: nat) returns (ok: bool)
      requires Valid() && 0 < s < |scopes| && IsType(scopes[s].kind) && s !in types
      modifies this`tables, this`objects, this`types
      ensures ok <==> !IsNamed(scopes, old(objects), scopes[s].fullName)
      ensures ok ==> Valid() && types == old(types)[s := |old(objects)|]
      ensures ok ==>
        && |objects| == |old(objects)| + 1 && objects[|old(objects)|].scope < |scopes|
        && FullName(scopes, objects[|old(objects)|]) == scopes[s].fullName
    {
      hide EntriesRight, EntriesComplete, Entered;
      assert Placed(scopes, s);
      var o := |objects|;
      ok := Register(scopes[s].parent.value, scopes[s].shortName);
      if ok {
        types := types[s := o];
      }
    }

    /** The nearest scope that has the name. */
    function LookupObject(s: nat, name: Path): Option<int>
      requires s < |scopes| == |tables|
      reads this
      decreases s
    {
      if name in tables[s] then Some(tables[s][name])
      else if scopes[s].parent.Some? && scopes[s].parent.value < s then LookupObject(scopes[s].parent.value, name)
      else None
    }
  }

  // ---- One flat set of names ----

  /** No two objects share a full name. */
  lemma NamesDistinct(d: Descriptor, o: nat, p: nat)
    requires d.Valid() && o < p < |d.objects|
    ensures FullName(d.scopes, d.objects[o]) != FullName(d.scopes, d.objects[p])
  {
    RootEncloses(d.scopes, d.objects[o].scope);
    RootEncloses(d.scopes, d.objects[p].scope);
    assert EnteredIn(d.scopes, d.tables, d.objects, o, 0);
    assert EnteredIn(d.scopes, d.tables, d.objects, p, 0);
  }

  predicate IsType(kind: Kind) { !kind.AbstractModule? && !kind.FileModule? }

  /** No two registered types share a full name. */
  lemma TypesDistinct(d: Descriptor, s: nat, x: nat)
    requires d.Valid() && s in d.types && x in d.types && s != x
    ensures d.scopes[s].fullName != d.scopes[x].fullName
  {
    hide EntriesRight, EntriesComplete;
    assert Placed(d.scopes, s) && Placed(d.scopes, x);
    var o, p := d.types[s], d.types[x];
    assert FullName(d.scopes, d.objects[o]) == d.scopes[s].fullName && FullName(d.scopes, d.objects[p]) == d.scopes[x].fullName;
    if o < p {
      NamesDistinct(d, o, p);
    } else {
      NamesDistinct(d, p, o);
    }
  }

  /** Every type was registered. */
  ghost predicate AllRegistered(d: Descriptor)
    reads d
  {
    forall s | 0 <= s < |d.scopes| && IsType(d.scopes[s].kind) :: s in d.types
  }

  /** No module has the name of a type. */
  ghost predicate ModulesApart(scopes: seq<Scope>) {
    forall s, x | 0 <= s < |scopes| && 0 <= x < |scopes| && IsType(scopes[s].kind) && scopes[x].kind.AbstractModule? ::
      scopes[s].fullName != scopes[x].fullName
  }

  /** The scope is a file and its module's table has the name. */
  ghost predicate InModule(d: Descriptor, s: nat, n: Path)
    requires s < |d.scopes|
    reads d
  {
    && d.scopes[s].kind.FileModule? && d.scopes[s].parent.Some? && d.scopes[s].parent.value < |d.tables|
    && n in d.tables[d.scopes[s].parent.value]
  }

  /** `a` is the scope around `s` with the longest name under which `n` is the
      name of an object. */
  ghost predicate Nearest(scopes: seq<Scope>, objects: seq<Object>, s: nat, n: Path, a: int) {
    && 0 <= a < |scopes| && Encloses(scopes, a, s) && IsNamed(scopes, objects, scopes[a].fullName + n)
    && forall b | 0 <= b < |scopes| && Encloses(scopes, b, s) && IsNamed(scopes, objects, scopes[b].fullName + n) ::
         |scopes[b].fullName| <= |scopes[a].fullName|
  }

  /** Nothing around `s` gives `n` a meaning. */
  ghost predicate Nowhere(scopes: seq<Scope>, objects: seq<Object>, s: nat, n: Path) {
    forall a | 0 <= a < |scopes| && Encloses(scopes, a, s) :: !IsNamed(scopes, objects, scopes[a].fullName + n)
  }

  ghost predicate IsAt(scopes: seq<Scope>, objects: seq<Object>, o: int, a: int, n: Path) {
    0 <= o < |objects| && 0 <= a < |scopes| && objects[o].scope < |scopes| && FullName(scopes, objects[o]) == scopes[a].fullName + n
  }

  /** A lookup finds the object whose full name is the longest enclosing scope's
      name followed by what was looked up, and nothing if there is none. */
  ghost predicate Flat(d: Descriptor, s: nat, n: Path)
    requires s < |d.scopes| == |d.tables|
    reads d
  {
    var r := d.LookupObject(s, n);
    if r.Some? then exists a :: Nearest(d.scopes, d.objects, s, n, a) && IsAt(d.scopes, d.objects, r.value, a, n)
    else Nowhere(d.scopes, d.objects, s, n)
  }

  /** The object is declared in scope `a` or inside it, and goes by `n` there. */
  ghost predicate DeclaredIn(scopes: seq<Scope>, objects: seq<Object>, o: int, a: int, n: Path) {
    IsAt(scopes, objects, o, a, n) && Encloses(scopes, a, objects[o].scope)
  }

  /** A table has exactly the objects that are declared in the scope or inside
      it. */
  lemma EntryExactly(d: Descriptor, s: nat, n: Path)
    requires d.Valid() && s < |d.scopes|
    ensures n in d.tables[s] <==> exists o :: DeclaredIn(d.scopes, d.objects, o, s, n)
    ensures n in d.tables[s] ==> DeclaredIn(d.scopes, d.objects, d.tables[s][n], s, n)
  {
    if n in d.tables[s] {
      assert DeclaredIn(d.scopes, d.objects, d.tables[s][n], s, n);
    }
    if exists o :: DeclaredIn(d.scopes, d.objects, o, s, n) {
      var o :| DeclaredIn(d.scopes, d.objects, o, s, n);
      assert EnteredIn(d.scopes, d.tables, d.objects, o, s);
      assert From(d.scopes, s, d.scopes[s].fullName + n) == n;
    }
  }

  /** Scope `a` around `s` is where the lookup ends: it has the name, and no scope
      around `s` with a longer name has it. */
  ghost predicate EndsAt(d: Descriptor, s: nat, n: Path, a: int)
    requires |d.scopes| == |d.tables|
    reads d
  {
    && 0 <= a < |d.scopes| && Encloses(d.scopes, a, s) && n in d.tables[a]
    && forall b | 0 <= b < |d.scopes| && Encloses(d.scopes, b, s) && n in d.tables[b] :: |d.scopes[b].fullName| <= |d.scopes[a].fullName|
  }

  lemma {:induction false} LookupEnds(d: Descriptor, s: nat, n: Path)
    requires Tree(d.scopes) && |d.tables| == |d.scopes| && s < |d.scopes|
    ensures var r := d.LookupObject(s, n);
      if r.Some? then exists a :: EndsAt(d, s, n, a) && d.tables[a][n] == r.value
      else forall a | 0 <= a < |d.scopes| && Encloses(d.scopes, a, s) :: n !in d.tables[a]
    decreases s
  {
    if n in d.tables[s] {
      forall b | 0 <= b < |d.scopes| && Encloses(d.scopes, b, s) ensures |d.scopes[b].fullName| <= |d.scopes[s].fullName| {
        EnclosingName(d.scopes, b, s);
      }
      assert EndsAt(d, s, n, s);
    } else if s > 0 {
      assert Placed(d.scopes, s);
      var p := d.scopes[s].parent.value;
      LookupEnds(d, p, n);
      if d.LookupObject(p, n).Some? {
        var a :| EndsAt(d, p, n, a) && d.tables[a][n] == d.LookupObject(p, n).value;
        assert EndsAt(d, s, n, a);
      }
    }
  }

  /** Two scopes around the same scope whose names are equally long have the same
      name. */
  lemma SameLength(scopes: seq<Scope>, a: nat, b: nat, s: nat)
    requires Tree(scopes) && s < |scopes| && Encloses(scopes, a, s) && Encloses(scopes, b, s)
    ensures a < |scopes| && b < |scopes|
    ensures |scopes[a].fullName| == |scopes[b].fullName| ==> scopes[a].fullName == scopes[b].fullName
  {
    EnclosingName(scopes, a, s);
    EnclosingName(scopes, b, s);
  }

  /** The lookup is flat if and only if the name means nothing around `s`, or the
      object with the nearest full name is declared inside a scope around `s` that
      has that name. */
  lemma FlatExactly(d: Descriptor, s: nat, n: Path)
    requires d.Valid() && s < |d.scopes|
    ensures |d.tables| == |d.scopes|
    ensures Flat(d, s, n) <==>
      || Nowhere(d.scopes, d.objects, s, n)
      || exists a, o :: Nearest(d.scopes, d.objects, s, n, a) && DeclaredIn(d.scopes, d.objects, o, a, n)
  {
    hide EntriesRight, EntriesComplete, Nearest, Nowhere, DeclaredIn, IsAt, Encloses;
    TablesFit(d);
    LookupEnds(d, s, n);
    var r := d.LookupObject(s, n);
    if r.None? {
      NothingDeclared(d, s, n);
    } else {
      var a :| EndsAt(d, s, n, a) && d.tables[a][n] == r.value;
      FoundMeans(d, s, n, a);
      if exists x, o :: Nearest(d.scopes, d.objects, s, n, x) && DeclaredIn(d.scopes, d.objects, o, x, n) {
        var x, o :| Nearest(d.scopes, d.objects, s, n, x) && DeclaredIn(d.scopes, d.objects, o, x, n);
        NearestFound(d, s, n, a, x, o);
      }
      if Flat(d, s, n) {
        var x :| Nearest(d.scopes, d.objects, s, n, x) && IsAt(d.scopes, d.objects, r.value, x, n);
        FoundNearest(d, s, n, a, x);
      }
    }
  }

  lemma NothingDeclared(d: Descriptor, s: nat, n: Path)
    requires d.Valid() && s < |d.scopes|
    requires forall a | 0 <= a < |d.scopes| && Encloses(d.scopes, a, s) :: n !in d.tables[a]
    ensures !exists a, o :: Nearest(d.scopes, d.objects, s, n, a) && DeclaredIn(d.scopes, d.objects, o, a, n)
  {
    forall a, o | Nearest(d.scopes, d.objects, s, n, a) ensures !DeclaredIn(d.scopes, d.objects, o, a, n) {
      EntryExactly(d, a, n);
    }
  }

  lemma FoundMeans(d: Descriptor, s: nat, n: Path, a: int)
    requires d.Valid() && s < |d.scopes| && EndsAt(d, s, n, a)
    ensures DeclaredIn(d.scopes, d.objects, d.tables[a][n], a, n) && !Nowhere(d.scopes, d.objects, s, n)
  {
    hide EntriesRight, EntriesComplete;
    EntryExactly(d, a, n);
    assert IsNamed(d.scopes, d.objects, d.scopes[a].fullName + n);
  }

  lemma NearestFound(d: Descriptor, s: nat, n: Path, a: int, x: int, o: int)
    requires d.Valid() && s < |d.scopes| && EndsAt(d, s, n, a)
    requires Nearest(d.scopes, d.objects, s, n, x) && DeclaredIn(d.scopes, d.objects, o, x, n)
    ensures Nearest(d.scopes, d.objects, s, n, a) && IsAt(d.scopes, d.objects, d.tables[a][n], a, n)
  {
    hide EntriesRight, EntriesComplete;
    EntryExactly(d, x, n);
    FoundMeans(d, s, n, a);
    assert IsNamed(d.scopes, d.objects, d.scopes[a].fullName + n);
    SameLength(d.scopes, a, x, s);
  }

  lemma FoundNearest(d: Descriptor, s: nat, n: Path, a: int, x: int)
    requires d.Valid() && s < |d.scopes| && EndsAt(d, s, n, a)
    requires Nearest(d.scopes, d.objects, s, n, x) && IsAt(d.scopes, d.objects, d.tables[a][n], x, n)
    ensures Nearest(d.scopes, d.objects, s, n, a) && DeclaredIn(d.scopes, d.objects, d.tables[a][n], a, n)
  {
    hide EntriesRight, EntriesComplete;
    FoundMeans(d, s, n, a);
    SameRest(d.scopes[a].fullName, d.scopes[x].fullName, n);
  }

  lemma SameRest(a: Path, b: Path, n: Path)
    requires a + n == b + n
    ensures a == b
  {
    assert |a| == |b|;
    assert (a + n)[..|a|] == a && (b + n)[..|b|] == b;
  }

  /** A scope's table, or that of the module around a file, has every object
      whose full name starts with the scope's name. */
  lemma TableHasAll(d: Descriptor, s: nat, n: Path, o: nat)
    requires d.Valid() && AllRegistered(d) && ModulesApart(d.scopes) && s < |d.scopes| && n != [] && o < |d.objects|
    requires FullName(d.scopes, d.objects[o]) == d.scopes[s].fullName + n
    ensures n in d.tables[s] || InModule(d, s, n)
  {
    var scopes := d.scopes;
    var home := d.objects[o].scope;
    assert scopes[home].fullName == (scopes[s].fullName + n)[..|scopes[s].fullName + n| - 1];
    var x := PrefixScope(scopes, home, scopes[s].fullName);
    assert EnteredIn(scopes, d.tables, d.objects, o, x);
    assert From(scopes, x, scopes[s].fullName + n) == n;
    if s != x {
      assert s > 0 ==> Placed(scopes, s);
      if IsType(scopes[s].kind) && IsType(scopes[x].kind) {
        TypesDistinct(d, s, x);
      }
      assert scopes[s].kind.FileModule?;
      assert scopes[scopes[s].parent.value].fullName == scopes[x].fullName;
    }
  }

  /** When every type is registered and no module has the name of a type, every
      lookup is flat. */
  lemma LookupIsFlat(d: Descriptor, s: nat, n: Path)
    requires d.Valid() && AllRegistered(d) && ModulesApart(d.scopes) && s < |d.scopes| && n != []
    ensures |d.tables| == |d.scopes| && Flat(d, s, n)
  {
    hide EntriesRight, EntriesComplete, Flat, Nowhere, DeclaredIn;
    FlatExactly(d, s, n);
    if !Nowhere(d.scopes, d.objects, s, n) {
      var a := SomeNearest(d, s, n);
      var o :| 0 <= o < |d.objects| && d.objects[o].scope < |d.scopes| && FullName(d.scopes, d.objects[o]) == d.scopes[a].fullName + n;
      TablesFit(d);
      TableHasAll(d, a, n, o);
      if n in d.tables[a] {
        EntryExactly(d, a, n);
      } else {
        ModuleNearest(d, s, n, a);
        EntryExactly(d, d.scopes[a].parent.value, n);
      }
    }
  }

  /** A scope around `s` with the longest name among those that give `n` a
      meaning. */
  lemma {:induction false} SomeNearest(d: Descriptor, s: nat, n: Path) returns (a: nat)
    requires Tree(d.scopes) && s < |d.scopes| && !Nowhere(d.scopes, d.objects, s, n)
    ensures Nearest(d.scopes, d.objects, s, n, a)
    decreases s
  {
    if IsNamed(d.scopes, d.objects, d.scopes[s].fullName + n) {
      a := s;
      forall b | 0 <= b < |d.scopes| && Encloses(d.scopes, b, s) ensures |d.scopes[b].fullName| <= |d.scopes[s].fullName| {
        EnclosingName(d.scopes, b, s);
      }
    } else {
      assert s > 0 ==> Placed(d.scopes, s);
      a := SomeNearest(d, d.scopes[s].parent.value, n);
    }
  }

  lemma ModuleNearest(d: Descriptor, s: nat, n: Path, a: nat)
    requires Tree(d.scopes) && s < |d.scopes| && Nearest(d.scopes, d.objects, s, n, a) && InModule(d, a, n)
    ensures Nearest(d.scopes, d.objects, s, n, d.scopes[a].parent.value)
  {
    assert a > 0 && Placed(d.scopes, a);
    EnclosesParent(d.scopes, a, s);
  }

  lemma {:induction false} EnclosesParent(scopes: seq<Scope>, a: nat, s: nat)
    requires Tree(scopes) && s < |scopes| && Encloses(scopes, a, s) && 0 < a < |scopes| && scopes[a].parent.Some?
    ensures Encloses(scopes, scopes[a].parent.value, s)
    decreases s
  {
    if a == s {
      assert Placed(scopes, s);
      assert Encloses(scopes, scopes[a].parent.value, scopes[a].parent.value);
    } else {
      assert Placed(scopes, s);
      EnclosesParent(scopes, a, scopes[s].parent.value);
    }
  }

  lemma TablesFit(d: Descriptor)
    requires d.Valid()
    ensures |d.tables| == |d.scopes|
  {
  }

  /** Where a module has the name of a type, the lookup from inside the type misses
      what the module declares, although the name taken as a whole exists. */
  method ModuleHidesNames() returns (d: Descriptor, s: nat)
    ensures d.Valid() && s < |d.scopes| == |d.tables| && AllRegistered(d) && !ModulesApart(d.scopes)
    ensures d.LookupObject(s, ["X"]).None? && IsNamed(d.scopes, d.objects, d.scopes[s].fullName + ["X"])
    ensures !Flat(d, s, ["X"])
  {
    hide EntriesRight, EntriesComplete, Tree, Placed, ModulesApart, IsNamed, Flat, Owned, Descriptor.Cached;
    d := new Descriptor();
    var file := d.NewLexicalScope(FileModule, None, "", ["foo"]);
    s := d.NewLexicalScope(StructScope, Some(file), "Baz", []);
    assert d.scopes[s].fullName == ["foo", "Baz"];
    NothingNamed(d.scopes, ["foo", "Baz"]);
    var ok := d.RegisterType(s);
    assert OnlyType(d.scopes, s);
    ghost var before := d.scopes;
    var other := d.NewLexicalScope(FileModule, None, "", ["foo", "Baz"]);
    StillThere(before, d.scopes, d.objects[0], s, other);
    OneNamed(d, ["foo", "Baz", "X"]);
    assert ["foo", "Baz"] + ["X"] == ["foo", "Baz", "X"];
    ok := d.Register(other, "X");
    Collision(d, s, other);
  }

  ghost predicate OnlyType(scopes: seq<Scope>, s: nat) {
    forall x | 0 <= x < |scopes| && IsType(scopes[x].kind) :: x == s
  }

  lemma StillThere(before: seq<Scope>, after: seq<Scope>, o: Object, s: nat, other: nat)
    requires before <= after && o.scope < |before| && s < |before| <= other < |after| && after[other].kind.FileModule? && OnlyType(before, s)
    requires forall x | |before| <= x < |after| && x != other :: after[x].kind.AbstractModule?
    ensures after[s] == before[s] && FullName(after, o) == FullName(before, o) && OnlyType(after, s)
  {
    forall x | 0 <= x < |after| && IsType(after[x].kind) ensures x == s {
      assert x < |before| ==> after[x] == before[x];
    }
  }

  lemma NothingNamed(scopes: seq<Scope>, name: Path)
    ensures !IsNamed(scopes, [], name)
  {
  }

  lemma OneNamed(d: Descriptor, name: Path)
    requires |d.objects| == 1 && d.objects[0].scope < |d.scopes| && |FullName(d.scopes, d.objects[0])| < |name|
    ensures !IsNamed(d.scopes, d.objects, name)
  {
  }

  lemma Collision(d: Descriptor, s: nat, other: nat)
    requires d.Valid() && s < |d.scopes| && other < |d.scopes| && |d.objects| == 2 && d.objects[1] == Object(other, "X")
    requires d.objects[0].scope < |d.scopes| && FullName(d.scopes, d.objects[0]) == ["foo", "Baz"]
    requires d.scopes[s].kind.StructScope? && d.scopes[other].kind.FileModule?
    requires d.scopes[s].fullName == d.scopes[other].fullName == ["foo", "Baz"]
    ensures !ModulesApart(d.scopes) && |d.tables| == |d.scopes| && d.LookupObject(s, ["X"]).None?
    ensures IsNamed(d.scopes, d.objects, d.scopes[s].fullName + ["X"]) && !Flat(d, s, ["X"])
  {
    hide EntriesRight, EntriesComplete, Nearest;
    TablesFit(d);
    var scopes := d.scopes;
    assert FullName(scopes, d.objects[1]) == scopes[s].fullName + ["X"];
    assert IsNamed(scopes, d.objects, scopes[s].fullName + ["X"]);
    assert other != 0;
    assert Placed(scopes, other);
    assert scopes[scopes[other].parent.value].kind.AbstractModule?;
    NoType(scopes, s, other);
    LastName(scopes, d.objects[0], ["foo", "Baz"]);
    NotFound(d, s);
  }

  lemma LastName(scopes: seq<Scope>, o: Object, name: Path)
    requires o.scope < |scopes| && FullName(scopes, o) == name && name != []
    ensures o.name == name[|name| - 1]
  {
  }

  /** No type encloses a module. */
  lemma {:induction false} NoType(scopes: seq<Scope>, a: nat, s: nat)
    requires Tree(scopes) && s < |scopes| && a < |scopes| && IsType(scopes[a].kind) && !IsType(scopes[s].kind)
    ensures !Encloses(scopes, a, s)
    decreases s
  {
    if s > 0 {
      assert Placed(scopes, s);
      NoType(scopes, a, scopes[s].parent.value);
    }
  }

  lemma {:induction false} NotFound(d: Descriptor, s: nat)
    requires d.Valid() && s < |d.scopes| && |d.objects| == 2 && d.objects[0].name != "X" && |FullName(d.scopes, d.objects[1])| == 3
    requires |d.scopes[s].fullName| < 2 || (|d.scopes[s].fullName| == 2 && IsType(d.scopes[s].kind) && !Encloses(d.scopes, s, d.objects[1].scope))
    ensures d.LookupObject(s, ["X"]).None?
    decreases s
  {
    NotThere(d, s);
    if s > 0 {
      assert Placed(d.scopes, s);
      NotFound(d, d.scopes[s].parent.value);
    }
  }

  lemma NotThere(d: Descriptor, s: nat)
    requires d.Valid() && s < |d.scopes| && |d.objects| == 2 && d.objects[0].name != "X" && |FullName(d.scopes, d.objects[1])| == 3
    requires |d.scopes[s].fullName| < 2 || (|d.scopes[s].fullName| == 2 && !Encloses(d.scopes, s, d.objects[1].scope))
    ensures ["X"] !in d.tables[s]
  {
    EntryExactly(d, s, ["X"]);
    forall o ensures !DeclaredIn(d.scopes, d.objects, o, s, ["X"]) {
      if o == 0 && IsAt(d.scopes, d.objects, o, s, ["X"]) {
        LastName(d.scopes, d.objects[0], d.scopes[s].fullName + ["X"]);
      }
    }
  }
}
