/** What a kept analysis is worth: its function runs alike in both versions. */
module KeptRuns {
  import opened Wrappers
  import opened Ast
  import opened Sequences
  import opened Text
  import opened Dependencies
  import opened Lookups
  import opened Semantics
  import opened DependencyMeaning
  import opened Invalidation
  import opened Reuse

  // ---- the globals of a program: its functions, and its methods under `Owner.method`

  function CodeOf(f: Statement): Value
    requires f.Function?
  {
    ClosureV(Names(f.params), f.body, [])
  }

  function MethodsOf(owner: string, children: seq<Statement>): seq<Binding> {
    if children == [] then []
    else
      (if children[0].Function? then [Binding(owner + "." + children[0].name, CodeOf(children[0]))] else []) +
      MethodsOf(owner, children[1..])
  }

  function StatementGlobals(s: Statement): seq<Binding> {
    match s
    case Function(name, _, _, _, _, _, _) => [Binding(name, CodeOf(s))]
    case Type(name, _, _, fields, _) => MethodsOf(name, fields)
    case Impl(_, typeName, _, methods) => MethodsOf(typeName, methods)
    case _ => []
  }

  function Globals(p: seq<Statement>): seq<Binding> {
    if p == [] then [] else StatementGlobals(p[0]) + Globals(p[1..])
  }

  /** No type is named like the unit of an impl block. */
  predicate PlainTypeNames(p: seq<Statement>) {
    forall s | s in p :: s.Type? ==> !("impl::" <= s.name)
  }

  /** Functions with the same hash pair are the same code. */
  ghost predicate CodeIsStamped(t: Tools) {
    forall f: Statement, g: Statement | f.Function? && g.Function? && t.stamp(f) == t.stamp(g) :: CodeOf(f) == CodeOf(g)
  }

  /** `u` is the unit of the function or method `f`. */
  ghost predicate Stands(t: Tools, u: Unit, f: Statement) {
    f.Function? && u.kind == FunctionUnit && (u.hash, u.hash2) == t.stamp(f) && forall n | n in BlockDeps(f.body) :: n in u.deps
  }

  /** The unit `u` of some function of that code. */
  ghost predicate StandsForCode(t: Tools, u: Unit, v: Value) {
    exists f :: Stands(t, u, f) && v == CodeOf(f)
  }

  // ---- every global has a unit that is keyed by its name, and every such unit is a global

  lemma OwnBodyIsListed(f: Statement)
    requires f.Function?
    ensures forall n | n in BlockDeps(f.body) :: n in Elements(StmtDeps(f))
  {
    assert StmtDeps(f) == ParamDeps(f.params) + BlockDeps(f.body);
  }

  lemma MethodUnitStands(t: Tools, parentKey: string, kind: UnitKind, f: Statement, i: nat)
    requires f.Function?
    ensures Stands(t, ChildUnit(t, parentKey, kind, f, i), f)
    ensures ChildUnit(t, parentKey, kind, f, i).key == MethodOwner(parentKey) + "." + f.name
  {
    OwnBodyIsListed(f);
  }

  lemma {:induction false} MethodIsChild(owner: string, children: seq<Statement>, b: Binding)
    requires b in MethodsOf(owner, children)
    ensures exists i: nat | i < |children| ::
      children[i].Function? && b == Binding(owner + "." + children[i].name, CodeOf(children[i]))
  {
    var first := if children[0].Function? then [Binding(owner + "." + children[0].name, CodeOf(children[0]))] else [];
    if b in first {
      assert children[0].Function?;
    } else {
      MethodIsChild(owner, children[1..], b);
      var i: nat :| i < |children[1..]| && children[1..][i].Function? &&
                    b == Binding(owner + "." + children[1..][i].name, CodeOf(children[1..][i]));
      assert children[i + 1] == children[1..][i];
    }
  }

  lemma {:induction false} ChildIsMethod(owner: string, children: seq<Statement>, i: nat)
    requires i < |children| && children[i].Function?
    ensures Binding(owner + "." + children[i].name, CodeOf(children[i])) in MethodsOf(owner, children)
  {
    if i > 0 {
      assert children[1..][i - 1] == children[i];
      ChildIsMethod(owner, children[1..], i - 1);
    }
  }

  function OwnerName(s: Statement): string
    requires Children(s).Some?
  {
    if s.Type? then s.name else s.typeName
  }

  lemma OwnerIsMethodOwner(t: Tools, s: Statement)
    requires Children(s).Some? && (s.Type? ==> !("impl::" <= s.name))
    ensures MethodOwner(UnitKey(t, s)) == OwnerName(s)
    ensures StatementGlobals(s) == MethodsOf(OwnerName(s), Children(s).value)
  {
    if s.Impl? { assert ("impl::" + s.typeName)[6..] == s.typeName; }
  }

  lemma ChildIsUnit(t: Tools, s: Statement, i: nat)
    requires Children(s).Some? && i < |Children(s).value|
    ensures ChildUnit(t, UnitKey(t, s), KindOf(s), Children(s).value[i], i) in StatementUnits(t, s)
  {
    hide StmtDeps;
    assert StatementUnits(t, s)[i + 1] == ChildUnits(t, s)[i];
  }

  lemma StatementGlobalHasUnit(t: Tools, s: Statement, b: Binding)
    requires (s.Type? ==> !("impl::" <= s.name)) && b in StatementGlobals(s)
    ensures exists u | u in StatementUnits(t, s) :: u.key == b.name && StandsForCode(t, u, b.value)
  {
    hide BlockDeps, StatementUnits, ChildUnit, MethodsOf, Stands;
    if s.Function? {
      FirstUnit(t, s);
      FunctionUnitStands(t, s);
    } else {
      OwnerIsMethodOwner(t, s);
      var children := Children(s).value;
      MethodIsChild(OwnerName(s), children, b);
      var i: nat :| i < |children| && children[i].Function? &&
                    b == Binding(OwnerName(s) + "." + children[i].name, CodeOf(children[i]));
      MethodUnitStands(t, UnitKey(t, s), KindOf(s), children[i], i);
      ChildIsUnit(t, s, i);
    }
  }

  lemma FunctionUnitStands(t: Tools, f: Statement)
    requires f.Function?
    ensures UnitOf(t, f).key == f.name && Stands(t, UnitOf(t, f), f)
  {
    OwnBodyIsListed(f);
  }

  lemma FunctionUnitIsGlobal(t: Tools, s: Statement, u: Unit)
    requires (s.Type? ==> !("impl::" <= s.name)) && u in StatementUnits(t, s) && u.kind == FunctionUnit
    ensures exists v :: Binding(u.key, v) in StatementGlobals(s) && StandsForCode(t, u, v)
  {
    hide StmtDeps, BlockDeps, MethodsOf;
    if u == UnitOf(t, s) {
      FunctionUnitStands(t, s);
      assert Binding(u.key, CodeOf(s)) in StatementGlobals(s);
    } else {
      var i :| 0 <= i < |ChildUnits(t, s)| && ChildUnits(t, s)[i] == u;
      var child := Children(s).value[i];
      assert child.Function?;
      OwnerIsMethodOwner(t, s);
      MethodUnitStands(t, UnitKey(t, s), KindOf(s), child, i);
      ChildIsMethod(OwnerName(s), Children(s).value, i);
      assert StandsForCode(t, u, CodeOf(child));
    }
  }

  lemma {:induction false} GlobalHasUnit(t: Tools, p: seq<Statement>, b: Binding)
    requires PlainTypeNames(p) && b in Globals(p)
    ensures exists u | u in Units(t, p) :: u.key == b.name && StandsForCode(t, u, b.value)
  {
    hide StatementGlobals, StatementUnits, StandsForCode;
    if b in StatementGlobals(p[0]) {
      StatementGlobalHasUnit(t, p[0], b);
    } else {
      GlobalHasUnit(t, p[1..], b);
    }
  }

  lemma {:induction false} UnitIsGlobal(t: Tools, p: seq<Statement>, u: Unit)
    requires PlainTypeNames(p) && u in Units(t, p) && u.kind == FunctionUnit
    ensures exists v :: Binding(u.key, v) in Globals(p) && StandsForCode(t, u, v)
  {
    hide StatementGlobals, StatementUnits, StandsForCode;
    if u in StatementUnits(t, p[0]) {
      FunctionUnitIsGlobal(t, p[0], u);
    } else {
      UnitIsGlobal(t, p[1..], u);
    }
  }

  // ---- looking a function up

  lemma FoundIsBound(env: seq<Binding>, name: string)
    ensures Found(env, name).Some? ==> Binding(name, Found(env, name).value) in env
    ensures Found(env, name).None? ==> forall b | b in env :: b.name != name
  {
    LookupIsLast(env, name);
    if Found(env, name).Some? { assert env[Lookup(env, name)] == Binding(name, Found(env, name).value); }
  }

  /** The last environment wins. */
  lemma FoundInEither(front: seq<Binding>, back: seq<Binding>, name: string)
    ensures Found(front + back, name) == if Found(back, name).Some? then Found(back, name) else Found(front, name)
  {
    hide Lookup;
    LookupIsLast(front, name);
    LookupIsLast(back, name);
    var j := Lookup(back, name);
    var k := if 0 <= j then |front| + j else Lookup(front, name);
    LookupIs(front + back, name, k);
  }

  /** A name finds code exactly when a function unit has it as its key. */
  lemma FoundIsUnit(t: Tools, p: seq<Statement>, name: string)
    requires UniqueKeys(Units(t, p)) && PlainTypeNames(p)
    ensures Found(Globals(p), name).Some? ==>
      exists u | u in Units(t, p) :: u.key == name && u.kind == FunctionUnit && StandsForCode(t, u, Found(Globals(p), name).value)
    ensures Found(Globals(p), name).None? ==> forall u | u in Units(t, p) :: !(u.key == name && u.kind == FunctionUnit)
  {
    hide Found, Globals, Units, UniqueKeys, PlainTypeNames;
    FoundIsBound(Globals(p), name);
    if Found(Globals(p), name).Some? {
      GlobalHasUnit(t, p, Binding(name, Found(Globals(p), name).value));
    } else {
      forall u | u in Units(t, p) && u.kind == FunctionUnit ensures u.key != name { UnitIsGlobal(t, p, u); }
    }
  }

  // ---- the names a unit's cone lists

  ghost function NamesBelow(units: seq<Unit>, u: Unit): iset<string> {
    iset v, n | v in Cone(units, u) && n in v.deps :: n
  }

  lemma ConeBegins(units: seq<Unit>, u: Unit)
    requires u in units
    ensures u in Cone(units, u)
  {
    assert IsPath(units, [u]) && [u][0] == u && [u][|[u]| - 1] == u;
  }

  lemma ConeGrows(units: seq<Unit>, u: Unit, v: Unit, w: Unit)
    requires v in Cone(units, u) && w in units && DependsOn(v, w.key)
    ensures w in Cone(units, u)
  {
    hide DependsOn;
    var path :| IsPath(units, path) && path[0] == u && path[|path| - 1] == v;
    var longer := path + [w];
    forall i | 0 < i < |longer| ensures DependsOn(longer[i - 1], longer[i].key) {
      if i < |path| { assert longer[i] == path[i] && longer[i - 1] == path[i - 1]; }
    }
    assert IsPath(units, longer) && longer[0] == u && longer[|longer| - 1] == w;
  }

  lemma ListedKeyIsDependedOn(v: Unit, name: string)
    requires name in v.deps
    ensures DependsOn(v, name)
  {
    assert Spellings(name)[0] == name;
  }

  /** One name that the cone lists: both versions bind it to the same code or to none. */
  lemma ListedNameIsShared(t: Tools, cached: seq<Statement>, current: seq<Statement>, s: set<string>, u: Unit, name: string)
    requires UniqueKeys(Units(t, cached)) && UniqueKeys(Units(t, current)) && CodeIsStamped(t)
    requires PlainTypeNames(cached) && PlainTypeNames(current)
    requires Seeds(Units(t, cached), Units(t, current)) <= s && Closed(s, Units(t, current))
    requires u in Units(t, current) && u.key !in s && name in NamesBelow(Units(t, current), u)
    ensures Found(Globals(cached), name) == Found(Globals(current), name)
    ensures Found(Globals(current), name).Some? ==>
      exists w | w in Cone(Units(t, current), u) :: StandsForCode(t, w, Found(Globals(current), name).value)
  {
    hide Units, UniqueKeys, Seeds, Closed, Cone, DependsOn, Found, Globals, PlainTypeNames, CodeIsStamped;
    var was, now := Units(t, cached), Units(t, current);
    var v :| v in Cone(now, u) && name in v.deps;
    ListedKeyIsDependedOn(v, name);
    ValidConeIsShared(was, now, s, u);
    assert name !in s;
    FoundIsUnit(t, cached, name);
    FoundIsUnit(t, current, name);
    if Found(Globals(current), name).Some? {
      var w :| w in now && w.key == name && w.kind == FunctionUnit && StandsForCode(t, w, Found(Globals(current), name).value);
      ConeGrows(now, u, v, w);
      ValidUnitIsShared(was, now, s, w);
      var old_ :| old_ in was && old_.key == name && old_.kind == FunctionUnit &&
                  StandsForCode(t, old_, Found(Globals(cached), name).value);
      UniqueByKey(was, w);
      UniqueByKey(was, old_);
      SameCode(t, w, Found(Globals(cached), name).value, Found(Globals(current), name).value);
    } else if Found(Globals(cached), name).Some? {
      var w :| w in was && w.key == name && w.kind == FunctionUnit;
      GoneUnitIsASeed(was, now, w);
      assert false;
    }
  }

  lemma SameCode(t: Tools, u: Unit, a: Value, b: Value)
    requires CodeIsStamped(t) && StandsForCode(t, u, a) && StandsForCode(t, u, b)
    ensures a == b
  {
    hide BlockDeps;
    var f :| Stands(t, u, f) && a == CodeOf(f);
    var g :| Stands(t, u, g) && b == CodeOf(g);
    assert t.stamp(f) == t.stamp(g);
  }

  lemma GoneUnitIsASeed(previous: seq<Unit>, current: seq<Unit>, u: Unit)
    requires UniqueKeys(previous) && u in previous && forall w | w in current :: !(w.key == u.key && w.kind == u.kind)
    ensures u.key in Seeds(previous, current)
  {
    hide ByKey;
    UniqueByKey(previous, u);
  }

  // ---- the main result

  /** The dotted names that code assigns are listed, in every function of the program. */
  ghost predicate AllListTheirLookups(p: seq<Statement>) {
    forall b | b in Globals(p) && b.value.ClosureV? :: ListsItsLookups(b.value.body)
  }

  lemma CodeInTheCone(t: Tools, p: seq<Statement>, u: Unit, w: Unit, v: Value)
    requires w in Cone(Units(t, p), u) && StandsForCode(t, w, v) && (v.ClosureV? ==> ListsItsLookups(v.body))
    ensures ConeHolds(NamesBelow(Units(t, p), u), v)
  {
    hide Cone, BlockDeps, BlockLookups, ListsItsLookups;
    var cone := NamesBelow(Units(t, p), u);
    var f :| Stands(t, w, f) && v == CodeOf(f);
    assert Listed(BlockDeps(f.body), cone);
    ListedIsLookedUp(cone, f.body);
  }

  /** The two versions agree on what the cone lists. */
  lemma VersionsAgree(t: Tools, cached: seq<Statement>, current: seq<Statement>, s: set<string>, u: Unit, lets: seq<Binding>)
    requires UniqueKeys(Units(t, cached)) && UniqueKeys(Units(t, current)) && CodeIsStamped(t)
    requires PlainTypeNames(cached) && PlainTypeNames(current) && AllListTheirLookups(current)
    requires Seeds(Units(t, cached), Units(t, current)) <= s && Closed(s, Units(t, current))
    requires u in Units(t, current) && u.key !in s
    requires ConeHoldsLocals(NamesBelow(Units(t, current), u), lets)
    ensures Ready(NamesBelow(Units(t, current), u), State(lets + Globals(current), []), State(lets + Globals(cached), []))
  {
    hide Units, UniqueKeys, Seeds, Closed, NamesBelow, Found, Globals, PlainTypeNames, CodeIsStamped, ConeHolds, ListsItsLookups,
         Cone;
    var cone := NamesBelow(Units(t, current), u);
    var now, was := lets + Globals(current), lets + Globals(cached);
    forall n | n in cone
      ensures Found(now, n) == Found(was, n)
      ensures Found(now, n).Some? ==> ConeHolds(cone, Found(now, n).value)
    {
      ListedNameIsShared(t, cached, current, s, u, n);
      FoundInEither(lets, Globals(current), n);
      FoundInEither(lets, Globals(cached), n);
      FoundIsBound(Globals(current), n);
      FoundIsBound(lets, n);
      if Found(Globals(current), n).Some? {
        var v := Found(Globals(current), n).value;
        var w :| w in Cone(Units(t, current), u) && StandsForCode(t, w, v);
        CodeInTheCone(t, current, u, w, v);
      } else if Found(lets, n).Some? {
        LocalHeld(cone, lets, Binding(n, Found(lets, n).value));
      }
    }
  }

  lemma LocalHeld(cone: iset<string>, env: seq<Binding>, b: Binding)
    requires ConeHoldsLocals(cone, env) && b in env
    ensures ConeHolds(cone, b.value)
  {
    var i :| 0 <= i < |env| && env[i] == b;
    assert ConeHoldsLocal(cone, env[i]);
  }

  /** The main result.  A function or method whose unit is not invalidated is the same code in
      both versions, and calling it on the same arguments, with the same values of the
      variables, has the same outcome among the functions of either version: whatever else
      was edited, added, removed or moved. */
  lemma KeptFunctionRunsAlike(t: Tools, cached: seq<Statement>, current: seq<Statement>, s: set<string>, u: Unit,
                              lets: seq<Binding>, args: seq<Value>, fuel: nat)
    requires UniqueKeys(Units(t, cached)) && UniqueKeys(Units(t, current)) && CodeIsStamped(t)
    requires PlainTypeNames(cached) && PlainTypeNames(current) && AllListTheirLookups(current)
    requires LeastClosed(s, Seeds(Units(t, cached), Units(t, current)), Units(t, current))
    requires u in Units(t, current) && u.kind == FunctionUnit && u.key !in s
    requires ConeHoldsLocals(NamesBelow(Units(t, current), u), lets) && ConeHoldsAll(NamesBelow(Units(t, current), u), args)
    ensures Found(Globals(current), u.key).Some? && Found(Globals(cached), u.key) == Found(Globals(current), u.key)
    ensures var f := Found(Globals(current), u.key).value;
            SameValue(NamesBelow(Units(t, current), u), Apply(fuel, f, args, State(lets + Globals(current), [])),
                      Apply(fuel, f, args, State(lets + Globals(cached), [])))
  {
    hide Units, UniqueKeys, Seeds, Closed, NamesBelow, Found, Globals, PlainTypeNames, CodeIsStamped, ConeHolds, ListsItsLookups,
         Cone, Apply, Ready;
    var was, now, name := Units(t, cached), Units(t, current), u.key;
    FoundIsUnit(t, current, name);
    FoundIsUnit(t, cached, name);
    FoundIsBound(Globals(current), name);
    var f := Found(Globals(current), name).value;
    var w :| w in now && w.key == name && StandsForCode(t, w, f);
    UniqueByKey(now, u);
    UniqueByKey(now, w);
    ValidUnitIsShared(was, now, s, u);
    var x :| x in was && x.key == name && StandsForCode(t, x, Found(Globals(cached), name).value);
    UniqueByKey(was, u);
    UniqueByKey(was, x);
    SameCode(t, u, f, Found(Globals(cached), name).value);
    ConeBegins(now, u);
    CodeInTheCone(t, current, u, u, f);
    VersionsAgree(t, cached, current, s, u, lets);
    ApplyAgrees(NamesBelow(now, u), fuel, f, args, State(lets + Globals(current), []), State(lets + Globals(cached), []));
  }
}
