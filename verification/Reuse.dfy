/**
  Partial reuse of a cached analysis.  Statements whose unit is not invalidated are
  replaced by their analysed versions; the type checker runs only on the others.
*/
module Reuse {
  import opened Wrappers
  import opened Ast
  import opened Sequences
  import opened Text
  import opened Dependencies
  import opened Invalidation

  /** `show` prints a statement that has no name of its own and `stamp` is the pair of
      statement hashes. */
  datatype Tools = Tools(show: Statement -> string, stamp: Statement -> (nat, nat))

  // ---- units of a program

  function UnitKey(t: Tools, s: Statement): string {
    match s
    case Function(name, _, _, _, _, _, _) => name
    case Type(name, _, _, _, _) => name
    case Enum(name, _, _) => name
    case Impl(_, typeName, _, _) => "impl::" + typeName
    case _ => if ExportName(s).Some? then ExportName(s).value else t.show(s)
  }

  function KindOf(s: Statement): UnitKind {
    match s
    case Function(_, _, _, _, _, _, _) => FunctionUnit
    case Type(_, _, _, _, _) => TypeUnit
    case Enum(_, _, _) => EnumUnit
    case Impl(_, _, _, _) => ImplUnit
    case _ => OtherUnit
  }

  function UnitOf(t: Tools, s: Statement): Unit {
    Unit(UnitKey(t, s), KindOf(s), t.stamp(s).0, t.stamp(s).1, Elements(StmtDeps(s)))
  }

  function MethodOwner(parentKey: string): string {
    if "impl::" <= parentKey then parentKey[6..] else parentKey
  }

  function ChildKey(parentKey: string, child: Statement, index: nat): string {
    match child
    case Function(name, _, _, _, _, _, _) => MethodOwner(parentKey) + "." + name
    case Let(name, _, _, _, _, _) => parentKey + "#" + name
    case Type(name, _, _, _, _) => parentKey + "::" + name
    case Enum(name, _, _) => parentKey + "::" + name
    case Impl(traitName, typeName, _, _) =>
      parentKey + "::impl::" + (if traitName.Some? then traitName.value else "_") + "::" + typeName
    case _ => parentKey + "::item::" + Decimal(index)
  }

  function ChildKind(parentKind: UnitKind, child: Statement): UnitKind {
    if child.Let? && parentKind == TypeUnit then FieldUnit else KindOf(child)
  }

  function ChildUnit(t: Tools, parentKey: string, parentKind: UnitKind, child: Statement, index: nat): Unit {
    Unit(ChildKey(parentKey, child, index), ChildKind(parentKind, child), t.stamp(child).0, t.stamp(child).1,
         Elements(StmtDeps(child)) + {parentKey})
  }

  function ChildUnits(t: Tools, s: Statement): (r: seq<Unit>)
    ensures |r| == if Children(s).Some? then |Children(s).value| else 0
  {
    if Children(s).None? then []
    else
      var children := Children(s).value;
      seq(|children|, i requires 0 <= i < |children| =>
        ChildUnit(t, UnitKey(t, s), KindOf(s), children[i], i))
  }

  function StatementUnits(t: Tools, s: Statement): seq<Unit> {
    [UnitOf(t, s)] + ChildUnits(t, s)
  }

  function Units(t: Tools, program: seq<Statement>): seq<Unit> {
    if program == [] then [] else StatementUnits(t, program[0]) + Units(t, program[1..])
  }

  method CollectUnits(t: Tools, s: Statement, before: seq<Unit>) returns (units: seq<Unit>)
    ensures units == before + StatementUnits(t, s)
  {
    units := before + [UnitOf(t, s)];
    if Children(s).Some? {
      var children := Children(s).value;
      for j := 0 to |children|
        invariant units == before + ([UnitOf(t, s)] + ChildUnits(t, s)[..j])
      {
        units := units + [ChildUnit(t, UnitKey(t, s), KindOf(s), children[j], j)];
      }
    }
  }

  method AnalysisUnits(t: Tools, program: seq<Statement>) returns (units: seq<Unit>)
    ensures units == Units(t, program)
  {
    units := [];
    for i := 0 to |program|
      invariant units + Units(t, program[i..]) == Units(t, program)
    {
      UnitsStep(t, program, i, units);
      units := CollectUnits(t, program[i], units);
    }
  }

  lemma UnitsStep(t: Tools, program: seq<Statement>, i: nat, before: seq<Unit>)
    requires i < |program|
    ensures before + Units(t, program[i..]) == before + StatementUnits(t, program[i]) + Units(t, program[i + 1..])
  {
    var rest := program[i..];
    assert rest[0] == program[i] && rest[1..] == program[i + 1..];
    var head, tail := StatementUnits(t, program[i]), Units(t, program[i + 1..]);
    assert Units(t, rest) == head + tail;
    assert before + (head + tail) == before + head + tail;
  }

  lemma {:induction false} UnitsContain(t: Tools, program: seq<Statement>, s: Statement)
    requires s in program
    ensures forall u | u in StatementUnits(t, s) :: u in Units(t, program)
  {
    if program[0] != s { UnitsContain(t, program[1..], s); }
  }

  /** When a container is invalidated, so is each of its children. */
  lemma ContainerInvalidatesChildren(t: Tools, program: seq<Statement>, s: Statement, set_: set<string>, i: nat)
    requires s in program && Closed(set_, Units(t, program)) && UnitKey(t, s) in set_
    requires Children(s).Some? && i < |Children(s).value|
    ensures ChildKey(UnitKey(t, s), Children(s).value[i], i) in set_
  {
    var u := ChildUnits(t, s)[i];
    UnitsContain(t, program, s);
    assert u in StatementUnits(t, s);
    assert Spellings(UnitKey(t, s))[0] in u.deps;
    assert DependsOn(u, UnitKey(t, s));
  }

  // ---- the reuse pass

  function StatementsByKey(t: Tools, program: seq<Statement>): (m: map<string, Statement>)
    ensures forall k | k in m :: m[k] in program && UnitKey(t, m[k]) == k
    ensures forall s | s in program :: UnitKey(t, s) in m
  {
    if program == [] then map[]
    else
      var last := program[|program| - 1];
      StatementsByKey(t, program[..|program| - 1])[UnitKey(t, last) := last]
  }

  function ChildrenByKey(parentKey: string, children: seq<Statement>): map<string, Statement> {
    if children == [] then map[]
    else
      var n := |children| - 1;
      ChildrenByKey(parentKey, children[..n])[ChildKey(parentKey, children[n], n) := children[n]]
  }

  function WithChildren(s: Statement, children: seq<Statement>): Statement {
    match s
    case Type(_, _, _, _, _) => s.(fields := children)
    case Impl(_, _, _, _) => s.(methods := children)
    case _ => s
  }

  /** Child `i` is taken from the previous version of its container. */
  predicate KeepsChild(parentKey: string, previous: map<string, Statement>, invalidated: set<string>,
                       children: seq<Statement>, i: nat)
    requires i < |children|
  {
    var key := ChildKey(parentKey, children[i], i);
    key !in invalidated && key in previous
  }

  ghost predicate SomeChildKept(parentKey: string, previous: map<string, Statement>, invalidated: set<string>,
                                children: seq<Statement>) {
    exists i: nat | i < |children| :: KeepsChild(parentKey, previous, invalidated, children, i)
  }

  function ReusedChildren(parentKey: string, previous: map<string, Statement>, invalidated: set<string>,
                          children: seq<Statement>): (r: seq<Statement>)
    ensures |r| == |children|
  {
    seq(|children|, i requires 0 <= i < |children| =>
      if KeepsChild(parentKey, previous, invalidated, children, i) then previous[ChildKey(parentKey, children[i], i)]
      else children[i])
  }

  function ChildMask(parentKey: string, previous: map<string, Statement>, invalidated: set<string>,
                     children: seq<Statement>): (r: seq<bool>)
    ensures |r| == |children|
  {
    seq(|children|, i requires 0 <= i < |children| => !KeepsChild(parentKey, previous, invalidated, children, i))
  }

  method ReuseChildren(parentKey: string, previous: map<string, Statement>, invalidated: set<string>,
                       original: seq<Statement>)
    returns (children: seq<Statement>, checks: seq<bool>, reused: bool)
    ensures children == ReusedChildren(parentKey, previous, invalidated, original)
    ensures checks == ChildMask(parentKey, previous, invalidated, original)
    ensures reused <==> SomeChildKept(parentKey, previous, invalidated, original)
  {
    children, checks, reused := original, [], false;
    for i := 0 to |original|
      invariant |children| == |original|
      invariant children[..i] == ReusedChildren(parentKey, previous, invalidated, original)[..i]
      invariant children[i..] == original[i..]
      invariant checks == ChildMask(parentKey, previous, invalidated, original)[..i]
      invariant reused <==> exists j: nat | j < i :: KeepsChild(parentKey, previous, invalidated, original, j)
    {
      assert children[i] == children[i..][0] == original[i];
      var key := ChildKey(parentKey, children[i], i);
      if key !in invalidated && key in previous {
        assert KeepsChild(parentKey, previous, invalidated, original, i);
        children, checks, reused := children[i := previous[key]], checks + [false], true;
      } else {
        checks := checks + [true];
      }
    }
  }

  /** Replaces the children that need no recheck; answers a mask exactly if some child was replaced. */
  method PrepareNestedReuse(parentKey: string, current: Statement, previous: Statement, invalidated: set<string>)
    returns (updated: Statement, mask: Option<seq<bool>>)
    ensures Children(current).None? || Children(previous).None? ==> mask.None? && updated == current
    ensures Children(current).Some? && Children(previous).Some? ==>
      var children := Children(current).value;
      var byKey := ChildrenByKey(parentKey, Children(previous).value);
      if SomeChildKept(parentKey, byKey, invalidated, children) then
        updated == WithChildren(current, ReusedChildren(parentKey, byKey, invalidated, children)) &&
        mask == Some(ChildMask(parentKey, byKey, invalidated, children))
      else mask.None? && updated == current
  {
    updated, mask := current, None;
    if Children(current).None? || Children(previous).None? { return; }
    var byKey := ChildrenByKey(parentKey, Children(previous).value);
    var children, checks, reused := ReuseChildren(parentKey, byKey, invalidated, Children(current).value);
    if reused { updated, mask := WithChildren(current, children), Some(checks); }
  }

  class Program {
    var statements: seq<Statement>

    constructor (statements: seq<Statement>)
      ensures this.statements == statements
    {
      this.statements := statements;
    }
  }

  /** What the pass leaves in place of statement `s`, and whether it is to be checked. */
  function Reused(t: Tools, cached: map<string, Statement>, invalidated: set<string>, s: Statement): (Statement, bool) {
    var key := UnitKey(t, s);
    if key !in invalidated && key in cached then (cached[key], false) else (s, true)
  }

  function ReusedAll(t: Tools, cached: seq<Statement>, invalidated: set<string>, program: seq<Statement>)
    : (r: (seq<Statement>, seq<bool>))
    ensures |r.0| == |r.1| == |program|
  {
    var byKey := StatementsByKey(t, cached);
    (seq(|program|, i requires 0 <= i < |program| => Reused(t, byKey, invalidated, program[i]).0),
     seq(|program|, i requires 0 <= i < |program| => Reused(t, byKey, invalidated, program[i]).1))
  }

  lemma NoChildIsKept(t: Tools, program: seq<Statement>, s: Statement, invalidated: set<string>)
    requires s in program && Closed(invalidated, Units(t, program)) && UnitKey(t, s) in invalidated
    ensures Children(s).Some? ==> forall previous, i: nat | i < |Children(s).value| ::
      !KeepsChild(UnitKey(t, s), previous, invalidated, Children(s).value, i)
  {
    if Children(s).Some? {
      forall previous, i: nat | i < |Children(s).value|
        ensures !KeepsChild(UnitKey(t, s), previous, invalidated, Children(s).value, i)
      {
        ContainerInvalidatesChildren(t, program, s, invalidated, i);
      }
    }
  }

  method ReuseStatement(t: Tools, byKey: map<string, Statement>, invalidated: set<string>, statement: Statement,
                        ghost program: seq<Statement>)
    returns (updated: Statement, check: bool, childMask: Option<seq<bool>>)
    requires statement in program && Closed(invalidated, Units(t, program))
    ensures (updated, check) == Reused(t, byKey, invalidated, statement)
    ensures childMask.None?
  {
    var key := UnitKey(t, statement);
    updated, check, childMask := statement, true, None;
    if key !in invalidated && key in byKey {
      updated, check := byKey[key], false;
      return;
    }
    if key in byKey {
      NoChildIsKept(t, program, statement, invalidated);
      updated, childMask := PrepareNestedReuse(key, statement, byKey[key], invalidated);
    }
  }

  function AddMask(nested: map<string, seq<bool>>, key: string, mask: Option<seq<bool>>): map<string, seq<bool>> {
    match mask case Some(checks) => nested[key := checks] case None => nested
  }

  method ReuseInPlace(t: Tools, current: Program, cached: seq<Statement>, invalidated: set<string>)
    returns (mask: seq<bool>, nested: map<string, seq<bool>>)
    requires Closed(invalidated, Units(t, current.statements))
    modifies current
    ensures nested == map[]
    ensures (current.statements, mask) == ReusedAll(t, cached, invalidated, old(current.statements))
  {
    ghost var original := current.statements;
    ghost var all := ReusedAll(t, cached, invalidated, original);
    var byKey := StatementsByKey(t, cached);
    mask, nested := [], map[];
    for i := 0 to |current.statements|
      invariant |current.statements| == |original| && |mask| == i && nested == map[]
      invariant forall j | 0 <= j < i :: current.statements[j] == all.0[j] && mask[j] == all.1[j]
      invariant forall j | i <= j < |original| :: current.statements[j] == original[j]
    {
      var statement := current.statements[i];
      var updated, check, childMask := ReuseStatement(t, byKey, invalidated, statement, original);
      current.statements := current.statements[i := updated];
      nested := AddMask(nested, UnitKey(t, statement), childMask);
      mask := mask + [check];
    }
    assert mask == all.1 && current.statements == all.0;
  }

  /** The masks always fit the program that results, and no nested mask is ever made. */
  method PrepareReuse(t: Tools, current: Program, cached: seq<Statement>, cachedUnits: seq<Unit>)
    returns (mask: seq<bool>, nested: map<string, seq<bool>>, report: Report)
    modifies current
    ensures LeastClosed(report.invalidated, Seeds(cachedUnits, Units(t, old(current.statements))),
                        Units(t, old(current.statements)))
    ensures |mask| == |current.statements| && nested == map[]
    ensures report.invalidated == {} ==>
      current.statements == cached && forall i | 0 <= i < |mask| :: !mask[i]
    ensures report.invalidated != {} ==>
      (current.statements, mask) == ReusedAll(t, cached, report.invalidated, old(current.statements))
  {
    var units := AnalysisUnits(t, current.statements);
    report := ComputeInvalidationReport(cachedUnits, units);
    nested := map[];
    if report.invalidated == {} {
      current.statements := cached;
      mask := seq(|cached|, i => false);
      return;
    }
    mask, nested := ReuseInPlace(t, current, cached, report.invalidated);
  }

  // ---- incremental equals from scratch

  ghost predicate UniqueKeys(units: seq<Unit>) {
    forall i, j | 0 <= i < j < |units| :: units[i].key != units[j].key
  }

  /** No two statements that the units tell apart share their hash pair. */
  ghost predicate CollisionFree(t: Tools) {
    forall a, b | t.stamp(a) == t.stamp(b) && UnitKey(t, a) == UnitKey(t, b) :: StatementUnits(t, a) == StatementUnits(t, b)
  }

  ghost predicate IsPath(units: seq<Unit>, path: seq<Unit>) {
    path != [] && (forall i | 0 <= i < |path| :: path[i] in units) &&
    forall i | 0 < i < |path| :: DependsOn(path[i - 1], path[i].key)
  }

  ghost predicate Reaches(units: seq<Unit>, u: Unit, v: Unit) {
    exists path :: IsPath(units, path) && path[0] == u && path[|path| - 1] == v
  }

  /** Everything `u` depends on, directly or not. */
  ghost function Cone(units: seq<Unit>, u: Unit): set<Unit> {
    set v | v in units && Reaches(units, u, v)
  }

  type Analysis = (seq<Statement>, nat) -> Statement

  /** The analysis of a statement depends only on its unit and its cone. */
  ghost predicate ConeDetermined(t: Tools, analyse: Analysis) {
    forall p, i: nat, q, j: nat | i < |p| && j < |q| && UnitOf(t, p[i]) == UnitOf(t, q[j]) &&
      Cone(Units(t, p), UnitOf(t, p[i])) == Cone(Units(t, q), UnitOf(t, q[j])) :: analyse(p, i) == analyse(q, j)
  }

  /** A program as the analysis leaves it: analysing it again changes nothing. */
  ghost predicate Analysed(analyse: Analysis, p: seq<Statement>) {
    forall i: nat | i < |p| :: analyse(p, i) == p[i]
  }

  function FromScratch(analyse: Analysis, p: seq<Statement>): seq<Statement> {
    seq(|p|, i requires 0 <= i < |p| => analyse(p, i))
  }

  /** Checks the statements the mask selects and leaves the others. */
  function Selected(analyse: Analysis, p: seq<Statement>, mask: seq<bool>): seq<Statement>
    requires |mask| == |p|
  {
    seq(|p|, i requires 0 <= i < |p| => if mask[i] then analyse(p, i) else p[i])
  }

  lemma {:induction false} UniqueByKey(units: seq<Unit>, u: Unit)
    requires UniqueKeys(units) && u in units
    ensures ByKey(units)[u.key] == u
  {
    var v := ByKey(units)[u.key];
    var i :| 0 <= i < |units| && units[i] == u;
    var j :| 0 <= j < |units| && units[j] == v;
    assert i == j;
  }

  /** A unit outside the invalidated set is the same in both versions. */
  lemma ValidUnitIsShared(previous: seq<Unit>, current: seq<Unit>, s: set<string>, u: Unit)
    requires UniqueKeys(previous) && UniqueKeys(current)
    requires Seeds(previous, current) <= s && u.key !in s
    ensures u in previous <==> u in current
  {
    if u in current { UniqueByKey(current, u); }
    if u in previous { UniqueByKey(previous, u); }
  }

  lemma {:induction false} ValidPath(previous: seq<Unit>, current: seq<Unit>, s: set<string>,
                                     units: seq<Unit>, path: seq<Unit>)
    requires UniqueKeys(previous) && UniqueKeys(current)
    requires Seeds(previous, current) <= s && Closed(s, current)
    requires units == previous || units == current
    requires IsPath(units, path) && path[0] in current && path[0].key !in s
    ensures forall i | 0 <= i < |path| :: path[i].key !in s && path[i] in previous && path[i] in current
  {
    var n := |path| - 1;
    if n == 0 {
      ValidUnitIsShared(previous, current, s, path[0]);
    } else {
      var front := path[..n];
      assert IsPath(units, front);
      ValidPath(previous, current, s, units, front);
      assert path[n - 1] == front[n - 1] && DependsOn(path[n - 1], path[n].key);
      ValidUnitIsShared(previous, current, s, path[n]);
      forall i | 0 <= i < |path| ensures path[i].key !in s && path[i] in previous && path[i] in current {
        if i < n { assert path[i] == front[i]; }
      }
    }
  }

  /** The dependency cone of a unit that is not invalidated is the same in both versions,
      and it contains no changed, added or removed unit. */
  lemma ValidConeIsShared(previous: seq<Unit>, current: seq<Unit>, s: set<string>, u: Unit)
    requires UniqueKeys(previous) && UniqueKeys(current)
    requires Seeds(previous, current) <= s && Closed(s, current)
    requires u in current && u.key !in s
    ensures Cone(previous, u) == Cone(current, u)
    ensures forall v | v in Cone(current, u) :: v.key !in s
    ensures forall k | k in s :: !exists v | v in Cone(current, u) :: DependsOn(v, k)
  {
    forall v | v in Cone(current, u) ensures v in Cone(previous, u) && v.key !in s {
      var path :| IsPath(current, path) && path[0] == u && path[|path| - 1] == v;
      ValidPath(previous, current, s, current, path);
      assert IsPath(previous, path);
    }
    forall v | v in Cone(previous, u) ensures v in Cone(current, u) {
      var path :| IsPath(previous, path) && path[0] == u && path[|path| - 1] == v;
      ValidPath(previous, current, s, previous, path);
      assert IsPath(current, path);
    }
  }

  lemma {:induction false} SameUnits(t: Tools, p: seq<Statement>, q: seq<Statement>)
    requires |p| == |q| && forall i | 0 <= i < |p| :: StatementUnits(t, p[i]) == StatementUnits(t, q[i])
    ensures Units(t, p) == Units(t, q)
  {
    if p != [] { SameUnits(t, p[1..], q[1..]); }
  }

  /** A statement kept from the cache has the very unit of the one it replaces. */
  lemma KeptUnit(t: Tools, current: seq<Statement>, cached: seq<Statement>, s: set<string>, x: Statement)
    requires UniqueKeys(Units(t, cached)) && UniqueKeys(Units(t, current))
    requires Seeds(Units(t, cached), Units(t, current)) <= s
    requires x in current && UnitKey(t, x) !in s && UnitKey(t, x) in StatementsByKey(t, cached)
    ensures UnitOf(t, StatementsByKey(t, cached)[UnitKey(t, x)]) == UnitOf(t, x)
  {
    var y := StatementsByKey(t, cached)[UnitKey(t, x)];
    UnitsContain(t, current, x);
    UnitsContain(t, cached, y);
    assert UnitOf(t, x) == StatementUnits(t, x)[0] && UnitOf(t, y) == StatementUnits(t, y)[0];
    UniqueByKey(Units(t, current), UnitOf(t, x));
    UniqueByKey(Units(t, cached), UnitOf(t, y));
  }

  lemma KeptIsAnalysed(t: Tools, analyse: Analysis, current: seq<Statement>, cached: seq<Statement>,
                       s: set<string>, i: nat)
    requires UniqueKeys(Units(t, cached)) && UniqueKeys(Units(t, current))
    requires ConeDetermined(t, analyse) && Analysed(analyse, cached)
    requires Seeds(Units(t, cached), Units(t, current)) <= s && Closed(s, Units(t, current))
    requires i < |current| && UnitKey(t, current[i]) !in s && UnitKey(t, current[i]) in StatementsByKey(t, cached)
    ensures StatementsByKey(t, cached)[UnitKey(t, current[i])] == analyse(current, i)
  {
    var x := current[i];
    var y := StatementsByKey(t, cached)[UnitKey(t, x)];
    KeptUnit(t, current, cached, s, x);
    UnitsContain(t, current, x);
    assert UnitOf(t, x) == StatementUnits(t, x)[0];
    ValidConeIsShared(Units(t, cached), Units(t, current), s, UnitOf(t, x));
    var j :| 0 <= j < |cached| && cached[j] == y;
    assert analyse(cached, j) == analyse(current, i);
  }

  lemma MixedUnits(t: Tools, current: seq<Statement>, cached: seq<Statement>, s: set<string>)
    requires UniqueKeys(Units(t, cached)) && UniqueKeys(Units(t, current)) && CollisionFree(t)
    requires Seeds(Units(t, cached), Units(t, current)) <= s
    ensures Units(t, ReusedAll(t, cached, s, current).0) == Units(t, current)
    ensures forall i | 0 <= i < |current| :: UnitOf(t, ReusedAll(t, cached, s, current).0[i]) == UnitOf(t, current[i])
  {
    var (mixed, mask) := ReusedAll(t, cached, s, current);
    forall i | 0 <= i < |current|
      ensures StatementUnits(t, mixed[i]) == StatementUnits(t, current[i]) && UnitOf(t, mixed[i]) == UnitOf(t, current[i])
    {
      if !mask[i] { KeptUnit(t, current, cached, s, current[i]); }
    }
    SameUnits(t, mixed, current);
  }

  /** The main result: checking only the selected statements of the reused program
      gives what a full analysis of the current program gives. */
  lemma IncrementalEqualsFromScratch(t: Tools, analyse: Analysis, current: seq<Statement>, cached: seq<Statement>,
                                     s: set<string>)
    requires UniqueKeys(Units(t, cached)) && UniqueKeys(Units(t, current))
    requires CollisionFree(t) && ConeDetermined(t, analyse) && Analysed(analyse, cached)
    requires LeastClosed(s, Seeds(Units(t, cached), Units(t, current)), Units(t, current))
    ensures var (mixed, mask) := ReusedAll(t, cached, s, current);
      Selected(analyse, mixed, mask) == FromScratch(analyse, current)
  {
    var (mixed, mask) := ReusedAll(t, cached, s, current);
    MixedUnits(t, current, cached, s);
    forall i: nat | i < |current| ensures Selected(analyse, mixed, mask)[i] == analyse(current, i) {
      if mask[i] {
        assert analyse(mixed, i) == analyse(current, i);
      } else {
        KeptIsAnalysed(t, analyse, current, cached, s, i);
      }
    }
  }

  // ---- nothing invalidated: the whole cached program is taken, in the cached order

  lemma UniqueSplit(head: seq<Unit>, tail: seq<Unit>)
    requires UniqueKeys(head + tail)
    ensures UniqueKeys(tail)
    ensures forall u, v | u in head && v in tail :: u.key != v.key
  {
    var all := head + tail;
    forall x, y | 0 <= x < y < |tail| ensures tail[x].key != tail[y].key {
      assert tail[x] == all[|head| + x] && tail[y] == all[|head| + y];
    }
    forall u, v | u in head && v in tail ensures u.key != v.key {
      var x :| 0 <= x < |head| && head[x] == u;
      var y :| 0 <= y < |tail| && tail[y] == v;
      assert all[x] == u && all[|head| + y] == v;
    }
  }

  lemma OwnUnit(t: Tools, p: seq<Statement>, i: nat)
    requires i < |p|
    ensures UnitOf(t, p[i]) in Units(t, p)
  {
    UnitInProgram(t, p, p[i]);
  }

  lemma {:induction false} UniqueStatements(t: Tools, p: seq<Statement>, i: nat, j: nat)
    requires UniqueKeys(Units(t, p)) && i < j < |p|
    ensures UnitKey(t, p[i]) != UnitKey(t, p[j])
  {
    hide UniqueKeys, StatementUnits, UnitKey, KindOf;
    UniqueSplit(StatementUnits(t, p[0]), Units(t, p[1..]));
    if i == 0 {
      OwnUnit(t, p[1..], j - 1);
      FirstUnit(t, p[0]);
    } else {
      UniqueStatements(t, p[1..], i - 1, j - 1);
    }
  }

  lemma FirstUnit(t: Tools, x: Statement)
    ensures UnitOf(t, x) in StatementUnits(t, x)
  {
    assert StatementUnits(t, x)[0] == UnitOf(t, x);
  }

  lemma OwnEntry(t: Tools, p: seq<Statement>, i: nat)
    requires UniqueKeys(Units(t, p)) && i < |p|
    ensures StatementsByKey(t, p)[UnitKey(t, p[i])] == p[i]
  {
    hide Units, UniqueKeys, UnitKey, StatementsByKey;
    var j :| 0 <= j < |p| && p[j] == StatementsByKey(t, p)[UnitKey(t, p[i])];
    if i < j { UniqueStatements(t, p, i, j); }
    if j < i { UniqueStatements(t, p, j, i); }
  }

  lemma CachedIsAnalysed(t: Tools, analyse: Analysis, current: seq<Statement>, cached: seq<Statement>, i: nat)
    requires UniqueKeys(Units(t, cached)) && UniqueKeys(Units(t, current))
    requires ConeDetermined(t, analyse) && Analysed(analyse, cached)
    requires LeastClosed({}, Seeds(Units(t, cached), Units(t, current)), Units(t, current))
    requires i < |cached| && i < |current| && UnitKey(t, cached[i]) == UnitKey(t, current[i])
    ensures cached[i] == analyse(current, i)
  {
    hide Units, UniqueKeys, UnitKey, ConeDetermined, Analysed;
    assert cached[i] in cached;
    KeptIsAnalysed(t, analyse, current, cached, {}, i);
    OwnEntry(t, cached, i);
  }

  /** The analysis never gives a statement another unit key. */
  ghost predicate KeepsKeys(t: Tools, analyse: Analysis) {
    forall p, i: nat | i < |p| :: UnitKey(t, analyse(p, i)) == UnitKey(t, p[i])
  }

  /** When nothing is invalidated, taking the whole cached program gives the from-scratch
      result exactly when both list the same keys in the same order. */
  lemma FullReuseNeedsTheSameOrder(t: Tools, analyse: Analysis, current: seq<Statement>, cached: seq<Statement>)
    requires UniqueKeys(Units(t, cached)) && UniqueKeys(Units(t, current))
    requires ConeDetermined(t, analyse) && KeepsKeys(t, analyse) && Analysed(analyse, cached)
    requires LeastClosed({}, Seeds(Units(t, cached), Units(t, current)), Units(t, current))
    ensures cached == FromScratch(analyse, current)
      <==> |cached| == |current| && forall i | 0 <= i < |cached| :: UnitKey(t, cached[i]) == UnitKey(t, current[i])
  {
    hide Units, UniqueKeys, Seeds, LeastClosed, StatementsByKey, UnitKey, ConeDetermined, Analysed;
    var fresh' := FromScratch(analyse, current);
    forall i | 0 <= i < |current| && i < |cached|
      ensures UnitKey(t, fresh'[i]) == UnitKey(t, current[i])
      ensures UnitKey(t, cached[i]) == UnitKey(t, current[i]) ==> cached[i] == fresh'[i]
    {
      if UnitKey(t, cached[i]) == UnitKey(t, current[i]) { CachedIsAnalysed(t, analyse, current, cached, i); }
    }
  }

  /** A reordering of two functions invalidates nothing and is undone by the reuse. */
  lemma ReorderingInvalidatesNothing(t: Tools, a: Statement, b: Statement)
    requires a.Function? && b.Function? && a.name != b.name
    ensures Seeds(Units(t, [a, b]), Units(t, [b, a])) == {}
  {
    UnitsOfTwo(t, a, b);
    UnitsOfTwo(t, b, a);
    SeedsOfTwo(UnitOf(t, a), UnitOf(t, b));
  }

  lemma UnitsOfTwo(t: Tools, a: Statement, b: Statement)
    requires ChildUnits(t, a) == [] && ChildUnits(t, b) == []
    ensures Units(t, [a, b]) == [UnitOf(t, a), UnitOf(t, b)]
  {
    assert [a, b][1..] == [b] && [b][1..] == [];
    assert Units(t, [b]) == [UnitOf(t, b)];
  }

  lemma SeedsOfTwo(u: Unit, v: Unit)
    requires u.key != v.key
    ensures Seeds([u, v], [v, u]) == {}
  {
    ByKeyOfTwo(u, v);
    ByKeyOfTwo(v, u);
  }

  lemma SeedsOfHidden(u: Unit, v: Unit, last: Unit)
    requires u.key == v.key == last.key
    ensures Seeds([u, last], [v, last]) == {}
  {
    ByKeyOfTwo(u, last);
    ByKeyOfTwo(v, last);
  }

  lemma ByKeyOfTwo(u: Unit, v: Unit)
    ensures ByKey([u, v]) == map[u.key := u][v.key := v]
  {
    assert [u, v][..1] == [u] && [u][..0] == [];
    assert ByKey([u]) == map[u.key := u];
  }

  // ---- unit keys that are not unique

  /** Two `impl` blocks of one type share a key.  Only the last one is compared, so an
      edit of the first goes unnoticed and the cached program replaces it. */
  lemma TwoImplsOfOneTypeHideAnEdit(t: Tools)
    ensures var old_ := [Impl(Some("Show"), "T", [], []), Impl(None, "T", [], [])];
      var new_ := [Impl(Some("Debug"), "T", [], []), Impl(None, "T", [], [])];
      Seeds(Units(t, old_), Units(t, new_)) == {} && !UniqueKeys(Units(t, new_)) && old_[0] != new_[0]
  {
    var a, b, c := Impl(Some("Show"), "T", [], []), Impl(Some("Debug"), "T", [], []), Impl(None, "T", [], []);
    UnitsOfTwo(t, a, c);
    UnitsOfTwo(t, b, c);
    SeedsOfHidden(UnitOf(t, a), UnitOf(t, b), UnitOf(t, c));
    assert Units(t, [b, c])[0].key == Units(t, [b, c])[1].key;
  }

  /** In general only the last units of a key are compared.  Where a kept statement's own
      unit is the last, the one that replaces it has that unit exactly when it is the last
      of its version, and the other way round. */
  lemma KeptUnitIsRightExactlyWhenLast(t: Tools, current: seq<Statement>, cached: seq<Statement>,
                                       s: set<string>, x: Statement)
    requires Seeds(Units(t, cached), Units(t, current)) <= s
    requires x in current && UnitKey(t, x) !in s && UnitKey(t, x) in StatementsByKey(t, cached)
    ensures UnitKey(t, x) in ByKey(Units(t, cached)) && UnitKey(t, x) in ByKey(Units(t, current))
    ensures var k, y := UnitKey(t, x), StatementsByKey(t, cached)[UnitKey(t, x)];
      var before, after := ByKey(Units(t, cached))[k], ByKey(Units(t, current))[k];
      (UnitOf(t, y) == before ==> (UnitOf(t, y) == UnitOf(t, x) <==> UnitOf(t, x) == after)) &&
      (UnitOf(t, x) == after ==> (UnitOf(t, y) == UnitOf(t, x) <==> UnitOf(t, y) == before))
  {
    hide Units, StatementsByKey;
    var k, y := UnitKey(t, x), StatementsByKey(t, cached)[UnitKey(t, x)];
    UnitInProgram(t, current, x);
    UnitInProgram(t, cached, y);
    var before, after := ByKey(Units(t, cached)), ByKey(Units(t, current));
    assert UnitOf(t, x).key == k && UnitOf(t, y).key == k;
    assert k in before && k in after && !Differ(before[k], after[k]);
  }

  lemma UnitInProgram(t: Tools, p: seq<Statement>, x: Statement)
    requires x in p
    ensures UnitOf(t, x) in Units(t, p)
  {
    UnitsContain(t, p, x);
    FirstUnit(t, x);
  }
}
