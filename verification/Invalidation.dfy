/**
  Which analysis units an edit invalidates: a worklist over reverse dependencies.
*/
module Invalidation {
  import opened Sequences
  import opened Text
  import opened Dependencies

  // A unit's dependency list is sorted and duplicate-free, so it is a set here, and
  // so are the lists of the report.  Hash maps are iterated in an arbitrary order.

  datatype UnitKind = FunctionUnit | TypeUnit | EnumUnit | ImplUnit | FieldUnit | OtherUnit

  datatype Unit = Unit(key: string, kind: UnitKind, hash: nat, hash2: nat, deps: set<string>)

  datatype Report = Report(changed: set<string>, invalidated: set<string>, added: set<string>, removed: set<string>)

  /** The map a list of units is collected into: the last unit of a key wins. */
  function ByKey(units: seq<Unit>): (m: map<string, Unit>)
    ensures forall k | k in m :: m[k] in units && m[k].key == k
    ensures forall u | u in units :: u.key in m
  {
    if units == [] then map[]
    else
      var last := units[|units| - 1];
      ByKey(units[..|units| - 1])[last.key := last]
  }

  function Keys(units: seq<Unit>): set<string> {
    set u | u in units :: u.key
  }

  predicate Differ(a: Unit, b: Unit) {
    a.hash != b.hash || a.hash2 != b.hash2 || a.deps != b.deps || a.kind != b.kind
  }

  function Changed(previous: seq<Unit>, current: seq<Unit>): set<string> {
    var p, c := ByKey(previous), ByKey(current);
    set k | k in c.Keys && k in p.Keys && Differ(p[k], c[k])
  }

  function Added(previous: seq<Unit>, current: seq<Unit>): set<string> {
    ByKey(current).Keys - ByKey(previous).Keys
  }

  function Removed(previous: seq<Unit>, current: seq<Unit>): set<string> {
    ByKey(previous).Keys - ByKey(current).Keys
  }

  function Seeds(previous: seq<Unit>, current: seq<Unit>): set<string> {
    Changed(previous, current) + Added(previous, current) + Removed(previous, current)
  }

  // ---- the closure condition

  /** The spellings under which a unit may be depended on. */
  function Spellings(key: string): seq<string> {
    [key] + OptionalName(LastSuffix(key, '.')) + OptionalName(LastSuffix(key, '#'))
  }

  /** Unit `u` depends on the unit called `key`. */
  predicate DependsOn(u: Unit, key: string) {
    exists d | d in Spellings(key) :: d in u.deps
  }

  ghost predicate Closed(s: set<string>, units: seq<Unit>) {
    forall u, k | u in units && k in s && DependsOn(u, k) :: u.key in s
  }

  /** Every closed superset of the seeds contains `key`. */
  ghost predicate Forced(seeds: set<string>, units: seq<Unit>, key: string) {
    forall s: set<string> | seeds <= s && Closed(s, units) :: key in s
  }

  ghost predicate LeastClosed(s: set<string>, seeds: set<string>, units: seq<Unit>) {
    seeds <= s && Closed(s, units) && forall k | k in s :: Forced(seeds, units, k)
  }

  lemma LeastClosedIsLeast(s: set<string>, seeds: set<string>, units: seq<Unit>, t: set<string>)
    requires LeastClosed(s, seeds, units) && seeds <= t && Closed(t, units)
    ensures s <= t
  {
    forall k | k in s ensures k in t { assert Forced(seeds, units, k); }
  }

  // ---- the worklist

  method Enumerate(s: set<string>) returns (q: seq<string>)
    ensures Distinct(q) && Elements(q) == s
  {
    q := [];
    var rest := s;
    while rest != {}
      invariant Distinct(q) && Elements(q) !! rest && Elements(q) + rest == s
      decreases rest
    {
      var x :| x in rest;
      q, rest := q + [x], rest - {x};
    }
  }

  /** The keys of the units that list `dep`, in program order. */
  function Dependents(units: seq<Unit>, dep: string): seq<string> {
    if units == [] then []
    else
      var last := units[|units| - 1];
      Dependents(units[..|units| - 1], dep) + (if dep in last.deps then [last.key] else [])
  }

  /** The keys of the units that list one of `names`. */
  ghost function DependentsOfAny(units: seq<Unit>, names: seq<string>): set<string> {
    set u | u in units && (exists d | d in names :: d in u.deps) :: u.key
  }

  lemma {:induction false} DependentsAre(units: seq<Unit>, dep: string)
    ensures Elements(Dependents(units, dep)) == DependentsOfAny(units, [dep])
  {
    if units != [] {
      var n := |units| - 1;
      DependentsAre(units[..n], dep);
      assert units == units[..n] + [units[n]];
      assert DependentsOfAny(units, [dep]) == DependentsOfAny(units[..n], [dep]) + DependentsOfAny([units[n]], [dep]);
      assert dep in [dep];
    }
  }

  lemma DependentsOfNone(units: seq<Unit>)
    ensures DependentsOfAny(units, []) == {}
  {
  }

  lemma DependentsOfMore(units: seq<Unit>, names: seq<string>, name: string)
    ensures DependentsOfAny(units, names + [name]) == DependentsOfAny(units, names) + DependentsOfAny(units, [name])
  {
    forall k | k in DependentsOfAny(units, names) ensures k in DependentsOfAny(units, names + [name]) {
      var u :| u in units && u.key == k && exists d | d in names :: d in u.deps;
      var d :| d in names && d in u.deps;
      assert d in names + [name];
    }
    forall k | k in DependentsOfAny(units, [name]) ensures k in DependentsOfAny(units, names + [name]) {
      var u :| u in units && u.key == k && exists d | d in [name] :: d in u.deps;
      assert name in names + [name];
    }
  }

  function Entry(m: map<string, seq<string>>, dep: string): seq<string> {
    if dep in m then m[dep] else []
  }

  method ReverseDependencies(units: seq<Unit>) returns (m: map<string, seq<string>>)
    ensures forall dep :: Entry(m, dep) == Dependents(units, dep)
  {
    m := map[];
    for i := 0 to |units|
      invariant forall dep :: Entry(m, dep) == Dependents(units[..i], dep)
    {
      var unit := units[i];
      var rest := unit.deps;
      while rest != {}
        invariant rest <= unit.deps
        invariant forall dep ::
          Entry(m, dep) == Dependents(units[..i], dep) + (if dep in unit.deps - rest then [unit.key] else [])
        decreases rest
      {
        var dep :| dep in rest;
        m, rest := m[dep := Entry(m, dep) + [unit.key]], rest - {dep};
      }
      assert units[..i + 1][..i] == units[..i];
    }
    assert units[..|units|] == units;
  }

  /** Queues every dependent that is neither invalidated nor queued already. */
  method Enqueue(dependents: seq<string>, invalidated: set<string>, q: seq<string>, already: set<string>)
    returns (queue: seq<string>, queued: set<string>)
    requires Distinct(q) && already == Elements(q) && already !! invalidated
    ensures Distinct(queue) && queued == Elements(queue) && queued !! invalidated
    ensures queued == already + (Elements(dependents) - invalidated)
  {
    queue, queued := q, already;
    for i := 0 to |dependents|
      invariant Distinct(queue) && queued == Elements(queue) && queued !! invalidated
      invariant queued == already + (Elements(dependents[..i]) - invalidated)
    {
      var d := dependents[i];
      assert Elements(dependents[..i + 1]) == Elements(dependents[..i]) + {d};
      if d !in invalidated && d !in queued {
        queue, queued := queue + [d], queued + {d};
      }
    }
    assert dependents[..|dependents|] == dependents;
  }

  /** All dependents of `key`, under any of its spellings. */
  ghost function AllDependents(key: string, units: seq<Unit>): set<string> {
    DependentsOfAny(units, Spellings(key))
  }

  method EnqueueDependents(key: string, ghost units: seq<Unit>, reverse: map<string, seq<string>>,
                           invalidated: set<string>, q: seq<string>, already: set<string>)
    returns (queue: seq<string>, queued: set<string>)
    requires forall dep :: Entry(reverse, dep) == Dependents(units, dep)
    requires Distinct(q) && already == Elements(q) && already !! invalidated
    ensures Distinct(queue) && queued == Elements(queue) && queued !! invalidated
    ensures queued == already + (AllDependents(key, units) - invalidated)
  {
    hide Dependents, DependentsOfAny, Distinct, Spellings;
    queue, queued := q, already;
    var spellings := Spellings(key);
    DependentsOfNone(units);
    assert spellings[..0] == [];
    for i := 0 to |spellings|
      invariant Distinct(queue) && queued == Elements(queue) && queued !! invalidated
      invariant queued == already + (DependentsOfAny(units, spellings[..i]) - invalidated)
    {
      DependentsAre(units, spellings[i]);
      assert spellings[..i + 1] == spellings[..i] + [spellings[i]];
      DependentsOfMore(units, spellings[..i], spellings[i]);
      assert Entry(reverse, spellings[i]) == Dependents(units, spellings[i]);
      if spellings[i] in reverse {
        queue, queued := Enqueue(reverse[spellings[i]], invalidated, queue, queued);
      }
    }
    assert spellings[..|spellings|] == spellings;
  }

  lemma ForcedStep(seeds: set<string>, units: seq<Unit>, key: string, k: string)
    requires Forced(seeds, units, key) && k in AllDependents(key, units)
    ensures Forced(seeds, units, k)
  {
    var u :| u in units && DependsOn(u, key) && u.key == k;
    forall s: set<string> | seeds <= s && Closed(s, units) ensures k in s {
      assert key in s;
    }
  }

  method Propagate(initial: seq<string>, units: seq<Unit>) returns (invalidated: set<string>)
    requires Distinct(initial)
    ensures LeastClosed(invalidated, Elements(initial), units)
  {
    var reverse := ReverseDependencies(units);
    invalidated := {};
    var queue, queued := initial, Elements(initial);
    ghost var seeds, universe := Elements(initial), Elements(initial) + Keys(units);
    while queue != []
      invariant Distinct(queue) && queued == Elements(queue) && queued !! invalidated
      invariant seeds <= queued + invalidated <= universe
      invariant Frontier(invalidated, queued, units)
      invariant forall k | k in queued + invalidated :: Forced(seeds, units, k)
      decreases universe - invalidated
    {
      var unit := queue[|queue| - 1];
      PopLast(queue);
      queue, queued := queue[..|queue| - 1], queued - {unit};
      if unit in invalidated {
        // A popped unit was queued, and what is queued is never invalidated.
        assert false;
        continue;
      }
      ghost var before, waiting := invalidated, queued;
      invalidated := invalidated + {unit};
      ForcedDependents(seeds, units, unit);
      queue, queued := EnqueueDependents(unit, units, reverse, invalidated, queue, queued);
      FrontierMoves(before, waiting, units, unit, queued);
      assert AllDependents(unit, units) <= Keys(units);
    }
    FrontierClosed(invalidated, units);
  }

  /** Everything that depends on an invalidated unit is invalidated or waiting. */
  ghost predicate Frontier(invalidated: set<string>, queued: set<string>, units: seq<Unit>) {
    forall k | k in invalidated :: AllDependents(k, units) <= queued + invalidated
  }

  lemma FrontierMoves(before: set<string>, waiting: set<string>, units: seq<Unit>, unit: string, queued: set<string>)
    requires Frontier(before, waiting + {unit}, units)
    requires queued == waiting + (AllDependents(unit, units) - (before + {unit}))
    ensures Frontier(before + {unit}, queued, units)
  {
  }

  lemma FrontierClosed(s: set<string>, units: seq<Unit>)
    requires Frontier(s, {}, units)
    ensures Closed(s, units)
  {
    forall u, k | u in units && k in s && DependsOn(u, k) ensures u.key in s {
      assert u.key in AllDependents(k, units);
    }
  }

  lemma ForcedDependents(seeds: set<string>, units: seq<Unit>, key: string)
    requires Forced(seeds, units, key)
    ensures forall k | k in AllDependents(key, units) :: Forced(seeds, units, k)
  {
    forall k | k in AllDependents(key, units) ensures Forced(seeds, units, k) { ForcedStep(seeds, units, key, k); }
  }

  lemma PopLast(q: seq<string>)
    requires q != [] && Distinct(q)
    ensures var last := q[|q| - 1];
      last in Elements(q) && Distinct(q[..|q| - 1]) && Elements(q[..|q| - 1]) == Elements(q) - {last}
  {
    assert q == q[..|q| - 1] + [q[|q| - 1]];
  }

  method ComputeInvalidationReport(previous: seq<Unit>, current: seq<Unit>) returns (report: Report)
    ensures report.changed == Changed(previous, current)
    ensures report.added == Added(previous, current)
    ensures report.removed == Removed(previous, current)
    ensures LeastClosed(report.invalidated, Seeds(previous, current), current)
  {
    var previousByKey, currentByKey := ByKey(previous), ByKey(current);
    var changed := set k | k in currentByKey.Keys && k in previousByKey.Keys && Differ(previousByKey[k], currentByKey[k]);
    var added := currentByKey.Keys - previousByKey.Keys;
    var removed := previousByKey.Keys - currentByKey.Keys;
    var changedList := Enumerate(changed);
    var addedList := Enumerate(added);
    var removedList := Enumerate(removed);
    var queue := changedList + addedList + removedList;
    DistinctAppend(changedList, addedList);
    DistinctAppend(changedList + addedList, removedList);
    assert Elements(queue) == Elements(changedList) + Elements(addedList) + Elements(removedList);
    var invalidated := Propagate(queue, current);
    report := Report(changed, invalidated, added, removed);
  }

  lemma DistinctAppend(a: seq<string>, b: seq<string>)
    requires Distinct(a) && Distinct(b) && Elements(a) !! Elements(b)
    ensures Distinct(a + b)
    ensures Elements(a + b) == Elements(a) + Elements(b)
  {
    forall i, j | 0 <= i < j < |a + b| ensures (a + b)[i] != (a + b)[j] {
      if i < |a| && |a| <= j { assert (a + b)[i] in Elements(a) && (a + b)[j] in Elements(b); }
    }
  }
}
