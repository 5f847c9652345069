/**
  The scopes, bindings and functions that a list of events builds, and what is true of
  them after any program.

  A model is sound when each scope's number is its position, the open scopes are a chain
  of ancestors with consistent depths, a scope is unsafe exactly when it or an ancestor
  is an unsafe body, and each binding agrees with its scope.  It is complete when also
  every function's scope holds the function's parameters.

  Every event keeps a model sound; a list of events keeps it complete when it closes
  what it opens.
*/
module ScopeTree {
  import opened Wrappers
  import opened Ast
  import opened ScopeEvents

  datatype ScopeInfo = ScopeInfo(id: nat, parent: Option<nat>, depth: nat, isUnsafe: bool)

  datatype BindingInfo = BindingInfo(binding: NewBinding, scopeId: nat, scopeDepth: nat, declaredInUnsafe: bool)

  datatype FunctionInfo = FunctionInfo(params: seq<DataType>, ret: DataType, isMethod: bool, scopeId: nat)

  datatype FactInfo = FactInfo(fact: Fact, scopeId: nat)

  /** The model under construction.  `stack` holds the open scopes, `bodies` the scopes that
      are the bodies of unsafe blocks. */
  datatype Model = Model(scopes: seq<ScopeInfo>, bindings: seq<BindingInfo>, functions: map<string, FunctionInfo>,
                         facts: seq<FactInfo>, stack: seq<nat>, bodies: set<nat>)

  const EMPTY := Model([ScopeInfo(0, None, 0, false)], [], map[], [], [0], {})

  function Top(m: Model): nat
    requires m.stack != []
  {
    m.stack[|m.stack| - 1]
  }

  /** How many open scopes are bodies of unsafe blocks. */
  function UnsafeDepth(stack: seq<nat>, bodies: set<nat>): nat {
    if stack == [] then 0
    else UnsafeDepth(stack[..|stack| - 1], bodies) + if stack[|stack| - 1] in bodies then 1 else 0
  }

  function InUnsafe(m: Model): bool {
    UnsafeDepth(m.stack, m.bodies) > 0
  }

  function Applied(m: Model, e: Event): (r: Model)
    requires m.stack != []
    ensures r.stack != []
  {
    match e
    case Open(isUnsafe) =>
      var id := |m.scopes|;
      m.(scopes := m.scopes + [ScopeInfo(id, Some(Top(m)), |m.stack|, InUnsafe(m) || isUnsafe)],
         stack := m.stack + [id], bodies := if isUnsafe then m.bodies + {id} else m.bodies)
    case Close => if |m.stack| > 1 then m.(stack := m.stack[..|m.stack| - 1]) else m
    case Bind(b) => m.(bindings := m.bindings + [BindingInfo(b, Top(m), |m.stack| - 1, InUnsafe(m))])
    case Declare(name, params, ret, isMethod) =>
      m.(functions := m.functions[name := FunctionInfo(params, ret, isMethod, |m.scopes|)])
    case Record(fact) => m.(facts := m.facts + [FactInfo(fact, Top(m))])
  }

  function AppliedAll(m: Model, es: seq<Event>): (r: Model)
    requires m.stack != []
    ensures r.stack != []
    decreases |es|
  {
    if es == [] then m else AppliedAll(Applied(m, es[0]), es[1..])
  }

  lemma {:induction false} AppliedInTwo(m: Model, a: seq<Event>, b: seq<Event>)
    requires m.stack != []
    ensures AppliedAll(m, a + b) == AppliedAll(AppliedAll(m, a), b)
    decreases |a|
  {
    if a == [] {
      assert a + b == b;
    } else {
      AppliedInTwo(Applied(m, a[0]), a[1..], b);
      assert (a + b)[1..] == a[1..] + b;
    }
  }

  // ---- well-formedness

  /** Scopes are numbered in order; every other scope hangs one level below an earlier one. */
  ghost predicate IsTree(scopes: seq<ScopeInfo>) {
    |scopes| > 0 && scopes[0].parent.None? && scopes[0].depth == 0 &&
    (forall i | 0 <= i < |scopes| :: scopes[i].id == i) &&
    forall i | 0 < i < |scopes| ::
      scopes[i].parent.Some? && scopes[i].parent.value < i && scopes[i].depth == scopes[scopes[i].parent.value].depth + 1
  }

  /** The scope or one of its ancestors is the body of an unsafe block. */
  ghost predicate Inside(scopes: seq<ScopeInfo>, bodies: set<nat>, i: nat)
    requires IsTree(scopes) && i < |scopes|
  {
    i in bodies || (i > 0 && Inside(scopes, bodies, scopes[i].parent.value))
  }

  ghost predicate UnsafeIsInherited(m: Model)
    requires IsTree(m.scopes)
  {
    (forall b | b in m.bodies :: 0 < b < |m.scopes|) &&
    forall i | 0 <= i < |m.scopes| :: m.scopes[i].isUnsafe <==> Inside(m.scopes, m.bodies, i)
  }

  /** The open scopes are a chain of ancestors from the root. */
  ghost predicate IsChain(m: Model) {
    m.stack != [] && m.stack[0] == 0 &&
    forall j | 0 <= j < |m.stack| ::
      m.stack[j] < |m.scopes| && m.scopes[m.stack[j]].depth == j &&
      (j > 0 ==> m.scopes[m.stack[j]].parent == Some(m.stack[j - 1]))
  }

  /** A binding records the depth and the safety of its scope. */
  ghost predicate BindingsMatch(m: Model) {
    forall i | 0 <= i < |m.bindings| ::
      var b := m.bindings[i];
      b.scopeId < |m.scopes| && b.scopeDepth == m.scopes[b.scopeId].depth &&
      b.declaredInUnsafe == m.scopes[b.scopeId].isUnsafe
  }

  ghost predicate Sound(m: Model) {
    m.stack != [] && IsTree(m.scopes) && UnsafeIsInherited(m) && IsChain(m) && BindingsMatch(m) &&
    forall i | 0 <= i < |m.facts| :: m.facts[i].scopeId < |m.scopes|
  }

  /** Adding a scope at the end leaves the earlier ones inside what they were inside. */
  lemma {:induction false} InsideStays(scopes: seq<ScopeInfo>, bodies: set<nat>, last: ScopeInfo, bodies': set<nat>, i: nat)
    requires IsTree(scopes) && IsTree(scopes + [last]) && i < |scopes|
    requires forall b | b < |scopes| :: b in bodies' <==> b in bodies
    ensures Inside(scopes + [last], bodies', i) <==> Inside(scopes, bodies, i)
  {
    if i > 0 { InsideStays(scopes, bodies, last, bodies', scopes[i].parent.value); }
  }

  /** Along the stack, being inside an unsafe body is having one among the open scopes. */
  lemma {:induction false} InsideIsOpen(m: Model, n: nat)
    requires IsTree(m.scopes) && IsChain(m) && 0 < n <= |m.stack| && 0 !in m.bodies
    ensures Inside(m.scopes, m.bodies, m.stack[n - 1]) <==> UnsafeDepth(m.stack[..n], m.bodies) > 0
  {
    assert m.stack[..n][..n - 1] == m.stack[..n - 1];
    if n == 1 {
      assert m.stack[..0] == [];
    } else {
      InsideIsOpen(m, n - 1);
    }
  }

  lemma TopIsUnsafe(m: Model)
    requires Sound(m)
    ensures m.scopes[Top(m)].isUnsafe <==> InUnsafe(m)
  {
    InsideIsOpen(m, |m.stack|);
    assert m.stack[..|m.stack|] == m.stack;
  }

  function NewScope(m: Model, isUnsafe: bool): ScopeInfo
    requires m.stack != []
  {
    ScopeInfo(|m.scopes|, Some(Top(m)), |m.stack|, InUnsafe(m) || isUnsafe)
  }

  lemma OpenKeepsTree(m: Model, isUnsafe: bool)
    requires IsTree(m.scopes) && IsChain(m)
    ensures IsTree(m.scopes + [NewScope(m, isUnsafe)])
  {
    hide UnsafeDepth;
  }

  function NewBodies(m: Model, isUnsafe: bool): set<nat> {
    if isUnsafe then m.bodies + {|m.scopes|} else m.bodies
  }

  lemma OldInside(m: Model, isUnsafe: bool, i: nat)
    requires IsTree(m.scopes) && IsChain(m) && i < |m.scopes|
    ensures var scopes := m.scopes + [NewScope(m, isUnsafe)];
      IsTree(scopes) && (Inside(scopes, NewBodies(m, isUnsafe), i) <==> Inside(m.scopes, m.bodies, i))
  {
    OpenKeepsTree(m, isUnsafe);
    InsideStays(m.scopes, m.bodies, NewScope(m, isUnsafe), NewBodies(m, isUnsafe), i);
  }

  lemma NewInside(m: Model, isUnsafe: bool)
    requires IsTree(m.scopes) && IsChain(m) && |m.scopes| !in m.bodies
    ensures var scopes := m.scopes + [NewScope(m, isUnsafe)];
      IsTree(scopes) &&
      (Inside(scopes, NewBodies(m, isUnsafe), |m.scopes|) <==> isUnsafe || Inside(m.scopes, m.bodies, Top(m)))
  {
    hide UnsafeDepth;
    OpenKeepsTree(m, isUnsafe);
    OldInside(m, isUnsafe, Top(m));
  }

  lemma OpenKeepsUnsafe(m: Model, isUnsafe: bool)
    requires Sound(m)
    ensures IsTree(Applied(m, Open(isUnsafe)).scopes) && UnsafeIsInherited(Applied(m, Open(isUnsafe)))
  {
    hide UnsafeDepth, BindingsMatch, Inside, IsTree, IsChain;
    var r := Applied(m, Open(isUnsafe));
    OpenKeepsTree(m, isUnsafe);
    TopIsUnsafe(m);
    TopIsOpen(m);
    NewInside(m, isUnsafe);
    forall i | 0 <= i < |r.scopes| ensures r.scopes[i].isUnsafe <==> Inside(r.scopes, r.bodies, i) {
      if i < |m.scopes| { OldInside(m, isUnsafe, i); }
    }
  }

  lemma TopIsOpen(m: Model)
    requires IsChain(m)
    ensures m.stack != [] && Top(m) < |m.scopes|
  {
  }

  lemma OpenKeepsChain(m: Model, isUnsafe: bool)
    requires IsTree(m.scopes) && IsChain(m) && BindingsMatch(m)
    ensures IsChain(Applied(m, Open(isUnsafe))) && BindingsMatch(Applied(m, Open(isUnsafe)))
  {
    hide UnsafeDepth, IsTree;
  }

  lemma EventKeeps(m: Model, e: Event)
    requires Sound(m)
    ensures Sound(Applied(m, e))
  {
    hide IsTree, UnsafeIsInherited, IsChain, BindingsMatch, UnsafeDepth, Top, Applied;
    match e
    case Open(isUnsafe) =>
      OpenKeepsUnsafe(m, isUnsafe);
      OpenKeepsChain(m, isUnsafe);
      OpenAdds(m, isUnsafe);
    case _ => OtherKeeps(m, e);
  }

  lemma OpenAdds(m: Model, isUnsafe: bool)
    requires m.stack != []
    ensures Applied(m, Open(isUnsafe)).facts == m.facts && |m.scopes| < |Applied(m, Open(isUnsafe)).scopes|
  {
  }

  lemma OtherKeeps(m: Model, e: Event)
    requires Sound(m) && !e.Open?
    ensures Sound(Applied(m, e))
  {
    hide IsTree, Inside, UnsafeDepth;
    TopIsUnsafe(m);
  }

  lemma {:induction false} EventsKeep(m: Model, es: seq<Event>)
    requires Sound(m)
    ensures Sound(AppliedAll(m, es))
    decreases |es|
  {
    hide IsTree, UnsafeIsInherited, IsChain, BindingsMatch, Applied;
    if es != [] {
      EventKeeps(m, es[0]);
      EventsKeep(Applied(m, es[0]), es[1..]);
    }
  }

  // ---- whole constructs

  /** The parameters stand in a row in the function's own scope. */
  ghost predicate ParamsAt(m: Model, f: FunctionInfo, k: nat) {
    forall j | 0 <= j < |f.params| :: BoundAt(m, k + j, f.scopeId, f.params[j])
  }

  predicate BoundAt(m: Model, at: nat, scopeId: nat, ty: DataType) {
    at < |m.bindings| && m.bindings[at].scopeId == scopeId && m.bindings[at].binding.ty == ty
  }

  ghost predicate HoldsParams(m: Model, f: FunctionInfo) {
    f.scopeId < |m.scopes| && exists k: nat :: ParamsAt(m, f, k)
  }

  ghost predicate FunctionsHold(m: Model) {
    forall name | name in m.functions :: HoldsParams(m, m.functions[name])
  }

  ghost predicate Complete(m: Model) {
    Sound(m) && FunctionsHold(m)
  }

  /** The events close every scope they open and leave every function with its parameters. */
  ghost predicate Whole(es: seq<Event>) {
    forall m | Complete(m) :: AppliedAll(m, es).stack == m.stack && Complete(AppliedAll(m, es))
  }

  /** `r` has everything `m` has, with the same functions. */
  ghost predicate Extends(m: Model, r: Model) {
    |m.scopes| <= |r.scopes| && |m.bindings| <= |r.bindings| && r.bindings[..|m.bindings|] == m.bindings &&
    r.functions == m.functions
  }

  lemma ExtensionHolds(m: Model, r: Model, f: FunctionInfo)
    requires HoldsParams(m, f) && |m.scopes| <= |r.scopes|
    requires |m.bindings| <= |r.bindings| && r.bindings[..|m.bindings|] == m.bindings
    ensures HoldsParams(r, f)
  {
    var k: nat :| ParamsAt(m, f, k);
    forall j | 0 <= j < |f.params| ensures BoundAt(r, k + j, f.scopeId, f.params[j]) {
      assert BoundAt(m, k + j, f.scopeId, f.params[j]);
      assert r.bindings[..|m.bindings|][k + j] == m.bindings[k + j];
    }
    assert ParamsAt(r, f, k);
  }

  lemma ExtensionIsComplete(m: Model, r: Model)
    requires Complete(m) && Sound(r) && Extends(m, r)
    ensures Complete(r)
  {
    forall name | name in r.functions ensures HoldsParams(r, r.functions[name]) {
      ExtensionHolds(m, r, r.functions[name]);
    }
  }

  lemma EventExtends(m: Model, e: Event)
    requires m.stack != [] && !e.Declare?
    ensures Extends(m, Applied(m, e))
  {
  }

  lemma WholeNothing()
    ensures Whole([])
  {
  }

  lemma WholeBoth(a: seq<Event>, b: seq<Event>)
    requires Whole(a) && Whole(b)
    ensures Whole(a + b)
  {
    hide Complete, AppliedAll;
    forall m | Complete(m) ensures AppliedAll(m, a + b).stack == m.stack && Complete(AppliedAll(m, a + b)) {
      StackIsThere(m);
      AppliedInTwo(m, a, b);
    }
  }

  lemma StackIsThere(m: Model)
    requires Complete(m)
    ensures m.stack != []
  {
  }

  lemma WholeOne(e: Event)
    requires e.Bind? || e.Record?
    ensures Whole([e])
  {
    forall m | Complete(m) ensures AppliedAll(m, [e]).stack == m.stack && Complete(AppliedAll(m, [e])) {
      SimpleStep(m, e);
    }
  }

  lemma SimpleStep(m: Model, e: Event)
    requires Complete(m) && (e.Bind? || e.Record?)
    ensures AppliedAll(m, [e]) == Applied(m, e) && Applied(m, e).stack == m.stack && Complete(Applied(m, e))
  {
    hide Complete;
    StackIsThere(m);
    assert AppliedAll(m, [e]) == AppliedAll(Applied(m, e), []);
    StepIsComplete(m, e);
  }

  lemma StepIsComplete(m: Model, e: Event)
    requires Complete(m) && !e.Declare?
    ensures Complete(Applied(m, e))
  {
    hide IsTree, UnsafeIsInherited, IsChain, BindingsMatch, Applied, FunctionsHold, Extends;
    EventKeeps(m, e);
    EventExtends(m, e);
    ExtensionIsComplete(m, Applied(m, e));
  }

  lemma {:induction false} WholeRow(es: seq<Event>)
    requires forall e | e in es :: e.Bind? || e.Record?
    ensures Whole(es)
  {
    hide Whole;
    if es == [] {
      WholeNothing();
    } else {
      WholeOne(es[0]);
      WholeRow(es[1..]);
      WholeBoth([es[0]], es[1..]);
      assert [es[0]] + es[1..] == es;
    }
  }

  lemma WholeScoped(isUnsafe: bool, inner: seq<Event>)
    requires Whole(inner)
    ensures Whole(Scoped(isUnsafe, inner))
  {
    hide Complete, AppliedAll, Applied;
    forall m | Complete(m)
      ensures AppliedAll(m, Scoped(isUnsafe, inner)).stack == m.stack && Complete(AppliedAll(m, Scoped(isUnsafe, inner)))
    {
      StackIsThere(m);
      ScopedSteps(m, isUnsafe, inner);
      var inside := Applied(m, Open(isUnsafe));
      StepIsComplete(m, Open(isUnsafe));
      ScopeCloses(m, isUnsafe, AppliedAll(inside, inner));
      StepIsComplete(AppliedAll(inside, inner), Close);
    }
  }

  lemma ScopedSteps(m: Model, isUnsafe: bool, inner: seq<Event>)
    requires m.stack != []
    ensures AppliedAll(m, Scoped(isUnsafe, inner)) ==
            Applied(AppliedAll(Applied(m, Open(isUnsafe)), inner), Close)
  {
    hide Applied;
    var es := Scoped(isUnsafe, inner);
    assert es[0] == Open(isUnsafe) && es[1..] == inner + [Close];
    AppliedInTwo(Applied(m, Open(isUnsafe)), inner, [Close]);
    var r := AppliedAll(Applied(m, Open(isUnsafe)), inner);
    assert AppliedAll(r, [Close]) == AppliedAll(Applied(r, Close), []);
  }

  lemma ScopeCloses(m: Model, isUnsafe: bool, r: Model)
    requires m.stack != [] && r.stack == Applied(m, Open(isUnsafe)).stack
    ensures Applied(r, Close).stack == m.stack
  {
  }

  // ---- functions

  /** The parameters of a function, bound one after the other. */
  lemma {:induction false} ParamsAreBound(m: Model, params: seq<Param>, n: nat)
    requires m.stack != [] && n <= |params|
    ensures var r := AppliedAll(m, ParamEvents(params)[..n]);
      r.stack == m.stack && Extends(m, r) && r.scopes == m.scopes && |r.bindings| == |m.bindings| + n &&
      forall j | 0 <= j < n :: BoundAt(r, |m.bindings| + j, Top(m), params[j].ty)
  {
    var es := ParamEvents(params);
    if n > 0 {
      ParamsAreBound(m, params, n - 1);
      assert es[..n] == es[..n - 1] + [es[n - 1]];
      var before := AppliedAll(m, es[..n - 1]);
      AppliedInTwo(m, es[..n - 1], [es[n - 1]]);
      assert AppliedAll(before, [es[n - 1]]) == AppliedAll(Applied(before, es[n - 1]), []);
      OneMoreBound(m, before, params[n - 1], es[n - 1].binding);
      var r := Applied(before, es[n - 1]);
      forall j | 0 <= j < n ensures BoundAt(r, |m.bindings| + j, Top(m), params[j].ty) {
        if j < n - 1 { assert BoundAt(before, |m.bindings| + j, Top(m), params[j].ty); }
      }
    } else {
      assert es[..0] == [];
    }
  }

  lemma OneMoreBound(m: Model, before: Model, param: Param, b: NewBinding)
    requires m.stack != [] && before.stack == m.stack && Extends(m, before) && b.ty == param.ty
    ensures Extends(m, Applied(before, Bind(b)))
    ensures BoundAt(Applied(before, Bind(b)), |before.bindings|, Top(m), param.ty)
  {
    hide UnsafeDepth;
    assert (before.bindings + [BindingInfo(b, Top(before), |before.stack| - 1, InUnsafe(before))])[..|m.bindings|] ==
           before.bindings[..|m.bindings|];
  }

  /** Once its parameters are bound, a declared function holds them. */
  lemma DeclaredHoldsParams(m: Model, name: string, params: seq<Param>, ret: DataType, isMethod: bool)
    requires Complete(m)
    ensures var inside := Applied(Applied(m, Declare(name, ParamTypes(params), ret, isMethod)), Open(false));
      var r := AppliedAll(inside, ParamEvents(params));
      r.stack == inside.stack && Complete(r)
  {
    var declared := Applied(m, Declare(name, ParamTypes(params), ret, isMethod));
    var inside := Applied(declared, Open(false));
    var r := AppliedAll(inside, ParamEvents(params));
    SoundAfterParams(m, name, params, ret, isMethod);
    assert ParamEvents(params)[..|params|] == ParamEvents(params);
    ParamsAreBound(inside, params, |params|);
    DeclaredAndOpened(m, name, ParamTypes(params), ret, isMethod);
    hide Applied, AppliedAll, Sound;
    forall f | f in r.functions ensures HoldsParams(r, r.functions[f]) {
      if f == name {
        assert ParamsAt(r, r.functions[f], |m.bindings|);
      } else {
        assert r.functions[f] == m.functions[f];
        ExtensionHolds(m, r, m.functions[f]);
      }
    }
  }

  lemma DeclaredAndOpened(m: Model, name: string, types: seq<DataType>, ret: DataType, isMethod: bool)
    requires m.stack != []
    ensures var inside := Applied(Applied(m, Declare(name, types, ret, isMethod)), Open(false));
      Top(inside) == |m.scopes| && inside.bindings == m.bindings && |inside.scopes| == |m.scopes| + 1 &&
      inside.functions == m.functions[name := FunctionInfo(types, ret, isMethod, |m.scopes|)]
  {
  }

  lemma SoundAfterParams(m: Model, name: string, params: seq<Param>, ret: DataType, isMethod: bool)
    requires Complete(m)
    ensures var inside := Applied(Applied(m, Declare(name, ParamTypes(params), ret, isMethod)), Open(false));
      Sound(AppliedAll(inside, ParamEvents(params)))
  {
    hide IsTree, UnsafeIsInherited, IsChain, BindingsMatch, Applied, FunctionsHold;
    var declare := Declare(name, ParamTypes(params), ret, isMethod);
    EventKeeps(m, declare);
    EventKeeps(Applied(m, declare), Open(false));
    EventsKeep(Applied(Applied(m, declare), Open(false)), ParamEvents(params));
  }

  lemma WholeFunction(name: string, params: seq<Param>, ret: DataType, isMethod: bool, body: seq<Event>)
    requires Whole(body)
    ensures Whole([Declare(name, ParamTypes(params), ret, isMethod)] + Scoped(false, ParamEvents(params) + body))
  {
    hide Complete, AppliedAll, Applied;
    var declare, inner := Declare(name, ParamTypes(params), ret, isMethod), ParamEvents(params) + body;
    forall m | Complete(m)
      ensures var r := AppliedAll(m, [declare] + Scoped(false, inner)); r.stack == m.stack && Complete(r)
    {
      StackIsThere(m);
      DeclareStep(m, declare, Scoped(false, inner));
      var declared := Applied(m, declare);
      ScopedSteps(declared, false, inner);
      var inside := Applied(declared, Open(false));
      AppliedInTwo(inside, ParamEvents(params), body);
      DeclaredHoldsParams(m, name, params, ret, isMethod);
      var done := AppliedAll(inside, inner);
      ScopeCloses(declared, false, done);
      StepIsComplete(done, Close);
    }
  }

  lemma DeclareStep(m: Model, declare: Event, rest: seq<Event>)
    requires m.stack != [] && declare.Declare?
    ensures AppliedAll(m, [declare] + rest) == AppliedAll(Applied(m, declare), rest)
    ensures Applied(m, declare).stack == m.stack
  {
    assert ([declare] + rest)[1..] == rest;
  }
}