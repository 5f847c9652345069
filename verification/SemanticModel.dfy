/**
  The builder of the semantic model: a visitor that opens and closes scopes, registers
  bindings and keeps an index of them by name.
*/
module SemanticModel {
  import opened Wrappers
  import opened Ast
  import opened Dependencies
  import opened ScopeEvents
  import opened ScopeTree
  import opened ScopesWellFormed
  import opened ScopeOutline

  // ---- the index by name

  /** For every bound name, the places of its bindings in order. */
  function ByName(bindings: seq<BindingInfo>): map<string, seq<nat>> {
    if bindings == [] then map[]
    else
      var n := |bindings| - 1;
      Indexed(ByName(bindings[..n]), bindings[n].binding.name, n)
  }

  function Indexed(index: map<string, seq<nat>>, name: string, at: nat): map<string, seq<nat>> {
    index[name := (if name in index then index[name] else []) + [at]]
  }

  ghost predicate IsNamed(bindings: seq<BindingInfo>, name: string, i: nat) {
    i < |bindings| && bindings[i].binding.name == name
  }

  ghost predicate Ascending(s: seq<nat>) {
    forall i, j | 0 <= i < j < |s| :: s[i] < s[j]
  }

  /** The index lists exactly the bindings of each name, in the order they were made. */
  lemma {:induction false} IndexIsExact(bindings: seq<BindingInfo>, name: string)
    ensures Ascending(Places(bindings, name))
    ensures forall i: nat :: i in Places(bindings, name) <==> IsNamed(bindings, name, i)
    ensures name in ByName(bindings) <==> Places(bindings, name) != []
  {
    if bindings != [] {
      var n := |bindings| - 1;
      IndexIsExact(bindings[..n], name);
      var before := Places(bindings[..n], name);
      forall i: nat | i in before ensures i < n { assert IsNamed(bindings[..n], name, i); }
      assert Places(bindings, name) == if bindings[n].binding.name == name then before + [n] else before;
      forall i: nat ensures IsNamed(bindings, name, i) <==>
        IsNamed(bindings[..n], name, i) || (i == n && bindings[n].binding.name == name) {}
      if bindings[n].binding.name == name { OneMorePlace(before, n); }
    }
  }

  lemma OneMorePlace(before: seq<nat>, n: nat)
    requires Ascending(before) && forall i | i in before :: i < n
    ensures Ascending(before + [n])
  {
    forall i | 0 <= i < |before| ensures before[i] < n { assert before[i] in before; }
  }

  /** What the index lists for a name. */
  function Places(bindings: seq<BindingInfo>, name: string): seq<nat> {
    if name in ByName(bindings) then ByName(bindings)[name] else []
  }

  // ---- depths

  lemma {:induction false} UnsafeDepthAgrees(stack: seq<nat>, a: set<nat>, b: set<nat>)
    requires forall x | x in stack :: x in a <==> x in b
    ensures UnsafeDepth(stack, a) == UnsafeDepth(stack, b)
  {
    if stack != [] {
      assert stack[|stack| - 1] in stack;
      UnsafeDepthAgrees(stack[..|stack| - 1], a, b);
    }
  }

  lemma UnsafeDepthPush(stack: seq<nat>, bodies: set<nat>, id: nat)
    ensures UnsafeDepth(stack + [id], bodies) == UnsafeDepth(stack, bodies) + if id in bodies then 1 else 0
  {
    assert (stack + [id])[..|stack|] == stack;
  }

  class SemanticModelBuilder {
    var functions: map<string, FunctionInfo>
    var bindings: seq<BindingInfo>
    var bindingsByName: map<string, seq<nat>>
    var scopes: seq<ScopeInfo>
    var facts: seq<FactInfo>
    var unsafeBlocks: nat
    var scopeDepth: nat
    var scopeStack: seq<nat>
    var unsafeDepth: nat
    var nextScopeId: nat
    var implOwnerStack: seq<string>
    ghost var bodies: set<nat>

    ghost function View(): Model
      reads this
    {
      Model(scopes, bindings, functions, facts, scopeStack, bodies)
    }

    function Owner(): Option<string>
      reads this
    {
      if implOwnerStack == [] then None else Some(implOwnerStack[|implOwnerStack| - 1])
    }

    ghost predicate Valid()
      reads this
    {
      scopeStack != [] && scopeDepth + 1 == |scopeStack| && nextScopeId == |scopes| &&
      (forall x | x in scopeStack :: x < |scopes|) && (forall b | b in bodies :: b < |scopes|) &&
      unsafeDepth == UnsafeDepth(scopeStack, bodies) && unsafeBlocks == |bodies| && bindingsByName == ByName(bindings)
    }

    /** What a visit leaves as it was. */
    twostate predicate Kept()
      reads this
    {
      scopeStack == old(scopeStack) && implOwnerStack == old(implOwnerStack) && |old(scopes)| <= |scopes| &&
      forall b | b < |old(scopes)| :: b in bodies <==> b in old(bodies)
    }

    constructor ()
      ensures Valid() && View() == EMPTY && implOwnerStack == []
    {
      functions, bindings, bindingsByName, facts := map[], [], map[], [];
      scopes := [ScopeInfo(0, None, 0, false)];
      unsafeBlocks, scopeDepth, unsafeDepth, nextScopeId := 0, 0, 0, 1;
      scopeStack, implOwnerStack, bodies := [0], [], {};
      new;
      assert UnsafeDepth([0][..0], {}) == 0;
    }

    function CurrentScopeId(): nat
      reads this
      requires scopeStack != []
    {
      scopeStack[|scopeStack| - 1]
    }

    /** Opens a scope; `isUnsafe` when it is the body of an unsafe block. */
    method OpenScope(isUnsafe: bool)
      requires Valid()
      modifies this`scopes, this`scopeStack, this`scopeDepth, this`nextScopeId, this`unsafeDepth, this`unsafeBlocks, this`bodies
      ensures Valid() && View() == Applied(old(View()), Open(isUnsafe))
    {
      hide UnsafeDepth, ByName;
      if isUnsafe { unsafeBlocks, unsafeDepth := unsafeBlocks + 1, unsafeDepth + 1; }
      var parent, id := CurrentScopeId(), nextScopeId;
      ghost var before := bodies;
      bodies := if isUnsafe then bodies + {id} else bodies;
      UnsafeDepthAgrees(scopeStack, before, bodies);
      UnsafeDepthPush(scopeStack, bodies, id);
      nextScopeId := id + 1;
      scopes := scopes + [ScopeInfo(id, Some(parent), scopeDepth + 1, unsafeDepth > 0)];
      scopeDepth := scopeDepth + 1;
      scopeStack := scopeStack + [id];
    }

    method CloseScope(isUnsafe: bool)
      requires Valid() && |scopeStack| > 1 && (isUnsafe <==> CurrentScopeId() in bodies)
      modifies this`scopeStack, this`scopeDepth, this`unsafeDepth
      ensures Valid() && View() == Applied(old(View()), Close)
    {
      ghost var outer := scopeStack[..|scopeStack| - 1];
      assert scopeStack == outer + [CurrentScopeId()];
      assert forall x | x in outer :: x in scopeStack;
      UnsafeDepthPush(outer, bodies, CurrentScopeId());
      scopeStack := scopeStack[..|scopeStack| - 1];
      scopeDepth := scopeDepth - 1;
      if isUnsafe { unsafeDepth := unsafeDepth - 1; }
    }

    method RegisterBinding(b: NewBinding)
      requires Valid()
      modifies this`bindings, this`bindingsByName
      ensures Valid() && View() == Applied(old(View()), Bind(b))
    {
      var index := |bindings|;
      bindings := bindings + [BindingInfo(b, CurrentScopeId(), scopeDepth, unsafeDepth > 0)];
      assert bindings[..index] == old(bindings);
      bindingsByName := bindingsByName[b.name := (if b.name in bindingsByName then bindingsByName[b.name] else []) + [index]];
    }

    method RecordFact(fact: Fact)
      requires Valid()
      modifies this`facts
      ensures Valid() && View() == Applied(old(View()), Record(fact))
    {
      facts := facts + [FactInfo(fact, CurrentScopeId())];
    }

    /** Events that neither open nor close a scope. */
    method Emit(es: seq<Event>)
      requires Valid() && forall e | e in es :: e.Bind? || e.Record?
      modifies this`bindings, this`bindingsByName, this`facts
      ensures Valid() && View() == AppliedAll(old(View()), es)
    {
      assert es[..0] == [];
      for i := 0 to |es|
        invariant Valid() && View() == AppliedAll(old(View()), es[..i])
      {
        ghost var before := View();
        assert es[i] in es;
        if es[i].Bind? { RegisterBinding(es[i].binding); } else { RecordFact(es[i].fact); }
        assert es[..i + 1] == es[..i] + [es[i]];
        AppliedInTwo(old(View()), es[..i], [es[i]]);
        assert AppliedAll(before, [es[i]]) == AppliedAll(Applied(before, es[i]), []);
      }
      assert es[..|es|] == es;
    }

    method Declare(name: string, params: seq<DataType>, ret: DataType, isMethod: bool)
      requires Valid()
      modifies this`functions
      ensures Valid() && View() == Applied(old(View()), Event.Declare(name, params, ret, isMethod))
    {
      functions := functions[name := FunctionInfo(params, ret, isMethod, nextScopeId)];
    }

    /** A scope that starts with a row of bindings and holds a block. */
    method VisitScope(isUnsafe: bool, row: seq<Event>, body: seq<Statement>)
      requires Valid() && forall e | e in row :: e.Bind? || e.Record?
      modifies this
      ensures Valid() && Kept()
      ensures View() == AppliedAll(old(View()), Scoped(isUnsafe, row + BlockEvents(body, old(Owner()))))
      decreases body, 1
    {
      hide UnsafeDepth, ByName, Applied, AppliedAll, BlockEvents, Scoped;
      ghost var start, events := View(), BlockEvents(body, Owner());
      OpenScope(isUnsafe);
      ghost var inside, id := View(), CurrentScopeId();
      OpenedScope(start, isUnsafe);
      Emit(row);
      EmittedRow(inside, row);
      VisitStatements(body);
      AppliedInTwo(inside, row, events);
      CloseScope(isUnsafe);
      ClosedScope(AppliedAll(inside, row + events));
      ScopedSteps(start, isUnsafe, row + events);
    }

    method VisitStatements(ss: seq<Statement>)
      requires Valid()
      modifies this
      ensures Valid() && Kept() && View() == AppliedAll(old(View()), BlockEvents(ss, old(Owner())))
      decreases ss, 0
    {
      hide Applied, StmtEvents, Valid;
      StartsThere();
      for i := 0 to |ss|
        invariant Valid() && Kept()
        invariant AppliedAll(View(), BlockEvents(ss[i..], Owner())) == AppliedAll(old(View()), BlockEvents(ss, old(Owner())))
      {
        StartsThere();
        AppliedInTwo(View(), StmtEvents(ss[i], Owner()), BlockEvents(ss[i + 1..], Owner()));
        VisitStatement(ss[i]);
        StartsThere();
        assert ss[i..][1..] == ss[i + 1..];
      }
    }

    lemma StartsThere()
      requires Valid()
      ensures scopeStack != []
    {
    }

    method VisitExpressions(es: seq<Expression>)
      requires Valid()
      modifies this
      ensures Valid() && Kept() && View() == AppliedAll(old(View()), ExprsEvents(es, old(Owner())))
      decreases es, 0
    {
      hide Applied, ExprEvents, Valid;
      StartsThere();
      for i := 0 to |es|
        invariant Valid() && Kept()
        invariant AppliedAll(View(), ExprsEvents(es[i..], Owner())) == AppliedAll(old(View()), ExprsEvents(es, old(Owner())))
      {
        StartsThere();
        AppliedInTwo(View(), ExprEvents(es[i], Owner()), ExprsEvents(es[i + 1..], Owner()));
        VisitExpression(es[i]);
        StartsThere();
        assert es[i..][1..] == es[i + 1..];
      }
    }

    method VisitExprArms(arms: seq<ExprArm>)
      requires Valid()
      modifies this
      ensures Valid() && Kept() && View() == AppliedAll(old(View()), ExprArmsEvents(arms, old(Owner())))
      decreases arms, 0
    {
      hide Applied, ExprArmEvents, Valid;
      StartsThere();
      for i := 0 to |arms|
        invariant Valid() && Kept()
        invariant AppliedAll(View(), ExprArmsEvents(arms[i..], Owner())) ==
                  AppliedAll(old(View()), ExprArmsEvents(arms, old(Owner())))
      {
        StartsThere();
        AppliedInTwo(View(), ExprArmEvents(arms[i], Owner()), ExprArmsEvents(arms[i + 1..], Owner()));
        VisitExprArm(arms[i]);
        StartsThere();
        assert arms[i..][1..] == arms[i + 1..];
      }
    }

    method VisitStmtArms(arms: seq<StmtArm>)
      requires Valid()
      modifies this
      ensures Valid() && Kept() && View() == AppliedAll(old(View()), StmtArmsEvents(arms, old(Owner())))
      decreases arms, 0
    {
      hide Applied, StmtArmEvents, Valid;
      StartsThere();
      for i := 0 to |arms|
        invariant Valid() && Kept()
        invariant AppliedAll(View(), StmtArmsEvents(arms[i..], Owner())) ==
                  AppliedAll(old(View()), StmtArmsEvents(arms, old(Owner())))
      {
        StartsThere();
        AppliedInTwo(View(), StmtArmEvents(arms[i], Owner()), StmtArmsEvents(arms[i + 1..], Owner()));
        VisitStmtArm(arms[i]);
        StartsThere();
        assert arms[i..][1..] == arms[i + 1..];
      }
    }

    method VisitStmtArm(arm: StmtArm)
      requires Valid()
      modifies this
      ensures Valid() && Kept() && View() == AppliedAll(old(View()), StmtArmEvents(arm, old(Owner())))
      decreases arm, 0
    {
      var StmtArm(pattern, body) := arm;
      PatternIsRow(pattern);
      VisitScope(false, PatternEvents(pattern), body);
    }

    method VisitExprArm(arm: ExprArm)
      requires Valid()
      modifies this
      ensures Valid() && Kept() && View() == AppliedAll(old(View()), ExprArmEvents(arm, old(Owner())))
      decreases arm, 0
    {
      hide UnsafeDepth, ByName, Applied, AppliedAll, ExprEvents, Scoped;
      var ExprArm(pattern, result) := arm;
      PatternIsRow(pattern);
      ghost var start, row, events := View(), PatternEvents(pattern), ExprEvents(result, Owner());
      OpenScope(false);
      ghost var inside := View();
      OpenedScope(start, false);
      Emit(PatternEvents(pattern));
      EmittedRow(inside, row);
      VisitExpression(result);
      AppliedInTwo(inside, row, events);
      CloseScope(false);
      ClosedScope(AppliedAll(inside, row + events));
      ScopedSteps(start, false, row + events);
    }

    method VisitExpression(e: Expression)
      requires Valid()
      modifies this
      ensures Valid() && Kept() && View() == AppliedAll(old(View()), ExprEvents(e, old(Owner())))
      decreases e, 2
    {
      hide Applied, BlockEvents, ExprsEvents, ExprArmsEvents, Scoped;
      match e {
        case Node(_, children, _) =>
          ghost var start := View();
          StartsThere();
          AppliedInTwo(start, BorrowEvents(None, e), ExprsEvents(children, Owner()));
          EmitFacts(BorrowEvents(None, e));
          VisitExpressions(children);
        case Call(_, args, _, _) => VisitExpressions(args);
        case Closure(params, body, _, captures) =>
          VisitScope(false, CaptureEvents(captures) + ParamEvents(params), body);
        case MatchExpr(_, _, _, _) => VisitMatchExpression(e);
        case Variant(_, _, payloads, _) => VisitExpressions(payloads);
        case Ascription(inner, _, _) => VisitExpression(inner);
        case UseMacro(inner) => VisitExpression(inner);
        case MacroCall(inner) => VisitExpression(inner);
        case _ =>
      }
    }

    /** Registers bindings or facts in the innermost scope. */
    method EmitFacts(row: seq<Event>)
      requires Valid() && forall e | e in row :: e.Bind? || e.Record?
      modifies this
      ensures Valid() && Kept() && View() == AppliedAll(old(View()), row)
    {
      hide Applied, AppliedAll;
      StartsThere();
      EmittedRow(View(), row);
      Emit(row);
    }

    method VisitMatchExpression(e: Expression)
      requires Valid() && e.MatchExpr?
      modifies this
      ensures Valid() && Kept() && View() == AppliedAll(old(View()), ExprEvents(e, old(Owner())))
      decreases e, 1
    {
      hide Applied, AppliedAll, ExprArmsEvents;
      ghost var start, owner := View(), Owner();
      StartsThere();
      VisitExpression(e.subject);
      VisitExprArms(e.arms);
      VisitExpression(e.default);
      ghost var a, b, c := ExprEvents(e.subject, owner), ExprArmsEvents(e.arms, owner), ExprEvents(e.default, owner);
      AppliedInTwo(start, a, b);
      AppliedInTwo(start, a + b, c);
    }

    method VisitOptional(e: Option<Expression>)
      requires Valid()
      modifies this
      ensures Valid() && Kept() && View() == AppliedAll(old(View()), OptionalEvents(e, old(Owner())))
      decreases e, 0
    {
      match e { case Some(x) => VisitExpression(x); case None => }
    }

    method VisitTarget(target: Target)
      requires Valid()
      modifies this
      ensures Valid() && Kept() && View() == AppliedAll(old(View()), TargetEvents(target, old(Owner())))
      decreases target, 0
    {
      hide Applied;
      match target {
        case Index(base, index) =>
          StartsThere();
          AppliedInTwo(View(), ExprEvents(base, Owner()), ExprEvents(index, Owner()));
          VisitExpression(base);
          VisitExpression(index);
        case _ =>
      }
    }

    method VisitStatement(s: Statement)
      requires Valid()
      modifies this
      ensures Valid() && Kept() && View() == AppliedAll(old(View()), StmtEvents(s, old(Owner())))
      decreases s, 3
    {
      if s.If? || s.While? || s.For? || s.Find? || s.Match? {
        VisitControl(s);
      } else if s.Function? {
        VisitFunction(s);
      } else if s.Let? || s.Assignment? || s.Drop? || s.Move? {
        VisitAction(s);
      } else {
        VisitOther(s);
      }
    }

    /** The function is recorded with the number of the scope that is opened next. */
    method VisitFunction(s: Statement)
      requires Valid() && s.Function?
      modifies this
      ensures Valid() && Kept() && View() == AppliedAll(old(View()), StmtEvents(s, old(Owner())))
      decreases s, 2
    {
      hide UnsafeDepth, ByName, Applied, AppliedAll, BlockEvents, Scoped;
      ghost var start := View();
      var declare := Event.Declare(FunctionName(Owner(), s.name), ParamTypes(s.params), s.ret, s.isMethod);
      DeclareStep(start, declare, Scoped(false, ParamEvents(s.params) + BlockEvents(s.body, Owner())));
      DeclaresOnly(start, declare);
      Declare(FunctionName(Owner(), s.name), ParamTypes(s.params), s.ret, s.isMethod);
      VisitScope(false, ParamEvents(s.params), s.body);
    }

    method VisitAssignment(s: Statement)
      requires Valid() && s.Assignment?
      modifies this
      ensures Valid() && Kept() && View() == AppliedAll(old(View()), StmtEvents(s, old(Owner())))
      decreases s, 1
    {
      hide Applied, AppliedAll, ExprEvents, TargetEvents, UnsafeDepth, ByName;
      ghost var start, owner := View(), Owner();
      StartsThere();
      var row := BorrowEvents(BindingName(s.target), s.value);
      EmitFacts(row);
      VisitTarget(s.target);
      VisitExpression(s.value);
      AppliedInTwo(start, row, TargetEvents(s.target, owner));
      AppliedInTwo(start, row + TargetEvents(s.target, owner), ExprEvents(s.value, owner));
    }

    method VisitAction(s: Statement)
      requires Valid() && (s.Let? || s.Assignment? || s.Drop? || s.Move?)
      modifies this
      ensures Valid() && Kept() && View() == AppliedAll(old(View()), StmtEvents(s, old(Owner())))
      decreases s, 2
    {
      hide Applied, AppliedAll, ExprEvents, OptionalEvents, TargetEvents, ValueKind, UnsafeDepth, ByName;
      ghost var start, owner := View(), Owner();
      StartsThere();
      match s {
        case Let(name, ty, init, _, isConstant, isStatic) =>
          var row := [Bind(LetBinding(name, ty, init, isConstant, isStatic))];
          EmitFacts(row);
          VisitOptional(init);
          AppliedInTwo(start, row, OptionalEvents(init, owner));
        case Assignment(_, _) => VisitAssignment(s);
        case Drop(value) =>
          VisitExpression(value);
          EmitFacts(DropEvents(value));
          AppliedInTwo(start, ExprEvents(value, owner), DropEvents(value));
        case Move(moved, value) =>
          VisitExpression(value);
          EmitFacts([Record(Moved(moved, IdentifierName(value)))]);
          AppliedInTwo(start, ExprEvents(value, owner), [Record(Moved(moved, IdentifierName(value)))]);
      }
    }

    method VisitOther(s: Statement)
      requires Valid() && !(s.If? || s.While? || s.For? || s.Find? || s.Match? || s.Function? || s.Let? ||
                           s.Assignment? || s.Drop? || s.Move?)
      modifies this
      ensures Valid() && Kept() && View() == AppliedAll(old(View()), StmtEvents(s, old(Owner())))
      decreases s, 2
    {
      hide Applied, ExprEvents, BlockEvents, Scoped;
      match s {
        case Return(result) => VisitOptional(result);
        case ExprStmt(expr) => VisitExpression(expr);
        case Impl(_, typeName, _, methods) =>
          implOwnerStack := implOwnerStack + [typeName];
          VisitStatements(methods);
          implOwnerStack := implOwnerStack[..|implOwnerStack| - 1];
        case Type(_, _, _, fields, _) => VisitStatements(fields);
        case Unsafe(body) =>
          assert [] + BlockEvents(body, Owner()) == BlockEvents(body, Owner());
          VisitScope(true, [], body);
        case _ =>
      }
    }

    method VisitIf(s: Statement)
      requires Valid() && s.If?
      modifies this
      ensures Valid() && Kept() && View() == AppliedAll(old(View()), StmtEvents(s, old(Owner())))
      decreases s, 1
    {
      hide Applied, AppliedAll, ExprEvents, BlockEvents, Scoped;
      ghost var start, owner := View(), Owner();
      StartsThere();
      VisitExpression(s.condition);
      VisitScope(false, [], s.thenBranch);
      ghost var front, inner := ExprEvents(s.condition, owner), Scoped(false, BlockEvents(s.thenBranch, owner));
      assert [] + BlockEvents(s.thenBranch, owner) == BlockEvents(s.thenBranch, owner);
      AppliedInTwo(start, front, inner);
      match s.elseBranch {
        case NoElse => assert StmtEvents(s, owner) == front + inner;
        case Else(b) =>
          VisitScope(false, [], b);
          assert [] + BlockEvents(b, owner) == BlockEvents(b, owner);
          AppliedInTwo(start, front + inner, Scoped(false, BlockEvents(b, owner)));
      }
    }

    method VisitMatch(s: Statement)
      requires Valid() && s.Match?
      modifies this
      ensures Valid() && Kept() && View() == AppliedAll(old(View()), StmtEvents(s, old(Owner())))
      decreases s, 1
    {
      hide Applied, AppliedAll, ExprEvents, BlockEvents, StmtArmsEvents, Scoped;
      ghost var start, owner := View(), Owner();
      StartsThere();
      VisitExpression(s.subject);
      VisitStmtArms(s.arms);
      VisitScope(false, [], s.default);
      ghost var a, b := ExprEvents(s.subject, owner), StmtArmsEvents(s.arms, owner);
      assert [] + BlockEvents(s.default, owner) == BlockEvents(s.default, owner);
      AppliedInTwo(start, a, b);
      AppliedInTwo(start, a + b, Scoped(false, BlockEvents(s.default, owner)));
    }

    method VisitControl(s: Statement)
      requires Valid() && (s.If? || s.While? || s.For? || s.Find? || s.Match?)
      modifies this
      ensures Valid() && Kept() && View() == AppliedAll(old(View()), StmtEvents(s, old(Owner())))
      decreases s, 2
    {
      match s {
        case If(_, _, _) => VisitIf(s);
        case Match(_, _, _) => VisitMatch(s);
        case While(_, _) => VisitLoop(s);
        case For(_, _, _, _) => VisitLoop(s);
        case Find(_, _, _) => VisitLoop(s);
      }
    }

    method VisitLoop(s: Statement)
      requires Valid() && (s.While? || s.For? || s.Find?)
      modifies this
      ensures Valid() && Kept() && View() == AppliedAll(old(View()), StmtEvents(s, old(Owner())))
      decreases s, 1
    {
      hide Applied, AppliedAll, ExprEvents, BlockEvents, Scoped;
      ghost var start, owner := View(), Owner();
      StartsThere();
      VisitExpression(if s.While? then s.condition else s.iterable);
      var row :=
        if s.While? then []
        else if s.For? && s.counter.Some? then [Plain(s.variable, ANYTHING), Plain(s.counter.value, I64)]
        else [Plain(s.variable, ANYTHING)];
      VisitScope(false, row, s.body);
      ghost var inner := BlockEvents(s.body, owner);
      AppliedInTwo(start, ExprEvents(if s.While? then s.condition else s.iterable, owner), Scoped(false, row + inner));
      if s.While? {
        assert row + inner == inner;
      } else if s.For? {
        assert [Plain(s.variable, ANYTHING)] + (if s.counter.Some? then [Plain(s.counter.value, I64)] else []) == row;
      }
    }
  }

  /** The model of a program: it holds what stands in the text, and it is well formed. */
  method AnalyzeProgram(program: seq<Statement>) returns (builder: SemanticModelBuilder)
    ensures Holds(builder.View(), BlockText(program, Place(None, 0, false)))
    ensures builder.unsafeBlocks == BlockText(program, Place(None, 0, false)).unsafeBlocks
    ensures builder.Valid() && builder.View() == AppliedAll(EMPTY, BlockEvents(program, None))
    ensures Complete(builder.View()) && builder.scopeStack == [0]
    ensures builder.unsafeDepth == 0 && builder.unsafeBlocks == |builder.bodies|
  {
    hide Complete, BlockText;
    builder := new SemanticModelBuilder();
    builder.VisitStatements(program);
    TheModelIsTheText(program);
    EveryProgramIsWellFormed(program);
    RootIsSafe(builder.View());
  }

  lemma RootIsSafe(m: Model)
    requires Complete(m) && m.stack == [0]
    ensures UnsafeDepth(m.stack, m.bodies) == 0
  {
    assert [0][..0] == [];
  }

  lemma DeclaresOnly(m: Model, declare: Event)
    requires m.stack != [] && declare.Declare?
    ensures Applied(m, declare) ==
      m.(functions := m.functions[declare.name := FunctionInfo(declare.params, declare.ret, declare.isMethod, |m.scopes|)])
  {
  }

  lemma OpenedScope(m: Model, isUnsafe: bool)
    requires m.stack != [] && forall b | b in m.bodies :: b < |m.scopes|
    ensures var r := Applied(m, Open(isUnsafe));
      r.stack == m.stack + [|m.scopes|] && |r.scopes| == |m.scopes| + 1 && (|m.scopes| in r.bodies <==> isUnsafe) &&
      forall b | b < |m.scopes| :: b in r.bodies <==> b in m.bodies
  {
  }

  lemma ClosedScope(m: Model)
    requires |m.stack| > 1
    ensures Applied(m, Close) == m.(stack := m.stack[..|m.stack| - 1])
  {
  }

  lemma {:induction false} EmittedRow(m: Model, row: seq<Event>)
    requires m.stack != [] && forall e | e in row :: e.Bind? || e.Record?
    ensures var r := AppliedAll(m, row); r.stack == m.stack && r.scopes == m.scopes && r.bodies == m.bodies
    decreases |row|
  {
    if row != [] {
      assert row[0] in row;
      EmittedRow(Applied(m, row[0]), row[1..]);
    }
  }
}
