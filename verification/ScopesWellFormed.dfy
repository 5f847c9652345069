/**
  Every program leaves a well-formed tree of scopes with its functions in place.

  The visitor's events come in nested groups: a scope is closed where it was opened,
  and a function is registered with the scope that binds its parameters.  Such a list
  is `Whole`: from every complete state it leads to a complete state in which the same
  scopes are open.

  Bindings and records are whole one at a time; two whole lists in a row are whole, and
  so is a whole list between the opening and the closing of a scope, with or without a
  function's parameters.  What is left is one lemma for each kind of node of the tree.
*/
module ScopesWellFormed {
  import opened Wrappers
  import opened Ast
  import Dependencies
  import opened ScopeEvents
  import opened ScopeTree

  lemma {:induction false} ExprWhole(e: Expression, owner: Option<string>)
    ensures Whole(ExprEvents(e, owner))
    decreases e, 1
  {
    hide Whole, Scoped;
    match e
    case Node(_, children, _) =>
      WholeRow(BorrowEvents(None, e));
      ExprsWhole(children, owner);
      WholeBoth(BorrowEvents(None, e), ExprsEvents(children, owner));
    case Call(_, args, _, _) => ExprsWhole(args, owner);
    case Closure(params, body, _, captures) =>
      BlockWhole(body, owner);
      BoundScopeWhole(CaptureEvents(captures) + ParamEvents(params), BlockEvents(body, owner));
    case MatchExpr(subject, arms, default, _) =>
      ExprWhole(subject, owner);
      ExprArmsWhole(arms, owner);
      ExprWhole(default, owner);
      WholeBoth(ExprEvents(subject, owner), ExprArmsEvents(arms, owner));
      WholeBoth(ExprEvents(subject, owner) + ExprArmsEvents(arms, owner), ExprEvents(default, owner));
    case Variant(_, _, payloads, _) => ExprsWhole(payloads, owner);
    case Ascription(inner, _, _) => ExprWhole(inner, owner);
    case UseMacro(inner) => ExprWhole(inner, owner);
    case MacroCall(inner) => ExprWhole(inner, owner);
    case _ => WholeNothing();
  }

  /** A safe scope that starts with a row of bindings. */
  lemma BoundScopeWhole(row: seq<Event>, inner: seq<Event>)
    requires (forall e | e in row :: e.Bind? || e.Record?) && Whole(inner)
    ensures Whole(Scoped(false, row + inner))
  {
    hide Whole, Scoped;
    WholeRow(row);
    WholeBoth(row, inner);
    WholeScoped(false, row + inner);
  }

  lemma {:induction false} PayloadsAreRow(payloads: seq<Expression>)
    ensures forall e | e in PayloadEvents(payloads) :: e.Bind? || e.Record?
  {
    if payloads != [] { PayloadsAreRow(payloads[1..]); }
  }

  lemma PatternIsRow(pattern: Expression)
    ensures forall e | e in PatternEvents(pattern) :: e.Bind? || e.Record?
  {
    if pattern.Variant? { PayloadsAreRow(pattern.payloads); }
  }

  lemma {:induction false} ExprsWhole(es: seq<Expression>, owner: Option<string>)
    ensures Whole(ExprsEvents(es, owner))
    decreases es, 0
  {
    hide Whole;
    if es == [] {
      WholeNothing();
    } else {
      ExprWhole(es[0], owner);
      ExprsWhole(es[1..], owner);
      WholeBoth(ExprEvents(es[0], owner), ExprsEvents(es[1..], owner));
    }
  }

  lemma {:induction false} ExprArmsWhole(arms: seq<ExprArm>, owner: Option<string>)
    ensures Whole(ExprArmsEvents(arms, owner))
    decreases arms, 0
  {
    hide Whole;
    if arms == [] {
      WholeNothing();
    } else {
      ExprArmWhole(arms[0], owner);
      ExprArmsWhole(arms[1..], owner);
      WholeBoth(ExprArmEvents(arms[0], owner), ExprArmsEvents(arms[1..], owner));
    }
  }

  lemma {:induction false} ExprArmWhole(arm: ExprArm, owner: Option<string>)
    ensures Whole(ExprArmEvents(arm, owner))
    decreases arm, 0
  {
    hide Whole, Scoped;
    var ExprArm(pattern, result) := arm;
    PatternIsRow(pattern);
    ExprWhole(result, owner);
    BoundScopeWhole(PatternEvents(pattern), ExprEvents(result, owner));
  }

  lemma {:induction false} StmtArmsWhole(arms: seq<StmtArm>, owner: Option<string>)
    ensures Whole(StmtArmsEvents(arms, owner))
    decreases arms, 0
  {
    hide Whole;
    if arms == [] {
      WholeNothing();
    } else {
      StmtArmWhole(arms[0], owner);
      StmtArmsWhole(arms[1..], owner);
      WholeBoth(StmtArmEvents(arms[0], owner), StmtArmsEvents(arms[1..], owner));
    }
  }

  lemma {:induction false} StmtArmWhole(arm: StmtArm, owner: Option<string>)
    ensures Whole(StmtArmEvents(arm, owner))
    decreases arm, 0
  {
    hide Whole, Scoped;
    var StmtArm(pattern, body) := arm;
    PatternIsRow(pattern);
    BlockWhole(body, owner);
    BoundScopeWhole(PatternEvents(pattern), BlockEvents(body, owner));
  }

  lemma {:induction false} OptionalWhole(e: Option<Expression>, owner: Option<string>)
    ensures Whole(OptionalEvents(e, owner))
    decreases e, 0
  {
    hide Whole;
    match e
    case Some(x) => ExprWhole(x, owner);
    case None => WholeNothing();
  }

  lemma {:induction false} TargetWhole(target: Target, owner: Option<string>)
    ensures Whole(TargetEvents(target, owner))
    decreases target, 0
  {
    hide Whole;
    match target
    case Index(base, index) =>
      ExprWhole(base, owner);
      ExprWhole(index, owner);
      WholeBoth(ExprEvents(base, owner), ExprEvents(index, owner));
    case _ => WholeNothing();
  }

  /** An expression followed by a scope. */
  lemma ThenScopeWhole(front: seq<Event>, row: seq<Event>, inner: seq<Event>)
    requires Whole(front) && (forall e | e in row :: e.Bind? || e.Record?) && Whole(inner)
    ensures Whole(front + Scoped(false, row + inner))
  {
    hide Whole, Scoped;
    BoundScopeWhole(row, inner);
    WholeBoth(front, Scoped(false, row + inner));
  }

  lemma {:induction false} StmtWhole(s: Statement, owner: Option<string>)
    ensures Whole(StmtEvents(s, owner))
    decreases s, 2
  {
    if s.If? || s.While? || s.For? || s.Find? || s.Match? {
      ControlWhole(s, owner);
    } else {
      OtherWhole(s, owner);
    }
  }

  lemma {:induction false} ControlWhole(s: Statement, owner: Option<string>)
    requires s.If? || s.While? || s.For? || s.Find? || s.Match?
    ensures Whole(StmtEvents(s, owner))
    decreases s, 1
  {
    hide Whole, Scoped;
    match s
    case If(condition, thenBranch, elseBranch) => IfWhole(s, owner);
    case While(condition, body) =>
      ExprWhole(condition, owner);
      BlockWhole(body, owner);
      ThenScopeWhole(ExprEvents(condition, owner), [], BlockEvents(body, owner));
      assert [] + BlockEvents(body, owner) == BlockEvents(body, owner);
    case For(variable, counter, iterable, body) =>
      ExprWhole(iterable, owner);
      BlockWhole(body, owner);
      ThenScopeWhole(ExprEvents(iterable, owner),
        [Plain(variable, ANYTHING)] + (if counter.Some? then [Plain(counter.value, I64)] else []), BlockEvents(body, owner));
    case Find(variable, iterable, body) =>
      ExprWhole(iterable, owner);
      BlockWhole(body, owner);
      ThenScopeWhole(ExprEvents(iterable, owner), [Plain(variable, ANYTHING)], BlockEvents(body, owner));
    case Match(subject, arms, default) =>
      ExprWhole(subject, owner);
      StmtArmsWhole(arms, owner);
      BlockWhole(default, owner);
      WholeBoth(ExprEvents(subject, owner), StmtArmsEvents(arms, owner));
      ThenScopeWhole(ExprEvents(subject, owner) + StmtArmsEvents(arms, owner), [], BlockEvents(default, owner));
      assert [] + BlockEvents(default, owner) == BlockEvents(default, owner);
  }

  lemma {:induction false} IfWhole(s: Statement, owner: Option<string>)
    requires s.If?
    ensures Whole(StmtEvents(s, owner))
    decreases s, 0
  {
    hide Whole, Scoped;
    ExprWhole(s.condition, owner);
    BlockWhole(s.thenBranch, owner);
    var front, inner := ExprEvents(s.condition, owner), BlockEvents(s.thenBranch, owner);
    WholeScoped(false, inner);
    WholeBoth(front, Scoped(false, inner));
    match s.elseBranch
    case NoElse => assert StmtEvents(s, owner) == front + Scoped(false, inner);
    case Else(b) =>
      BlockWhole(b, owner);
      WholeScoped(false, BlockEvents(b, owner));
      WholeBoth(front + Scoped(false, inner), Scoped(false, BlockEvents(b, owner)));
  }

  lemma {:induction false} OtherWhole(s: Statement, owner: Option<string>)
    requires !(s.If? || s.While? || s.For? || s.Find? || s.Match?)
    ensures Whole(StmtEvents(s, owner))
    decreases s, 1
  {
    hide Whole, Scoped;
    match s
    case Let(name, ty, init, _, isConstant, isStatic) =>
      OptionalWhole(init, owner);
      WholeOne(Bind(LetBinding(name, ty, init, isConstant, isStatic)));
      WholeBoth([Bind(LetBinding(name, ty, init, isConstant, isStatic))], OptionalEvents(init, owner));
    case Assignment(target, value) =>
      TargetWhole(target, owner);
      ExprWhole(value, owner);
      AssignmentWhole(target, value, owner);
    case Function(name, _, params, body, ret, _, isMethod) =>
      BlockWhole(body, owner);
      WholeFunction(FunctionName(owner, name), params, ret, isMethod, BlockEvents(body, owner));
    case Return(result) => OptionalWhole(result, owner);
    case ExprStmt(expr) => ExprWhole(expr, owner);
    case Impl(_, typeName, _, methods) => BlockWhole(methods, Some(typeName));
    case Type(_, _, _, fields, _) => BlockWhole(fields, owner);
    case Unsafe(body) =>
      BlockWhole(body, owner);
      WholeScoped(true, BlockEvents(body, owner));
    case Drop(value) =>
      ExprWhole(value, owner);
      WholeRow(DropEvents(value));
      WholeBoth(ExprEvents(value, owner), DropEvents(value));
    case Move(moved, value) =>
      ExprWhole(value, owner);
      WholeOne(Record(Moved(moved, IdentifierName(value))));
      WholeBoth(ExprEvents(value, owner), [Record(Moved(moved, IdentifierName(value)))]);
    case _ => WholeNothing();
  }

  lemma AssignmentWhole(target: Target, value: Expression, owner: Option<string>)
    requires Whole(TargetEvents(target, owner)) && Whole(ExprEvents(value, owner))
    ensures Whole(StmtEvents(Assignment(target, value), owner))
  {
    hide Whole;
    var borrows := BorrowEvents(Dependencies.BindingName(target), value);
    WholeRow(borrows);
    WholeBoth(borrows, TargetEvents(target, owner));
    WholeBoth(borrows + TargetEvents(target, owner), ExprEvents(value, owner));
  }

  lemma {:induction false} BlockWhole(ss: seq<Statement>, owner: Option<string>)
    ensures Whole(BlockEvents(ss, owner))
    decreases ss, 0
  {
    hide Whole;
    if ss == [] {
      WholeNothing();
    } else {
      StmtWhole(ss[0], owner);
      BlockWhole(ss[1..], owner);
      WholeBoth(StmtEvents(ss[0], owner), BlockEvents(ss[1..], owner));
    }
  }

  lemma EmptyIsComplete()
    ensures Complete(EMPTY)
  {
  }

  /** Whatever the program: scopes form a numbered tree, safety is inherited from unsafe
      bodies only, every binding matches its scope, every function's recorded scope holds
      its parameters, and only the root scope is left open. */
  lemma EveryProgramIsWellFormed(program: seq<Statement>)
    ensures var m := AppliedAll(EMPTY, BlockEvents(program, None)); Complete(m) && m.stack == [0]
  {
    hide Complete, AppliedAll;
    EmptyIsComplete();
    BlockWhole(program, None);
  }
}
