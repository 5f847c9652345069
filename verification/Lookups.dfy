/**
  The names that code refers to outside its types, and that the collector lists every one of
  them except dotted names that are assigned, of which it lists the root, and what stands in
  the target of an assignment through a pointer.
*/
module Lookups {
  import opened Wrappers
  import opened Ast
  import opened Text
  import opened Dependencies

  /** A callee is found under its whole name, or under the part after the last dot. */
  function CalleeLookups(callee: string): seq<string> {
    [callee] + (match LastSuffix(callee, '.') case Some(last) => [last] case None => [])
  }

  /** The member that an access or a named argument refers to. */
  function MemberLookups(op: Operator): seq<string> {
    if op.Member? then [op.member] else if op.NamedArg? then [op.arg] else []
  }

  function ExprLookups(e: Expression): seq<string>
    decreases e, 1
  {
    match e
    case Identifier(name, _) => [name]
    case Node(op, children, _) => MemberLookups(op) + ExprsLookups(children)
    case Call(callee, args, _, _) => CalleeLookups(callee) + ExprsLookups(args)
    case Closure(_, body, _, _) => BlockLookups(body)
    case MatchExpr(subject, arms, default, _) => ExprLookups(subject) + ExprArmsLookups(arms) + ExprLookups(default)
    case VariantPath(enumName, variant, _) => [enumName, variant]
    case Variant(enumName, variant, payloads, _) => [enumName, variant] + ExprsLookups(payloads)
    case Ascription(inner, _, _) => ExprLookups(inner)
    case UseMacro(inner) => ExprLookups(inner)
    case MacroCall(inner) => ExprLookups(inner)
    case _ => []
  }

  function ExprsLookups(es: seq<Expression>): seq<string>
    decreases es, 0
  {
    if es == [] then [] else ExprLookups(es[0]) + ExprsLookups(es[1..])
  }

  function ExprArmsLookups(arms: seq<ExprArm>): seq<string>
    decreases arms, 1
  {
    if arms == [] then [] else ExprArmLookups(arms[0]) + ExprArmsLookups(arms[1..])
  }

  /** A pattern binds the identifiers in it and refers to the enums. */
  function PatternLookups(pattern: Expression): seq<string> {
    match pattern
    case VariantPath(enumName, variant, _) => [enumName, variant]
    case Variant(enumName, variant, _, _) => [enumName, variant]
    case Call(_, args, _, _) => PatternsLookups(args)
    case _ => []
  }

  function PatternsLookups(patterns: seq<Expression>): seq<string> {
    if patterns == [] then [] else PatternLookups(patterns[0]) + PatternsLookups(patterns[1..])
  }

  function ExprArmLookups(arm: ExprArm): seq<string>
    decreases arm, 0
  {
    var ExprArm(pattern, result) := arm;
    PatternLookups(pattern) + ExprLookups(result)
  }

  function StmtArmsLookups(arms: seq<StmtArm>): seq<string>
    decreases arms, 1
  {
    if arms == [] then [] else StmtArmLookups(arms[0]) + StmtArmsLookups(arms[1..])
  }

  function StmtArmLookups(arm: StmtArm): seq<string>
    decreases arm, 0
  {
    var StmtArm(pattern, body) := arm;
    PatternLookups(pattern) + BlockLookups(body)
  }

  function OptionalLookups(e: Option<Expression>): seq<string>
    decreases e, 0
  {
    match e case None => [] case Some(x) => ExprLookups(x)
  }

  function TargetLookups(target: Target): seq<string>
    decreases target, 0
  {
    match target
    case Variable(name) => [name]
    case Field(path) => [Root(path)]
    case Index(base, index) => ExprLookups(base) + ExprLookups(index)
    case Deref(_) => []
  }

  function StmtLookups(s: Statement): seq<string>
    decreases s, 0
  {
    match s
    case Let(_, _, init, _, _, _) => OptionalLookups(init)
    case Assignment(target, value) => TargetLookups(target) + ExprLookups(value)
    case Function(_, _, _, body, _, _, _) => BlockLookups(body)
    case Return(result) => OptionalLookups(result)
    case If(condition, thenBranch, elseBranch) =>
      ExprLookups(condition) + BlockLookups(thenBranch) +
      (match elseBranch case NoElse => [] case Else(b) => BlockLookups(b))
    case While(condition, body) => ExprLookups(condition) + BlockLookups(body)
    case For(_, _, iterable, body) => ExprLookups(iterable) + BlockLookups(body)
    case ExprStmt(expr) => ExprLookups(expr)
    case Match(subject, arms, default) => ExprLookups(subject) + StmtArmsLookups(arms) + BlockLookups(default)
    case Find(_, iterable, body) => ExprLookups(iterable) + BlockLookups(body)
    case Type(_, _, _, fields, _) => BlockLookups(fields)
    case Impl(traitName, typeName, _, methods) =>
      [typeName] + (if traitName.Some? then [traitName.value] else []) + BlockLookups(methods)
    case Unsafe(body) => BlockLookups(body)
    case Drop(value) => ExprLookups(value)
    case Move(moved, value) => [moved] + ExprLookups(value)
    case _ => []
  }

  function BlockLookups(ss: seq<Statement>): seq<string>
    decreases ss, 0
  {
    if ss == [] then [] else StmtLookups(ss[0]) + BlockLookups(ss[1..])
  }

  // ---- the collector lists them

  /** A name that is not listed itself has a dot, and its root is listed. */
  predicate Accounted(name: string, deps: seq<string>) {
    name in deps || ('.' in name && Root(name) in deps)
  }

  ghost predicate AllAccounted(names: seq<string>, deps: seq<string>) {
    forall n | n in names :: Accounted(n, deps)
  }

  lemma AccountedBoth(a: seq<string>, x: seq<string>, b: seq<string>, y: seq<string>)
    requires AllAccounted(a, x) && AllAccounted(b, y)
    ensures AllAccounted(a + b, x + y)
  {
    forall n | n in a + b ensures Accounted(n, x + y) {
      assert if n in a then Accounted(n, x) else Accounted(n, y);
    }
  }

  lemma AccountedAfter(front: seq<string>, a: seq<string>, x: seq<string>)
    requires AllAccounted(a, x)
    ensures AllAccounted(a, front + x)
  {
    AccountedBoth([], front, a, x);
    assert [] + a == a;
  }

  lemma {:induction false} ExprIsListed(e: Expression)
    ensures AllAccounted(ExprLookups(e), ExprDeps(e))
    decreases e, 1
  {
    hide AllAccounted, ExprsLookups, ExprsDeps, ExprArmsLookups, ExprArmsDeps, BlockLookups, BlockDeps, ParamDeps, TypeDeps;
    match e
    case Identifier(name, _) => NameIsListed([name], name);
    case Node(op, children, _) =>
      EachIsAccounted(MemberLookups(op));
      assert OperatorDeps(op) == MemberLookups(op);
      ExprsAreListed(children);
      AccountedBoth(MemberLookups(op), OperatorDeps(op), ExprsLookups(children), ExprsDeps(children));
    case Call(callee, args, _, _) =>
      EachIsAccounted(CalleeLookups(callee));
      assert CallDeps(callee) == CalleeLookups(callee);
      ExprsAreListed(args);
      AccountedBoth(CalleeLookups(callee), CallDeps(callee), ExprsLookups(args), ExprsDeps(args));
    case Closure(params, body, ret, _) =>
      BlockIsListed(body);
      AccountedAfter(ParamDeps(params) + TypeDeps(ret), BlockLookups(body), BlockDeps(body));
    case MatchExpr(subject, arms, default, _) =>
      ExprIsListed(subject);
      ExprArmsAreListed(arms);
      ExprIsListed(default);
      AccountedBoth(ExprLookups(subject), ExprDeps(subject), ExprArmsLookups(arms), ExprArmsDeps(arms));
      AccountedBoth(ExprLookups(subject) + ExprArmsLookups(arms), ExprDeps(subject) + ExprArmsDeps(arms),
                    ExprLookups(default), ExprDeps(default));
    case VariantPath(enumName, variant, _) => EachIsAccounted([enumName, variant]);
    case Variant(enumName, variant, payloads, _) =>
      EachIsAccounted([enumName, variant]);
      ExprsAreListed(payloads);
      AccountedBoth([enumName, variant], [enumName, variant], ExprsLookups(payloads), ExprsDeps(payloads));
    case Ascription(inner, _, _) => ExprIsListed(inner);
    case UseMacro(inner) => ExprIsListed(inner);
    case MacroCall(inner) => ExprIsListed(inner);
    case _ => NothingIsAccounted(ExprDeps(e));
  }

  lemma NameIsListed(deps: seq<string>, name: string)
    requires name in deps
    ensures AllAccounted([name], deps)
  {
  }

  lemma EachIsAccounted(names: seq<string>)
    ensures AllAccounted(names, names)
  {
  }

  lemma NothingIsAccounted(deps: seq<string>)
    ensures AllAccounted([], deps)
  {
  }

  lemma {:induction false} ExprsAreListed(es: seq<Expression>)
    ensures AllAccounted(ExprsLookups(es), ExprsDeps(es))
    decreases es, 0
  {
    hide ExprLookups, ExprDeps;
    if es != [] {
      ExprIsListed(es[0]);
      ExprsAreListed(es[1..]);
      AccountedBoth(ExprLookups(es[0]), ExprDeps(es[0]), ExprsLookups(es[1..]), ExprsDeps(es[1..]));
    }
  }

  lemma {:induction false} PatternIsListed(pattern: Expression)
    ensures AllAccounted(PatternLookups(pattern), ExprDeps(pattern))
  {
    hide AllAccounted, ExprsDeps;
    match pattern
    case VariantPath(enumName, variant, _) => EachIsAccounted([enumName, variant]);
    case Variant(enumName, variant, payloads, _) =>
      EachIsAccounted([enumName, variant]);
      NothingIsAccounted(ExprsDeps(payloads));
      AccountedBoth([enumName, variant], [enumName, variant], [], ExprsDeps(payloads));
      assert [enumName, variant] + [] == [enumName, variant];
    case Call(callee, args, _, _) =>
      PatternsAreListed(args);
      AccountedAfter(CallDeps(callee), PatternsLookups(args), ExprsDeps(args));
    case _ => NothingIsAccounted(ExprDeps(pattern));
  }

  lemma {:induction false} PatternsAreListed(patterns: seq<Expression>)
    ensures AllAccounted(PatternsLookups(patterns), ExprsDeps(patterns))
  {
    hide PatternLookups, ExprDeps;
    if patterns != [] {
      PatternIsListed(patterns[0]);
      PatternsAreListed(patterns[1..]);
      AccountedBoth(PatternLookups(patterns[0]), ExprDeps(patterns[0]), PatternsLookups(patterns[1..]), ExprsDeps(patterns[1..]));
    }
  }

  lemma {:induction false} ExprArmsAreListed(arms: seq<ExprArm>)
    ensures AllAccounted(ExprArmsLookups(arms), ExprArmsDeps(arms))
    decreases arms, 1
  {
    hide ExprArmLookups, ExprArmDeps, AllAccounted;
    if arms == [] {
      NothingIsAccounted([]);
    } else {
      ExprArmIsListed(arms[0]);
      ExprArmsAreListed(arms[1..]);
      AccountedBoth(ExprArmLookups(arms[0]), ExprArmDeps(arms[0]), ExprArmsLookups(arms[1..]), ExprArmsDeps(arms[1..]));
    }
  }

  lemma {:induction false} ExprArmIsListed(arm: ExprArm)
    ensures AllAccounted(ExprArmLookups(arm), ExprArmDeps(arm))
    decreases arm, 0
  {
    hide ExprLookups, ExprDeps, AllAccounted;
    PatternIsListed(arm.pattern);
    ExprIsListed(arm.result);
    AccountedBoth(PatternLookups(arm.pattern), ExprDeps(arm.pattern), ExprLookups(arm.result), ExprDeps(arm.result));
  }

  lemma {:induction false} StmtArmsAreListed(arms: seq<StmtArm>)
    ensures AllAccounted(StmtArmsLookups(arms), StmtArmsDeps(arms))
    decreases arms, 1
  {
    hide StmtArmLookups, StmtArmDeps, AllAccounted;
    if arms == [] {
      NothingIsAccounted([]);
    } else {
      StmtArmIsListed(arms[0]);
      StmtArmsAreListed(arms[1..]);
      AccountedBoth(StmtArmLookups(arms[0]), StmtArmDeps(arms[0]), StmtArmsLookups(arms[1..]), StmtArmsDeps(arms[1..]));
    }
  }

  lemma {:induction false} StmtArmIsListed(arm: StmtArm)
    ensures AllAccounted(StmtArmLookups(arm), StmtArmDeps(arm))
    decreases arm, 0
  {
    hide BlockLookups, BlockDeps, AllAccounted;
    PatternIsListed(arm.pattern);
    BlockIsListed(arm.body);
    AccountedBoth(PatternLookups(arm.pattern), ExprDeps(arm.pattern), BlockLookups(arm.body), BlockDeps(arm.body));
  }

  lemma {:induction false} OptionalIsListed(e: Option<Expression>)
    ensures AllAccounted(OptionalLookups(e), OptionalDeps(e))
    decreases e, 0
  {
    hide ExprLookups, ExprDeps;
    if e.Some? { ExprIsListed(e.value); }
  }

  lemma VariableIsListed(name: string)
    ensures AllAccounted([name], TargetDeps(Variable(name)))
  {
    assert TargetDeps(Variable(name)) == [Root(name)];
    if '.' !in name { assert Root(name) == name; }
  }

  lemma {:induction false} TargetIsListed(target: Target)
    ensures AllAccounted(TargetLookups(target), TargetDeps(target))
    decreases target, 0
  {
    hide AllAccounted, ExprLookups, ExprDeps;
    match target
    case Variable(name) => VariableIsListed(name);
    case Field(path) =>
      assert TargetDeps(target) == [Root(path)];
      NameIsListed([Root(path)], Root(path));
    case Index(base, index) =>
      ExprIsListed(base);
      ExprIsListed(index);
      AccountedBoth(ExprLookups(base), ExprDeps(base), ExprLookups(index), ExprDeps(index));
      AccountedAfter(OptionalName(BindingName(target)), ExprLookups(base) + ExprLookups(index), ExprDeps(base) + ExprDeps(index));
    case Deref(_) => NothingIsAccounted(TargetDeps(target));
  }

  lemma {:induction false} ImplIsListed(s: Statement)
    requires s.Impl?
    ensures AllAccounted(StmtLookups(s), StmtDeps(s))
    decreases s, 0
  {
    hide AllAccounted, BlockLookups, BlockDeps;
    var Impl(traitName, typeName, _, methods) := s;
    var heads := [typeName] + OptionalName(traitName);
    EachIsAccounted(heads);
    BlockIsListed(methods);
    AccountedBoth(heads, heads, BlockLookups(methods), BlockDeps(methods));
  }

  lemma {:induction false} StmtIsListed(s: Statement)
    ensures AllAccounted(StmtLookups(s), StmtDeps(s))
    decreases s, 1
  {
    hide AllAccounted, ExprLookups, ExprDeps, BlockLookups, BlockDeps, OptionalLookups, OptionalDeps, StmtArmsLookups,
         StmtArmsDeps, ParamDeps, TargetDeps, TargetLookups;
    match s
    case Let(_, _, init, _, _, _) => OptionalIsListed(init);
    case Assignment(target, value) =>
      TargetIsListed(target);
      ExprIsListed(value);
      AccountedBoth(TargetLookups(target), TargetDeps(target), ExprLookups(value), ExprDeps(value));
    case Function(_, _, params, body, _, _, _) =>
      BlockIsListed(body);
      AccountedAfter(ParamDeps(params), BlockLookups(body), BlockDeps(body));
    case Return(result) => OptionalIsListed(result);
    case If(_, _, _) => IfIsListed(s);
    case While(condition, body) =>
      ExprIsListed(condition);
      BlockIsListed(body);
      AccountedBoth(ExprLookups(condition), ExprDeps(condition), BlockLookups(body), BlockDeps(body));
    case For(_, _, iterable, body) =>
      ExprIsListed(iterable);
      BlockIsListed(body);
      AccountedBoth(ExprLookups(iterable), ExprDeps(iterable), BlockLookups(body), BlockDeps(body));
    case ExprStmt(expr) => ExprIsListed(expr);
    case Match(subject, arms, default) =>
      ExprIsListed(subject);
      StmtArmsAreListed(arms);
      BlockIsListed(default);
      AccountedBoth(ExprLookups(subject), ExprDeps(subject), StmtArmsLookups(arms), StmtArmsDeps(arms));
      AccountedBoth(ExprLookups(subject) + StmtArmsLookups(arms), ExprDeps(subject) + StmtArmsDeps(arms),
                    BlockLookups(default), BlockDeps(default));
    case Find(_, iterable, body) =>
      ExprIsListed(iterable);
      BlockIsListed(body);
      AccountedBoth(ExprLookups(iterable), ExprDeps(iterable), BlockLookups(body), BlockDeps(body));
    case Type(_, _, _, fields, _) => BlockIsListed(fields);
    case Impl(_, _, _, _) => ImplIsListed(s);
    case Unsafe(body) => BlockIsListed(body);
    case Drop(value) => ExprIsListed(value);
    case Move(moved, value) =>
      EachIsAccounted([moved]);
      ExprIsListed(value);
      AccountedBoth([moved], [moved], ExprLookups(value), ExprDeps(value));
    case _ => NothingIsAccounted(StmtDeps(s));
  }

  lemma {:induction false} IfIsListed(s: Statement)
    requires s.If?
    ensures AllAccounted(StmtLookups(s), StmtDeps(s))
    decreases s, 0
  {
    hide AllAccounted, ExprLookups, ExprDeps, BlockLookups, BlockDeps;
    var If(condition, thenBranch, elseBranch) := s;
    var a, x := ExprLookups(condition) + BlockLookups(thenBranch), ExprDeps(condition) + BlockDeps(thenBranch);
    ExprIsListed(condition);
    BlockIsListed(thenBranch);
    AccountedBoth(ExprLookups(condition), ExprDeps(condition), BlockLookups(thenBranch), BlockDeps(thenBranch));
    match elseBranch
    case NoElse =>
      NothingIsAccounted([]);
      AccountedBoth(a, x, [], []);
    case Else(b) =>
      BlockIsListed(b);
      AccountedBoth(a, x, BlockLookups(b), BlockDeps(b));
  }

  /** Of the names that a block refers to, the collector misses none but those with a dot that
      are assigned; of these it lists the root. */
  lemma {:induction false} BlockIsListed(ss: seq<Statement>)
    ensures AllAccounted(BlockLookups(ss), BlockDeps(ss))
    decreases ss, 0
  {
    hide StmtLookups, StmtDeps;
    if ss != [] {
      StmtIsListed(ss[0]);
      BlockIsListed(ss[1..]);
      AccountedBoth(StmtLookups(ss[0]), StmtDeps(ss[0]), BlockLookups(ss[1..]), BlockDeps(ss[1..]));
    }
  }

  /** What stands in the target of a store through a pointer is not listed. */
  lemma PointerOfAStoreIsNotListed(name: string, ty: DataType, value: Scalar)
    ensures name in ExprLookups(Identifier(name, ty)) && StmtDeps(Assignment(Deref(Identifier(name, ty)), Literal(value))) == []
  {
    assert TargetDeps(Deref(Identifier(name, ty))) == [];
    assert ExprDeps(Literal(value)) == [];
  }
}
