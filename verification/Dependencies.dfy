/**
  Which names a statement refers to.  The walkers push into one shared list; the
  functions say what ends up in it, in order and with repetitions.
*/
module Dependencies {
  import opened Wrappers
  import opened Ast
  import opened Text

  function TypeDeps(t: DataType): seq<string> {
    match t
    case StructNamed(name) => [name]
    case EnumNamed(name) => [name]
    case DynTrait(name) => [name]
    case Vector(e) => TypeDeps(e)
    case Slice(e) => TypeDeps(e)
    case Maybe(e) => TypeDeps(e)
    case Array(e, _) => TypeDeps(e)
    case ResultOf(ok, _) => TypeDeps(ok)
    case MapOf(k, v) => TypeDeps(k) + TypeDeps(v)
    case _ => []
  }

  function TypesDeps(ts: seq<DataType>): seq<string> {
    if ts == [] then [] else TypeDeps(ts[0]) + TypesDeps(ts[1..])
  }

  function ParamDeps(ps: seq<Param>): seq<string> {
    if ps == [] then [] else TypeDeps(ps[0].ty) + ParamDeps(ps[1..])
  }

  function VariantDeps(vs: seq<EnumVariantDef>): seq<string> {
    if vs == [] then [] else TypesDeps(vs[0].types) + VariantDeps(vs[1..])
  }

  function OptionalName(name: Option<string>): seq<string> {
    if name.Some? then [name.value] else []
  }

  /** The name an operator node itself mentions. */
  function OperatorDeps(op: Operator): seq<string> {
    match op
    case Member(member) => [member]
    case NamedArg(arg) => [arg]
    case _ => []
  }

  function CallDeps(callee: string): seq<string> {
    [callee] + OptionalName(LastSuffix(callee, '.'))
  }

  /** The variable at the root of a place expression. */
  function RootIdentifier(e: Expression): Option<string> {
    match e
    case Identifier(name, _) => Some(name)
    case Node(op, children, _) =>
      if (op.Member? || op.IndexOf? || op.Dereference?) && children != [] then RootIdentifier(children[0]) else None
    case _ => None
  }

  function BindingName(target: Target): Option<string> {
    match target
    case Variable(name) => Some(Root(name))
    case Field(path) => Some(Root(path))
    case Index(base, _) => RootIdentifier(base)
    case Deref(_) => None
  }

  function ExprDeps(e: Expression): seq<string>
    decreases e, 1
  {
    match e
    case Literal(_) => []
    case Identifier(name, _) => [name]
    case Node(op, children, _) => OperatorDeps(op) + ExprsDeps(children)
    case Call(callee, args, _, _) => CallDeps(callee) + ExprsDeps(args)
    case Closure(params, body, ret, _) => ParamDeps(params) + TypeDeps(ret) + BlockDeps(body)
    case MatchExpr(subject, arms, default, _) => ExprDeps(subject) + ExprArmsDeps(arms) + ExprDeps(default)
    case VariantPath(enumName, variant, _) => [enumName, variant]
    case Variant(enumName, variant, payloads, _) => [enumName, variant] + ExprsDeps(payloads)
    case Ascription(inner, _, _) => ExprDeps(inner)
    case UseMacro(inner) => ExprDeps(inner)
    case MacroCall(inner) => ExprDeps(inner)
  }

  function ExprsDeps(es: seq<Expression>): seq<string>
    decreases es, 0
  {
    if es == [] then [] else ExprDeps(es[0]) + ExprsDeps(es[1..])
  }

  function ExprArmsDeps(arms: seq<ExprArm>): seq<string>
    decreases arms, 0
  {
    if arms == [] then []
    else ExprArmDeps(arms[0]) + ExprArmsDeps(arms[1..])
  }

  function ExprArmDeps(arm: ExprArm): seq<string>
    decreases arm, 0
  {
    var ExprArm(pattern, result) := arm;
    ExprDeps(pattern) + ExprDeps(result)
  }

  function StmtArmsDeps(arms: seq<StmtArm>): seq<string>
    decreases arms, 0
  {
    if arms == [] then []
    else StmtArmDeps(arms[0]) + StmtArmsDeps(arms[1..])
  }

  function StmtArmDeps(arm: StmtArm): seq<string>
    decreases arm, 0
  {
    var StmtArm(pattern, body) := arm;
    ExprDeps(pattern) + BlockDeps(body)
  }

  function OptionalDeps(e: Option<Expression>): seq<string>
    decreases e, 0
  {
    match e case None => [] case Some(x) => ExprDeps(x)
  }

  function TargetDeps(target: Target): seq<string>
    decreases target, 0
  {
    OptionalName(BindingName(target)) +
    (match target case Index(base, index) => ExprDeps(base) + ExprDeps(index) case _ => [])
  }

  function StmtDeps(s: Statement): seq<string>
    decreases s, 1
  {
    match s
    case Let(_, _, init, _, _, _) => OptionalDeps(init)
    case Assignment(target, value) => TargetDeps(target) + ExprDeps(value)
    case Function(_, _, params, body, _, _, _) => ParamDeps(params) + BlockDeps(body)
    case Return(result) => OptionalDeps(result)
    case If(condition, thenBranch, elseBranch) =>
      ExprDeps(condition) + BlockDeps(thenBranch) +
      (match elseBranch case NoElse => [] case Else(b) => BlockDeps(b))
    case While(condition, body) => ExprDeps(condition) + BlockDeps(body)
    case For(_, _, iterable, body) => ExprDeps(iterable) + BlockDeps(body)
    case Find(_, iterable, body) => ExprDeps(iterable) + BlockDeps(body)
    case ExprStmt(expr) => ExprDeps(expr)
    case Match(subject, arms, default) => ExprDeps(subject) + StmtArmsDeps(arms) + BlockDeps(default)
    case Type(_, _, _, fields, _) => BlockDeps(fields)
    case Enum(_, variants, _) => VariantDeps(variants)
    case Impl(traitName, typeName, _, methods) => [typeName] + OptionalName(traitName) + BlockDeps(methods)
    case Unsafe(body) => BlockDeps(body)
    case Drop(value) => ExprDeps(value)
    case Move(moved, value) => [moved] + ExprDeps(value)
    case ExternFunction(_, lib, params, ret, _) => [lib] + ParamDeps(params) + TypeDeps(ret)
    case Load(path, _, items) => path + (if items.Some? then items.value else [])
    case LoadLocal(relPath, _) => relPath
    case _ => []
  }

  function BlockDeps(ss: seq<Statement>): seq<string>
    decreases ss, 0
  {
    if ss == [] then [] else StmtDeps(ss[0]) + BlockDeps(ss[1..])
  }

  lemma {:induction false} BlockDepsContain(ss: seq<Statement>, s: Statement, name: string)
    requires s in ss && name in StmtDeps(s)
    ensures name in BlockDeps(ss)
  {
    if ss[0] != s { BlockDepsContain(ss[1..], s, name); }
  }

  function Children(s: Statement): Option<seq<Statement>> {
    match s
    case Type(_, _, _, fields, _) => Some(fields)
    case Impl(_, _, _, methods) => Some(methods)
    case _ => None
  }

  /** A container refers to everything its fields or methods refer to. */
  lemma ContainerDependsOnChildrensNames(s: Statement, child: Statement, name: string)
    requires Children(s).Some? && child in Children(s).value && name in StmtDeps(child)
    ensures name in StmtDeps(s)
  {
    BlockDepsContain(Children(s).value, child, name);
  }

  /** The shared list the walkers push into. */
  class Collector {
    var deps: seq<string>

    constructor ()
      ensures deps == []
    {
      deps := [];
    }

    method Push(name: string)
      modifies this
      ensures deps == old(deps) + [name]
    {
      deps := deps + [name];
    }

    method PushAll(names: seq<string>)
      modifies this
      ensures deps == old(deps) + names
    {
      deps := deps + names;
    }

    method CollectParams(params: seq<Param>)
      modifies this
      ensures deps == old(deps) + ParamDeps(params)
    {
      for i := 0 to |params|
        invariant deps + ParamDeps(params[i..]) == old(deps) + ParamDeps(params)
      {
        PushAll(TypeDeps(params[i].ty));
        assert params[i..][1..] == params[i + 1..];
      }
    }

    method CollectExpressions(es: seq<Expression>)
      modifies this
      ensures deps == old(deps) + ExprsDeps(es)
      decreases es, 0
    {
      for i := 0 to |es|
        invariant deps + ExprsDeps(es[i..]) == old(deps) + ExprsDeps(es)
      {
        CollectExpression(es[i]);
        assert es[i..][1..] == es[i + 1..];
      }
    }

    method CollectBlock(ss: seq<Statement>)
      modifies this
      ensures deps == old(deps) + BlockDeps(ss)
      decreases ss, 0
    {
      for i := 0 to |ss|
        invariant deps + BlockDeps(ss[i..]) == old(deps) + BlockDeps(ss)
      {
        CollectStatement(ss[i]);
        assert ss[i..][1..] == ss[i + 1..];
      }
    }

    method CollectExprArms(arms: seq<ExprArm>)
      modifies this
      ensures deps == old(deps) + ExprArmsDeps(arms)
      decreases arms, 0
    {
      for i := 0 to |arms|
        invariant deps + ExprArmsDeps(arms[i..]) == old(deps) + ExprArmsDeps(arms)
      {
        CollectExprArm(arms[i]);
        assert arms[i..][1..] == arms[i + 1..];
      }
    }

    method CollectStmtArms(arms: seq<StmtArm>)
      modifies this
      ensures deps == old(deps) + StmtArmsDeps(arms)
      decreases arms, 0
    {
      for i := 0 to |arms|
        invariant deps + StmtArmsDeps(arms[i..]) == old(deps) + StmtArmsDeps(arms)
      {
        CollectStmtArm(arms[i]);
        assert arms[i..][1..] == arms[i + 1..];
      }
    }

    method CollectExprArm(arm: ExprArm)
      modifies this
      ensures deps == old(deps) + ExprArmDeps(arm)
      decreases arm, 0
    {
      var ExprArm(pattern, result) := arm;
      CollectExpression(pattern);
      CollectExpression(result);
    }

    method CollectStmtArm(arm: StmtArm)
      modifies this
      ensures deps == old(deps) + StmtArmDeps(arm)
      decreases arm, 0
    {
      var StmtArm(pattern, body) := arm;
      CollectExpression(pattern);
      CollectBlock(body);
    }

    method CollectOptional(e: Option<Expression>)
      modifies this
      ensures deps == old(deps) + OptionalDeps(e)
      decreases e, 0
    {
      match e { case None => case Some(x) => CollectExpression(x); }
    }

    method CollectExpression(e: Expression)
      modifies this
      ensures deps == old(deps) + ExprDeps(e)
      decreases e, 1
    {
      hide ParamDeps, TypeDeps, BlockDeps, ExprsDeps, ExprArmsDeps, OperatorDeps, CallDeps;
      match e {
        case Literal(_) =>
        case Identifier(name, _) => Push(name);
        case Node(op, children, _) => PushAll(OperatorDeps(op)); CollectExpressions(children);
        case Call(callee, args, _, _) => PushAll(CallDeps(callee)); CollectExpressions(args);
        case Closure(params, body, ret, _) =>
          CollectParams(params); PushAll(TypeDeps(ret)); CollectBlock(body);
        case MatchExpr(subject, arms, default, _) =>
          CollectExpression(subject); CollectExprArms(arms); CollectExpression(default);
        case VariantPath(enumName, variant, _) => Push(enumName); Push(variant);
        case Variant(enumName, variant, payloads, _) =>
          Push(enumName); Push(variant); CollectExpressions(payloads);
        case Ascription(inner, _, _) => CollectExpression(inner);
        case UseMacro(inner) => CollectExpression(inner);
        case MacroCall(inner) => CollectExpression(inner);
      }
    }

    method CollectTarget(target: Target)
      modifies this
      ensures deps == old(deps) + TargetDeps(target)
      decreases target, 0
    {
      PushAll(OptionalName(BindingName(target)));
      match target {
        case Index(base, index) => CollectExpression(base); CollectExpression(index);
        case _ =>
      }
    }

    method CollectStatement(s: Statement)
      modifies this
      ensures deps == old(deps) + StmtDeps(s)
      decreases s, 2
    {
      if IsDefinition(s) { CollectDefinition(s); } else { CollectAction(s); }
    }

    method CollectIf(s: Statement)
      requires s.If?
      modifies this
      ensures deps == old(deps) + StmtDeps(s)
      decreases s, 0
    {
      CollectExpression(s.condition);
      CollectBlock(s.thenBranch);
      match s.elseBranch { case NoElse => case Else(b) => CollectBlock(b); }
    }

    method CollectLoop(s: Statement)
      requires s.While? || s.For? || s.Find?
      modifies this
      ensures deps == old(deps) + StmtDeps(s)
      decreases s, 0
    {
      CollectExpression(if s.While? then s.condition else s.iterable);
      CollectBlock(s.body);
    }

    method CollectImpl(s: Statement)
      requires s.Impl?
      modifies this
      ensures deps == old(deps) + StmtDeps(s)
      decreases s, 0
    {
      Push(s.typeName);
      PushAll(OptionalName(s.traitName));
      CollectBlock(s.methods);
    }

    method CollectExtern(s: Statement)
      requires s.ExternFunction?
      modifies this
      ensures deps == old(deps) + StmtDeps(s)
      decreases s, 0
    {
      Push(s.libName);
      CollectParams(s.params);
      PushAll(TypeDeps(s.ret));
    }

    method CollectMatch(s: Statement)
      requires s.Match?
      modifies this
      ensures deps == old(deps) + StmtDeps(s)
      decreases s, 0
    {
      CollectExpression(s.subject);
      CollectStmtArms(s.arms);
      CollectBlock(s.default);
    }

    method CollectDefinition(s: Statement)
      requires IsDefinition(s)
      modifies this
      ensures deps == old(deps) + StmtDeps(s)
      decreases s, 1
    {
      hide ParamDeps, BlockDeps, OptionalDeps, VariantDeps;
      match s {
        case Let(_, _, init, _, _, _) => CollectOptional(init);
        case Function(_, _, params, body, _, _, _) => CollectParams(params); CollectBlock(body);
        case Type(_, _, _, fields, _) => CollectBlock(fields);
        case Enum(_, variants, _) => PushAll(VariantDeps(variants));
        case Impl(_, _, _, _) => CollectImpl(s);
        case ExternFunction(_, _, _, _, _) => CollectExtern(s);
        case Load(path, _, items) =>
          PushAll(path);
          if items.Some? { PushAll(items.value); }
        case LoadLocal(relPath, _) => PushAll(relPath);
      }
    }

    method CollectAction(s: Statement)
      requires !IsDefinition(s)
      modifies this
      ensures deps == old(deps) + StmtDeps(s)
      decreases s, 1
    {
      hide ExprDeps, BlockDeps, TargetDeps, OptionalDeps;
      match s {
        case Assignment(target, value) => CollectTarget(target); CollectExpression(value);
        case Return(result) => CollectOptional(result);
        case If(_, _, _) => CollectIf(s);
        case While(_, _) => CollectLoop(s);
        case For(_, _, _, _) => CollectLoop(s);
        case Find(_, _, _) => CollectLoop(s);
        case ExprStmt(expr) => CollectExpression(expr);
        case Match(_, _, _) => CollectMatch(s);
        case Unsafe(body) => CollectBlock(body);
        case Drop(value) => CollectExpression(value);
        case Move(moved, value) => Push(moved); CollectExpression(value);
        case _ =>
      }
    }
  }

  // ---- the names a statement binds, at any depth

  function ExprBinds(e: Expression): set<string>
    decreases e, 1
  {
    match e
    case Node(_, children, _) => ExprsBind(children)
    case Call(_, args, _, _) => ExprsBind(args)
    case Closure(params, body, _, _) => ParamNames(params) + BlockBinds(body)
    case MatchExpr(_, arms, default, _) => ExprArmsBind(arms) + ExprBinds(default)
    case Variant(_, _, payloads, _) => ExprsBind(payloads)
    case Ascription(inner, _, _) => ExprBinds(inner)
    case UseMacro(inner) => ExprBinds(inner)
    case MacroCall(inner) => ExprBinds(inner)
    case _ => {}
  }

  function ExprsBind(es: seq<Expression>): set<string>
    decreases es, 0
  {
    if es == [] then {} else ExprBinds(es[0]) + ExprsBind(es[1..])
  }

  function ExprArmsBind(arms: seq<ExprArm>): set<string>
    decreases arms, 0
  {
    if arms == [] then {}
    else ExprArmBinds(arms[0]) + ExprArmsBind(arms[1..])
  }

  function ExprArmBinds(arm: ExprArm): set<string>
    decreases arm, 0
  {
    var ExprArm(_, result) := arm;
    ExprBinds(result)
  }

  function StmtArmsBind(arms: seq<StmtArm>): set<string>
    decreases arms, 0
  {
    if arms == [] then {}
    else StmtArmBinds(arms[0]) + StmtArmsBind(arms[1..])
  }

  function StmtArmBinds(arm: StmtArm): set<string>
    decreases arm, 0
  {
    var StmtArm(_, body) := arm;
    BlockBinds(body)
  }

  function StmtBinds(s: Statement): set<string>
    decreases s, 1
  {
    match s
    case Let(name, _, _, _, _, _) => {name}
    case Move(moved, _) => {moved}
    case Function(_, _, params, body, _, _, _) => ParamNames(params) + BlockBinds(body)
    case For(variable, counter, _, body) =>
      {variable} + (if counter.Some? then {counter.value} else {}) + BlockBinds(body)
    case Find(variable, _, body) => {variable} + BlockBinds(body)
    case If(_, thenBranch, elseBranch) =>
      BlockBinds(thenBranch) + (match elseBranch case NoElse => {} case Else(b) => BlockBinds(b))
    case While(_, body) => BlockBinds(body)
    case Match(_, arms, default) => StmtArmsBind(arms) + BlockBinds(default)
    case Unsafe(body) => BlockBinds(body)
    case Type(_, _, _, fields, _) => BlockBinds(fields)
    case Impl(_, _, _, methods) => BlockBinds(methods)
    case Return(Some(expr)) => ExprBinds(expr)
    case ExprStmt(expr) => ExprBinds(expr)
    case Drop(value) => ExprBinds(value)
    case _ => {}
  }

  function BlockBinds(ss: seq<Statement>): set<string>
    decreases ss, 0
  {
    if ss == [] then {} else StmtBinds(ss[0]) + BlockBinds(ss[1..])
  }

  predicate IsDefinition(s: Statement) {
    s.Let? || s.Function? || s.Type? || s.Enum? || s.Impl? || s.ExternFunction? || s.Load? || s.LoadLocal?
  }
}
