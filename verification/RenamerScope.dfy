/**
  The renamer looks at a scope only through the module's own dotless symbols.
*/
module RenamerScope {
  import opened Wrappers
  import opened Ast
  import opened Renamer

  /** Both scopes shadow the same module symbols. */
  ghost predicate SameShadow(m: ModuleRenamer, s: set<string>, t: set<string>) {
    forall name :: name in m.symbols && '.' !in name ==> (name in s <==> name in t)
  }

  lemma {:induction false} TypeScope(m: ModuleRenamer, d: DataType, s: set<string>, t: set<string>)
    requires SameShadow(m, s, t)
    ensures RenameType(m, d, s) == RenameType(m, d, t)
  {
    match d
    case ResultOf(x, y) => TypeScope(m, x, s, t); TypeScope(m, y, s, t);
    case MapOf(x, y) => TypeScope(m, x, s, t); TypeScope(m, y, s, t);
    case Vector(e) => TypeScope(m, e, s, t);
    case Slice(e) => TypeScope(m, e, s, t);
    case Array(e, _) => TypeScope(m, e, s, t);
    case Maybe(e) => TypeScope(m, e, s, t);
    case Ref(e) => TypeScope(m, e, s, t);
    case RefMut(e) => TypeScope(m, e, s, t);
    case _ =>
  }

  lemma {:induction false} TypesScope(m: ModuleRenamer, ds: seq<DataType>, s: set<string>, t: set<string>)
    requires SameShadow(m, s, t)
    ensures RenameTypes(m, ds, s) == RenameTypes(m, ds, t)
  {
    forall i | 0 <= i < |ds| ensures RenameType(m, ds[i], s) == RenameType(m, ds[i], t) {
      TypeScope(m, ds[i], s, t);
    }
  }

  lemma {:induction false} ParamsScope(m: ModuleRenamer, ps: seq<Param>, s: set<string>, t: set<string>)
    requires SameShadow(m, s, t)
    ensures RenameParams(m, ps, s) == RenameParams(m, ps, t)
  {
    forall i | 0 <= i < |ps| ensures RenameType(m, ps[i].ty, s) == RenameType(m, ps[i].ty, t) {
      TypeScope(m, ps[i].ty, s, t);
    }
  }

  lemma {:induction false} ExprScope(m: ModuleRenamer, e: Expression, s: set<string>, t: set<string>)
    requires SameShadow(m, s, t)
    ensures RenameExpr(m, e, s) == RenameExpr(m, e, t)
    decreases e, 1
  {
    match e
    case Identifier(_, ty) => TypeScope(m, ty, s, t);
    case Node(_, children, types) => ExprsScope(m, children, s, t); TypesScope(m, types, s, t);
    case Call(_, args, typeArgs, ty) =>
      ExprsScope(m, args, s, t); TypesScope(m, typeArgs, s, t); TypeScope(m, ty, s, t);
    case Closure(params, body, ret, _) =>
      ParamsScope(m, params, s, t); TypeScope(m, ret, s, t);
      BlockScope(m, body, s + ParamNames(params), t + ParamNames(params));
    case MatchExpr(subject, arms, default, ty) =>
      ExprScope(m, subject, s, t); ExprScope(m, default, s, t); TypeScope(m, ty, s, t);
      forall i | 0 <= i < |arms| ensures RenameExprArm(m, arms[i], s) == RenameExprArm(m, arms[i], t) {
        ExprArmScope(m, arms[i], s, t);
      }
    case VariantPath(_, _, ty) => TypeScope(m, ty, s, t);
    case Variant(_, _, payloads, ty) => ExprsScope(m, payloads, s, t); TypeScope(m, ty, s, t);
    case _ =>
  }

  lemma {:induction false} ExprsScope(m: ModuleRenamer, es: seq<Expression>, s: set<string>, t: set<string>)
    requires SameShadow(m, s, t)
    ensures RenameExprs(m, es, s) == RenameExprs(m, es, t)
    decreases es, 0
  {
    forall i | 0 <= i < |es| ensures RenameExpr(m, es[i], s) == RenameExpr(m, es[i], t) {
      ExprScope(m, es[i], s, t);
    }
  }

  lemma {:induction false} ExprArmScope(m: ModuleRenamer, arm: ExprArm, s: set<string>, t: set<string>)
    requires SameShadow(m, s, t)
    ensures RenameExprArm(m, arm, s) == RenameExprArm(m, arm, t)
    decreases arm, 0
  {
    var ExprArm(pattern, result) := arm;
    PatternScope(m, pattern, s, t);
    var bound := PatternBindings(RenamePattern(m, pattern, s));
    ExprScope(m, result, s + bound, t + bound);
  }

  lemma {:induction false} PatternScope(m: ModuleRenamer, p: Expression, s: set<string>, t: set<string>)
    requires SameShadow(m, s, t)
    ensures RenamePattern(m, p, s) == RenamePattern(m, p, t)
    decreases p, 2
  {
    match p
    case Variant(_, _, payloads, _) =>
      forall i | 0 <= i < |payloads| ensures RenameExpr(m, payloads[i], s) == RenameExpr(m, payloads[i], t) {
        ExprScope(m, payloads[i], s, t);
      }
    case VariantPath(_, _, _) =>
    case Call(callee, args, typeArgs, _) =>
      if IsPatternCall(callee) {
        forall i | 0 <= i < |args| ensures RenamePattern(m, args[i], s) == RenamePattern(m, args[i], t) {
          PatternScope(m, args[i], s, t);
        }
        TypesScope(m, typeArgs, s, t);
      } else {
        ExprScope(m, p, s, t);
      }
    case _ => ExprScope(m, p, s, t);
  }

  lemma {:induction false} OptionalScope(m: ModuleRenamer, e: Option<Expression>, s: set<string>, t: set<string>)
    requires SameShadow(m, s, t)
    ensures RenameOptionalExpr(m, e, s) == RenameOptionalExpr(m, e, t)
    decreases e, 0
  {
    match e case None => case Some(x) => ExprScope(m, x, s, t);
  }

  lemma {:induction false} TargetScope(m: ModuleRenamer, target: Target, s: set<string>, t: set<string>)
    requires SameShadow(m, s, t)
    ensures RenameTarget(m, target, s) == RenameTarget(m, target, t)
    decreases target, 0
  {
    match target
    case Index(base, index) => ExprScope(m, base, s, t); ExprScope(m, index, s, t);
    case Deref(base) => ExprScope(m, base, s, t);
    case _ =>
  }

  lemma {:induction false} StmtArmScope(m: ModuleRenamer, arm: StmtArm, s: set<string>, t: set<string>)
    requires SameShadow(m, s, t)
    ensures RenameStmtArm(m, arm, s) == RenameStmtArm(m, arm, t)
    decreases arm, 0
  {
    var StmtArm(pattern, body) := arm;
    PatternScope(m, pattern, s, t);
    var bound := PatternBindings(RenamePattern(m, pattern, s));
    BlockScope(m, body, s + bound, t + bound);
  }

  lemma {:induction false} VariantsScope(m: ModuleRenamer, vs: seq<EnumVariantDef>, name: string,
                                         s: set<string>, t: set<string>)
    requires SameShadow(m, s, t)
    ensures RenameVariants(m, vs, name, s) == RenameVariants(m, vs, name, t)
  {
    forall i | 0 <= i < |vs| ensures RenameTypes(m, vs[i].types, s) == RenameTypes(m, vs[i].types, t) {
      TypesScope(m, vs[i].types, s, t);
    }
  }

  predicate IsNamedItem(x: Statement) {
    x.Let? || x.Function? || x.Type? || x.Enum? || x.Impl? || x.ExternFunction?
  }

  lemma {:induction false} StmtScope(m: ModuleRenamer, x: Statement, s: set<string>, t: set<string>, top: bool)
    requires SameShadow(m, s, t)
    ensures RenameStmt(m, x, s, top) == RenameStmt(m, x, t, top)
    decreases x, 1
  {
    if IsNamedItem(x) { DefinitionScope(m, x, s, t, top); } else { ActionScope(m, x, s, t, top); }
  }

  lemma {:induction false} DefinitionScope(m: ModuleRenamer, x: Statement, s: set<string>, t: set<string>, top: bool)
    requires SameShadow(m, s, t) && IsNamedItem(x)
    ensures RenameStmt(m, x, s, top) == RenameStmt(m, x, t, top)
    decreases x, 0
  {
    hide RenameType, RenameTypes, RenameExpr, RenameBlock, RenameParams, RenameVariants, RenameOptionalExpr;
    match x
    case Let(_, ty, init, _, _, _) => TypeScope(m, ty, s, t); OptionalScope(m, init, s, t);
    case Function(_, typeParams, params, body, ret, _, _) =>
      ParamsScope(m, params, s, t); TypeScope(m, ret, s, t);
      var bound := TypeParamNames(typeParams);
      BlockScope(m, body, s + bound + ParamNames(params), t + bound + ParamNames(params));
    case Type(_, typeParams, _, fields, _) =>
      BlockScope(m, fields, s + TypeParamNames(typeParams), t + TypeParamNames(typeParams));
    case Enum(name, variants, _) => VariantsScope(m, variants, RenameDecl(m, name, s, top), s, t);
    case Impl(_, _, typeParams, methods) =>
      BlockScope(m, methods, s + TypeParamNames(typeParams), t + TypeParamNames(typeParams));
    case ExternFunction(_, _, params, ret, _) => ParamsScope(m, params, s, t); TypeScope(m, ret, s, t);
  }

  lemma {:induction false} ActionScope(m: ModuleRenamer, x: Statement, s: set<string>, t: set<string>, top: bool)
    requires SameShadow(m, s, t) && !IsNamedItem(x)
    ensures RenameStmt(m, x, s, top) == RenameStmt(m, x, t, top)
    decreases x, 0
  {
    hide RenameExpr, RenameBlock, RenameOptionalExpr, RenameTarget, RenameStmtArm;
    match x
    case Assignment(target, value) => TargetScope(m, target, s, t); ExprScope(m, value, s, t);
    case Return(result) => OptionalScope(m, result, s, t);
    case If(condition, thenBranch, elseBranch) =>
      ExprScope(m, condition, s, t); BlockScope(m, thenBranch, s, t);
      match elseBranch { case NoElse => case Else(b) => BlockScope(m, b, s, t); }
    case While(condition, body) => ExprScope(m, condition, s, t); BlockScope(m, body, s, t);
    case For(variable, counter, iterable, body) =>
      ExprScope(m, iterable, s, t);
      BlockScope(m, body, s + ({variable} + CounterName(counter)), t + ({variable} + CounterName(counter)));
    case Find(variable, iterable, body) =>
      ExprScope(m, iterable, s, t); BlockScope(m, body, s + {variable}, t + {variable});
    case ExprStmt(expr) => ExprScope(m, expr, s, t);
    case Match(subject, arms, default) =>
      ExprScope(m, subject, s, t); BlockScope(m, default, s, t);
      forall i | 0 <= i < |arms| ensures RenameStmtArm(m, arms[i], s) == RenameStmtArm(m, arms[i], t) {
        StmtArmScope(m, arms[i], s, t);
      }
    case Unsafe(body) => BlockScope(m, body, s, t);
    case Drop(value) => ExprScope(m, value, s, t);
    case Move(_, value) => ExprScope(m, value, s, t);
    case _ =>
  }

  lemma {:induction false} BlockScope(m: ModuleRenamer, ss: seq<Statement>, s: set<string>, t: set<string>)
    requires SameShadow(m, s, t)
    ensures RenameBlock(m, ss, s) == RenameBlock(m, ss, t)
    decreases ss, 0
  {
    if ss != [] {
      StmtScope(m, ss[0], s, t, false);
      var bound := StatementBindings(RenameStmt(m, ss[0], s, false));
      BlockScope(m, ss[1..], s + bound, t + bound);
    }
  }
}
