/**
  Renaming a renamed module again changes nothing, but for assignments to a field path.
*/
module RenamerTwice {
  import opened Wrappers
  import opened Ast
  import opened Text
  import opened Renamer

  // A prefixed name contains a '.', so it is never prefixed twice; but of a field path the
  // root is looked at alone.  That is stable exactly when the first segment of the prefix is
  // not itself a symbol of the module.

  // ---- trees without assignments to a field path

  predicate FieldFreeExpr(e: Expression)
    decreases e, 1
  {
    match e
    case Node(_, children, _) => FieldFreeExprs(children)
    case Call(_, args, _, _) => FieldFreeExprs(args)
    case Closure(_, body, _, _) => FieldFreeBlock(body)
    case MatchExpr(subject, arms, default, _) =>
      FieldFreeExpr(subject) && FieldFreeExpr(default) &&
      forall i | 0 <= i < |arms| :: FieldFreeExprArm(arms[i])
    case Variant(_, _, payloads, _) => FieldFreeExprs(payloads)
    case _ => true
  }

  predicate FieldFreeExprs(es: seq<Expression>)
    decreases es, 0
  {
    forall i | 0 <= i < |es| :: FieldFreeExpr(es[i])
  }

  predicate FieldFreeExprArm(arm: ExprArm)
    decreases arm, 0
  {
    var ExprArm(pattern, result) := arm;
    FieldFreeExpr(pattern) && FieldFreeExpr(result)
  }

  predicate FieldFreeStmtArm(arm: StmtArm)
    decreases arm, 0
  {
    var StmtArm(pattern, body) := arm;
    FieldFreeExpr(pattern) && FieldFreeBlock(body)
  }

  predicate FieldFreeOptional(e: Option<Expression>)
    decreases e, 0
  {
    match e case None => true case Some(x) => FieldFreeExpr(x)
  }

  predicate FieldFreeStmt(s: Statement)
    decreases s, 0
  {
    match s
    case Let(_, _, init, _, _, _) => FieldFreeOptional(init)
    case Assignment(target, value) => FieldFreeExpr(value) && FieldFreeTarget(target)
    case Function(_, _, _, body, _, _, _) => FieldFreeBlock(body)
    case Return(result) => FieldFreeOptional(result)
    case If(condition, thenBranch, elseBranch) =>
      FieldFreeExpr(condition) && FieldFreeBlock(thenBranch) &&
      (match elseBranch case NoElse => true case Else(b) => FieldFreeBlock(b))
    case While(condition, body) => FieldFreeExpr(condition) && FieldFreeBlock(body)
    case For(_, _, iterable, body) => FieldFreeExpr(iterable) && FieldFreeBlock(body)
    case Find(_, iterable, body) => FieldFreeExpr(iterable) && FieldFreeBlock(body)
    case ExprStmt(expr) => FieldFreeExpr(expr)
    case Match(subject, arms, default) =>
      FieldFreeExpr(subject) && FieldFreeBlock(default) &&
      forall i | 0 <= i < |arms| :: FieldFreeStmtArm(arms[i])
    case Type(_, _, _, fields, _) => FieldFreeBlock(fields)
    case Impl(_, _, _, methods) => FieldFreeBlock(methods)
    case Unsafe(body) => FieldFreeBlock(body)
    case Drop(value) => FieldFreeExpr(value)
    case Move(_, value) => FieldFreeExpr(value)
    case _ => true
  }

  predicate FieldFreeTarget(target: Target)
    decreases target, 0
  {
    match target
    case Variable(_) => true
    case Field(_) => false
    case Index(base, index) => FieldFreeExpr(base) && FieldFreeExpr(index)
    case Deref(base) => FieldFreeExpr(base)
  }

  predicate FieldFreeBlock(ss: seq<Statement>)
    decreases ss, 0
  {
    ss == [] || (FieldFreeStmt(ss[0]) && FieldFreeBlock(ss[1..]))
  }

  /** The prefix cannot be taken for a module symbol when it becomes the root of a field path. */
  predicate StablePrefix(m: ModuleRenamer) {
    Root(m.prefix) !in m.symbols
  }

  // ---- names and paths

  lemma NameTwice(m: ModuleRenamer, name: string, scope: set<string>)
    ensures RenameName(m, RenameName(m, name, scope), scope) == RenameName(m, name, scope)
  {
    if ShouldPrefix(m, name, scope) {
      assert (m.prefix + "." + name)[|m.prefix|] == '.';
    }
  }

  lemma {:induction false} RootOfDotted(a: string, b: string)
    ensures Root(a + "." + b) == Root(a)
  {
    if a == "" || a[0] == '.' {
      assert (a + "." + b)[0] == '.';
    } else {
      RootOfDotted(a[1..], b);
      assert (a + "." + b)[1..] == a[1..] + "." + b;
    }
  }

  /** Renaming a field path once more changes it exactly when its root was prefixed
      and the prefix starts with an unshadowed module symbol. */
  lemma FieldPathTwice(m: ModuleRenamer, path: string, scope: set<string>)
    ensures var once := RenameFieldPath(m, path, scope);
      RenameFieldPath(m, once, scope) == once
      <==> !(ShouldPrefix(m, Root(path), scope) && ShouldPrefix(m, Root(m.prefix), scope))
  {
    var root := Root(path);
    var once := RenameFieldPath(m, path, scope);
    if ShouldPrefix(m, root, scope) {
      var rest := path[|root|..];
      assert once == m.prefix + "." + (root + rest);
      RootOfDotted(m.prefix, root + rest);
      if ShouldPrefix(m, Root(m.prefix), scope) {
        assert |RenameFieldPath(m, once, scope)| > |once|;
      } else {
        assert RenameFieldPath(m, once, scope) == once;
      }
    } else {
      assert once == path;
    }
  }

  /** When the prefix is not stable, one assignment to a field shows it. */
  lemma UnstablePrefixIsRenamedTwice(m: ModuleRenamer, field: string, value: Expression)
    requires !StablePrefix(m)
    ensures var s := Assignment(Field(Root(m.prefix) + "." + field), value);
      var once := RenameStmt(m, s, {}, true);
      RenameStmt(m, once, {}, true) != once
  {
    var path := Root(m.prefix) + "." + field;
    RootOfDotted(Root(m.prefix), field);
    RootOfDotless(Root(m.prefix));
    FieldPathTwice(m, path, {});
  }

  lemma {:induction false} RootOfDotless(a: string)
    requires '.' !in a
    ensures Root(a) == a
  {
    if a != "" { RootOfDotless(a[1..]); }
  }

  // ---- trees

  lemma {:induction false} TypeTwice(m: ModuleRenamer, d: DataType, s: set<string>)
    ensures RenameType(m, RenameType(m, d, s), s) == RenameType(m, d, s)
  {
    match d
    case StructNamed(name) => NameTwice(m, name, s);
    case EnumNamed(name) => NameTwice(m, name, s);
    case DynTrait(name) => NameTwice(m, name, s);
    case ResultOf(x, y) => TypeTwice(m, x, s); TypeTwice(m, y, s);
    case MapOf(x, y) => TypeTwice(m, x, s); TypeTwice(m, y, s);
    case Vector(e) => TypeTwice(m, e, s);
    case Slice(e) => TypeTwice(m, e, s);
    case Array(e, _) => TypeTwice(m, e, s);
    case Maybe(e) => TypeTwice(m, e, s);
    case Ref(e) => TypeTwice(m, e, s);
    case RefMut(e) => TypeTwice(m, e, s);
    case _ =>
  }

  lemma {:induction false} TypesTwice(m: ModuleRenamer, ds: seq<DataType>, s: set<string>)
    ensures RenameTypes(m, RenameTypes(m, ds, s), s) == RenameTypes(m, ds, s)
  {
    forall i | 0 <= i < |ds| ensures RenameType(m, RenameType(m, ds[i], s), s) == RenameType(m, ds[i], s) {
      TypeTwice(m, ds[i], s);
    }
  }

  lemma {:induction false} ParamsTwice(m: ModuleRenamer, ps: seq<Param>, s: set<string>)
    ensures RenameParams(m, RenameParams(m, ps, s), s) == RenameParams(m, ps, s)
    ensures ParamNames(RenameParams(m, ps, s)) == ParamNames(ps)
  {
    var r := RenameParams(m, ps, s);
    forall i | 0 <= i < |ps| ensures RenameType(m, r[i].ty, s) == r[i].ty {
      TypeTwice(m, ps[i].ty, s);
    }
    forall p | p in ps ensures p.name in ParamNames(r) {
      var i :| 0 <= i < |ps| && ps[i] == p;
      assert r[i].name == p.name;
    }
  }

  lemma {:induction false} ExprTwice(m: ModuleRenamer, e: Expression, s: set<string>)
    requires StablePrefix(m) || FieldFreeExpr(e)
    ensures RenameExpr(m, RenameExpr(m, e, s), s) == RenameExpr(m, e, s)
    decreases e, 1
  {
    match e
    case Identifier(name, ty) => NameTwice(m, name, s); TypeTwice(m, ty, s);
    case Node(_, children, types) => ExprsTwice(m, children, s); TypesTwice(m, types, s);
    case Call(callee, args, typeArgs, ty) =>
      NameTwice(m, callee, s); ExprsTwice(m, args, s); TypesTwice(m, typeArgs, s); TypeTwice(m, ty, s);
    case Closure(params, body, ret, _) =>
      ParamsTwice(m, params, s); TypeTwice(m, ret, s);
      BlockTwice(m, body, s + ParamNames(params));
    case MatchExpr(subject, arms, default, ty) =>
      ExprTwice(m, subject, s); ExprTwice(m, default, s); TypeTwice(m, ty, s); ExprArmsTwice(m, arms, s);
    case VariantPath(enumName, _, ty) => NameTwice(m, enumName, s); TypeTwice(m, ty, s);
    case Variant(enumName, _, payloads, ty) =>
      NameTwice(m, enumName, s); ExprsTwice(m, payloads, s); TypeTwice(m, ty, s);
    case _ =>
  }

  lemma {:induction false} ExprsTwice(m: ModuleRenamer, es: seq<Expression>, s: set<string>)
    requires StablePrefix(m) || FieldFreeExprs(es)
    ensures RenameExprs(m, RenameExprs(m, es, s), s) == RenameExprs(m, es, s)
    decreases es, 0
  {
    forall i | 0 <= i < |es| ensures RenameExpr(m, RenameExpr(m, es[i], s), s) == RenameExpr(m, es[i], s) {
      ExprTwice(m, es[i], s);
    }
  }

  lemma {:induction false} ExprArmsTwice(m: ModuleRenamer, arms: seq<ExprArm>, s: set<string>)
    requires StablePrefix(m) || forall i | 0 <= i < |arms| :: FieldFreeExprArm(arms[i])
    ensures RenameExprArms(m, RenameExprArms(m, arms, s), s) == RenameExprArms(m, arms, s)
    decreases arms, 0
  {
    var r := RenameExprArms(m, arms, s);
    forall i | 0 <= i < |arms| ensures RenameExprArm(m, r[i], s) == r[i] {
      ExprArmTwice(m, arms[i], s);
    }
  }

  lemma {:induction false} ExprArmTwice(m: ModuleRenamer, arm: ExprArm, s: set<string>)
    requires StablePrefix(m) || FieldFreeExprArm(arm)
    ensures RenameExprArm(m, RenameExprArm(m, arm, s), s) == RenameExprArm(m, arm, s)
    decreases arm, 0
  {
    var ExprArm(pattern, result) := arm;
    PatternTwice(m, pattern, s);
    ExprTwice(m, result, s + PatternBindings(RenamePattern(m, pattern, s)));
  }

  lemma {:induction false} PatternTwice(m: ModuleRenamer, p: Expression, s: set<string>)
    requires StablePrefix(m) || FieldFreeExpr(p)
    ensures RenamePattern(m, RenamePattern(m, p, s), s) == RenamePattern(m, p, s)
    decreases p, 2
  {
    match p
    case Variant(enumName, _, payloads, _) => NameTwice(m, enumName, s); PayloadsTwice(m, payloads, s);
    case VariantPath(enumName, _, _) => NameTwice(m, enumName, s);
    case Call(callee, args, typeArgs, _) =>
      if IsPatternCall(callee) {
        forall i | 0 <= i < |args|
          ensures RenamePattern(m, RenamePattern(m, args[i], s), s) == RenamePattern(m, args[i], s)
        {
          PatternTwice(m, args[i], s);
        }
        TypesTwice(m, typeArgs, s);
      } else {
        PrefixedIsNoPatternCall(m, callee, s);
        ExprTwice(m, p, s);
      }
    case _ => ExprTwice(m, p, s);
  }

  lemma PrefixedIsNoPatternCall(m: ModuleRenamer, callee: string, s: set<string>)
    requires !IsPatternCall(callee)
    ensures !IsPatternCall(RenameName(m, callee, s))
  {
    if ShouldPrefix(m, callee, s) {
      assert (m.prefix + "." + callee)[|m.prefix|] == '.';
      assert '.' !in "__match_guard" && '.' !in "__match_or";
    }
  }

  lemma {:induction false} PayloadsTwice(m: ModuleRenamer, ps: seq<Expression>, s: set<string>)
    requires StablePrefix(m) || FieldFreeExprs(ps)
    ensures RenamePayloads(m, RenamePayloads(m, ps, s), s) == RenamePayloads(m, ps, s)
    decreases ps, 0
  {
    var r := RenamePayloads(m, ps, s);
    forall i | 0 <= i < |ps| && !ps[i].Identifier? ensures RenameExpr(m, r[i], s) == r[i] {
      ExprTwice(m, ps[i], s);
    }
  }

  lemma {:induction false} OptionalTwice(m: ModuleRenamer, e: Option<Expression>, s: set<string>)
    requires StablePrefix(m) || FieldFreeOptional(e)
    ensures RenameOptionalExpr(m, RenameOptionalExpr(m, e, s), s) == RenameOptionalExpr(m, e, s)
    decreases e, 0
  {
    match e case None => case Some(x) => ExprTwice(m, x, s);
  }

  lemma {:induction false} TargetTwice(m: ModuleRenamer, target: Target, s: set<string>)
    requires StablePrefix(m) || FieldFreeTarget(target)
    ensures RenameTarget(m, RenameTarget(m, target, s), s) == RenameTarget(m, target, s)
    decreases target, 0
  {
    match target
    case Variable(name) => NameTwice(m, name, s);
    case Field(path) => FieldPathTwice(m, path, s);
    case Index(base, index) => ExprTwice(m, base, s); ExprTwice(m, index, s);
    case Deref(base) => ExprTwice(m, base, s);
  }

  lemma {:induction false} StmtArmsTwice(m: ModuleRenamer, arms: seq<StmtArm>, s: set<string>)
    requires StablePrefix(m) || forall i | 0 <= i < |arms| :: FieldFreeStmtArm(arms[i])
    ensures RenameStmtArms(m, RenameStmtArms(m, arms, s), s) == RenameStmtArms(m, arms, s)
    decreases arms, 0
  {
    var r := RenameStmtArms(m, arms, s);
    forall i | 0 <= i < |arms| ensures RenameStmtArm(m, r[i], s) == r[i] {
      StmtArmTwice(m, arms[i], s);
    }
  }

  lemma {:induction false} StmtArmTwice(m: ModuleRenamer, arm: StmtArm, s: set<string>)
    requires StablePrefix(m) || FieldFreeStmtArm(arm)
    ensures RenameStmtArm(m, RenameStmtArm(m, arm, s), s) == RenameStmtArm(m, arm, s)
    decreases arm, 0
  {
    var StmtArm(pattern, body) := arm;
    PatternTwice(m, pattern, s);
    BlockTwice(m, body, s + PatternBindings(RenamePattern(m, pattern, s)));
  }

  lemma {:induction false} VariantsTwice(m: ModuleRenamer, vs: seq<EnumVariantDef>, name: string, s: set<string>)
    ensures RenameVariants(m, RenameVariants(m, vs, name, s), name, s) == RenameVariants(m, vs, name, s)
  {
    var r := RenameVariants(m, vs, name, s);
    forall i | 0 <= i < |vs| ensures RenameTypes(m, r[i].types, s) == r[i].types {
      TypesTwice(m, vs[i].types, s);
    }
  }

  lemma OptionalNameTwice(m: ModuleRenamer, name: Option<string>, s: set<string>)
    ensures RenameOptionalName(m, RenameOptionalName(m, name, s), s) == RenameOptionalName(m, name, s)
  {
    if name.Some? { NameTwice(m, name.value, s); }
  }

  /** Renaming a statement twice is renaming it once. */
  lemma {:induction false} StmtTwice(m: ModuleRenamer, x: Statement, s: set<string>, top: bool)
    requires StablePrefix(m) || FieldFreeStmt(x)
    ensures RenameStmt(m, RenameStmt(m, x, s, top), s, top) == RenameStmt(m, x, s, top)
    decreases x, 1
  {
    if x.Let? || x.Function? || x.Type? || x.Enum? || x.Impl? || x.ExternFunction? || x.Module? {
      DefinitionTwice(m, x, s, top);
    } else {
      ActionTwice(m, x, s, top);
    }
  }

  lemma {:induction false} DefinitionTwice(m: ModuleRenamer, x: Statement, s: set<string>, top: bool)
    requires x.Let? || x.Function? || x.Type? || x.Enum? || x.Impl? || x.ExternFunction? || x.Module?
    requires StablePrefix(m) || FieldFreeStmt(x)
    ensures RenameStmt(m, RenameStmt(m, x, s, top), s, top) == RenameStmt(m, x, s, top)
    decreases x, 0
  {
    hide RenameType, RenameTypes, RenameExpr, RenameBlock, RenameParams, RenameVariants, RenameOptionalExpr,
         RenameOptionalName, FieldFreeBlock;
    match x
    case Let(name, ty, init, _, _, _) => NameTwice(m, name, s); TypeTwice(m, ty, s); OptionalTwice(m, init, s);
    case Function(name, typeParams, params, body, ret, _, _) =>
      NameTwice(m, name, s); ParamsTwice(m, params, s); TypeTwice(m, ret, s);
      BlockTwice(m, body, s + TypeParamNames(typeParams) + ParamNames(params));
    case Type(name, typeParams, parent, fields, _) =>
      NameTwice(m, name, s); OptionalNameTwice(m, parent, s);
      BlockTwice(m, fields, s + TypeParamNames(typeParams));
    case Enum(name, variants, _) =>
      NameTwice(m, name, s); VariantsTwice(m, variants, RenameDecl(m, name, s, top), s);
    case Impl(traitName, typeName, typeParams, methods) =>
      OptionalNameTwice(m, traitName, s); NameTwice(m, typeName, s);
      BlockTwice(m, methods, s + TypeParamNames(typeParams));
    case ExternFunction(name, _, params, ret, _) =>
      NameTwice(m, name, s); ParamsTwice(m, params, s); TypeTwice(m, ret, s);
    case Module(name) => NameTwice(m, name, s);
  }

  lemma {:induction false} ActionTwice(m: ModuleRenamer, x: Statement, s: set<string>, top: bool)
    requires !(x.Let? || x.Function? || x.Type? || x.Enum? || x.Impl? || x.ExternFunction? || x.Module?)
    requires StablePrefix(m) || FieldFreeStmt(x)
    ensures RenameStmt(m, RenameStmt(m, x, s, top), s, top) == RenameStmt(m, x, s, top)
    decreases x, 0
  {
    hide RenameType, RenameTypes, RenameExpr, RenameBlock, RenameTarget, RenameStmtArms, RenameOptionalExpr,
         FieldFreeExpr, FieldFreeBlock, FieldFreeTarget;
    match x
    case Assignment(target, value) => TargetTwice(m, target, s); ExprTwice(m, value, s);
    case Return(result) => OptionalTwice(m, result, s);
    case If(condition, thenBranch, elseBranch) =>
      ExprTwice(m, condition, s); BlockTwice(m, thenBranch, s);
      match elseBranch { case NoElse => case Else(b) => BlockTwice(m, b, s); }
    case While(condition, body) => ExprTwice(m, condition, s); BlockTwice(m, body, s);
    case For(variable, counter, iterable, body) =>
      ExprTwice(m, iterable, s); BlockTwice(m, body, s + ({variable} + CounterName(counter)));
    case Find(variable, iterable, body) =>
      ExprTwice(m, iterable, s); BlockTwice(m, body, s + {variable});
    case ExprStmt(expr) => ExprTwice(m, expr, s);
    case Match(subject, arms, default) =>
      ExprTwice(m, subject, s); BlockTwice(m, default, s); StmtArmsTwice(m, arms, s);
    case Unsafe(body) => BlockTwice(m, body, s);
    case Drop(value) => ExprTwice(m, value, s);
    case Move(moved, value) => NameTwice(m, moved, s); ExprTwice(m, value, s);
    case _ =>
  }

  lemma {:induction false} BlockTwice(m: ModuleRenamer, ss: seq<Statement>, s: set<string>)
    requires StablePrefix(m) || FieldFreeBlock(ss)
    ensures RenameBlock(m, RenameBlock(m, ss, s), s) == RenameBlock(m, ss, s)
    decreases ss, 0
  {
    if ss != [] {
      StmtTwice(m, ss[0], s, false);
      var head := RenameStmt(m, ss[0], s, false);
      BlockTwice(m, ss[1..], s + StatementBindings(head));
      var r := RenameBlock(m, ss, s);
      assert r[0] == head && r[1..] == RenameBlock(m, ss[1..], s + StatementBindings(head));
    }
  }
}
