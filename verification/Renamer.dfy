/**
  The module renamer: every reference to an exported symbol of a loaded module is
  rewritten to carry the module's prefix, unless a local binding shadows it.
*/
module Renamer {
  import opened Wrappers
  import opened Ast
  import opened Text

  // The source passes a stack of name sets around.  That stack is created with one
  // set, is always cloned whole and never pushed to, so it is modelled as that one
  // set, `scope`.

  datatype ModuleRenamer = ModuleRenamer(prefix: string, symbols: set<string>)

  predicate ShouldPrefix(m: ModuleRenamer, name: string, scope: set<string>) {
    name in m.symbols && name !in scope && '.' !in name
  }

  function RenameName(m: ModuleRenamer, name: string, scope: set<string>): string {
    if ShouldPrefix(m, name, scope) then m.prefix + "." + name else name
  }

  function RenameDecl(m: ModuleRenamer, name: string, scope: set<string>, top: bool): string {
    if top then RenameName(m, name, scope) else name
  }

  function RenameExtern(m: ModuleRenamer, name: string, scope: set<string>, top: bool, lib: string): string {
    if lib == "c" then name else RenameDecl(m, name, scope, top)
  }

  function RenameType(m: ModuleRenamer, t: DataType, scope: set<string>): DataType {
    match t
    case StructNamed(name) => StructNamed(RenameName(m, name, scope))
    case EnumNamed(name) => EnumNamed(RenameName(m, name, scope))
    case DynTrait(name) => DynTrait(RenameName(m, name, scope))
    case Vector(e) => Vector(RenameType(m, e, scope))
    case Slice(e) => Slice(RenameType(m, e, scope))
    case Array(e, size) => Array(RenameType(m, e, scope), size)
    case Maybe(e) => Maybe(RenameType(m, e, scope))
    case Ref(e) => Ref(RenameType(m, e, scope))
    case RefMut(e) => RefMut(RenameType(m, e, scope))
    case ResultOf(ok, err) => ResultOf(RenameType(m, ok, scope), RenameType(m, err, scope))
    case MapOf(k, v) => MapOf(RenameType(m, k, scope), RenameType(m, v, scope))
    case _ => t
  }

  function RenameTypes(m: ModuleRenamer, ts: seq<DataType>, scope: set<string>): (r: seq<DataType>)
    ensures |r| == |ts|
  {
    seq(|ts|, i requires 0 <= i < |ts| => RenameType(m, ts[i], scope))
  }

  function RenameParams(m: ModuleRenamer, ps: seq<Param>, scope: set<string>): (r: seq<Param>)
    ensures |r| == |ps|
  {
    seq(|ps|, i requires 0 <= i < |ps| => Param(ps[i].name, RenameType(m, ps[i].ty, scope)))
  }

  function RenameOptionalName(m: ModuleRenamer, name: Option<string>, scope: set<string>): Option<string> {
    if name.Some? then Some(RenameName(m, name.value, scope)) else None
  }

  function RenameVariant(m: ModuleRenamer, v: EnumVariantDef, enumName: string, scope: set<string>): EnumVariantDef {
    EnumVariantDef(enumName, v.variant, RenameTypes(m, v.types, scope))
  }

  function RenameVariants(m: ModuleRenamer, vs: seq<EnumVariantDef>, enumName: string, scope: set<string>)
    : (r: seq<EnumVariantDef>)
    ensures |r| == |vs|
  {
    seq(|vs|, i requires 0 <= i < |vs| => RenameVariant(m, vs[i], enumName, scope))
  }

  /** The two callee names that encode guarded and alternative match patterns. */
  predicate IsPatternCall(callee: string) {
    callee == "__match_guard" || callee == "__match_or"
  }

  function PatternBindings(pattern: Expression): set<string> {
    match pattern
    case Variant(_, _, payloads, _) =>
      set p | p in payloads && p.Identifier? :: p.name
    case Call(callee, args, _, _) =>
      if IsPatternCall(callee) && args != [] then PatternBindings(args[0]) else {}
    case _ => {}
  }

  function StatementBindings(s: Statement): set<string> {
    match s
    case Let(name, _, _, _, _, _) => {name}
    case Function(name, _, _, _, _, _, _) => {name}
    case Type(name, _, _, _, _) => {name}
    case Module(name) => {name}
    case Enum(name, _, _) => {name}
    case ExternFunction(name, _, _, _, _) => {name}
    case For(variable, counter, _, _) => {variable} + CounterName(counter)
    case Find(variable, _, _) => {variable}
    case Move(moved, _) => {moved}
    case _ => {}
  }

  function CounterName(counter: Option<string>): set<string> {
    if counter.Some? then {counter.value} else {}
  }

  function TypeParamNames(ts: seq<string>): set<string> {
    set t | t in ts
  }

  function RenameExpr(m: ModuleRenamer, e: Expression, scope: set<string>): Expression
    decreases e, 1
  {
    match e
    case Literal(_) => e
    case Identifier(name, ty) => Identifier(RenameName(m, name, scope), RenameType(m, ty, scope))
    case Node(op, children, types) =>
      Node(op, RenameExprs(m, children, scope), RenameTypes(m, types, scope))
    case Call(callee, args, typeArgs, ty) =>
      Call(RenameName(m, callee, scope), RenameExprs(m, args, scope),
           RenameTypes(m, typeArgs, scope), RenameType(m, ty, scope))
    case Closure(params, body, ret, captures) =>
      Closure(RenameParams(m, params, scope), RenameBlock(m, body, scope + ParamNames(params)),
              RenameType(m, ret, scope), captures)
    case MatchExpr(subject, arms, default, ty) =>
      MatchExpr(RenameExpr(m, subject, scope), RenameExprArms(m, arms, scope),
                RenameExpr(m, default, scope), RenameType(m, ty, scope))
    case VariantPath(enumName, variant, ty) =>
      VariantPath(RenameName(m, enumName, scope), variant, RenameType(m, ty, scope))
    case Variant(enumName, variant, payloads, ty) =>
      Variant(RenameName(m, enumName, scope), variant, RenameExprs(m, payloads, scope), RenameType(m, ty, scope))
    case Ascription(_, _, _) => e
    case UseMacro(_) => e
    case MacroCall(_) => e
  }

  function RenameExprs(m: ModuleRenamer, es: seq<Expression>, scope: set<string>): (r: seq<Expression>)
    ensures |r| == |es|
    decreases es, 0
  {
    seq(|es|, i requires 0 <= i < |es| => RenameExpr(m, es[i], scope))
  }

  function RenameExprArms(m: ModuleRenamer, arms: seq<ExprArm>, scope: set<string>): (r: seq<ExprArm>)
    ensures |r| == |arms|
    decreases arms, 0
  {
    seq(|arms|, i requires 0 <= i < |arms| =>
      RenameExprArm(m, arms[i], scope))
  }

  function RenameExprArm(m: ModuleRenamer, arm: ExprArm, scope: set<string>): ExprArm
    decreases arm, 0
  {
    var ExprArm(pattern, result) := arm;
    var renamed := RenamePattern(m, pattern, scope);
    ExprArm(renamed, RenameExpr(m, result, scope + PatternBindings(renamed)))
  }

  function RenamePattern(m: ModuleRenamer, pattern: Expression, scope: set<string>): Expression
    decreases pattern, 2
  {
    match pattern
    case Variant(enumName, variant, payloads, ty) =>
      Variant(RenameName(m, enumName, scope), variant, RenamePayloads(m, payloads, scope), ty)
    case VariantPath(enumName, variant, ty) =>
      VariantPath(RenameName(m, enumName, scope), variant, ty)
    case Call(callee, args, typeArgs, ty) =>
      if IsPatternCall(callee) then
        Call(callee, seq(|args|, i requires 0 <= i < |args| => RenamePattern(m, args[i], scope)),
             RenameTypes(m, typeArgs, scope), ty)
      else RenameExpr(m, pattern, scope)
    case _ => RenameExpr(m, pattern, scope)
  }

  function RenamePayloads(m: ModuleRenamer, payloads: seq<Expression>, scope: set<string>): (r: seq<Expression>)
    ensures |r| == |payloads|
    decreases payloads, 0
  {
    seq(|payloads|, i requires 0 <= i < |payloads| =>
      if payloads[i].Identifier? then payloads[i] else RenameExpr(m, payloads[i], scope))
  }

  function RenameTarget(m: ModuleRenamer, target: Target, scope: set<string>): Target
    decreases target, 0
  {
    match target
    case Variable(name) => Variable(RenameName(m, name, scope))
    case Field(path) => Field(RenameFieldPath(m, path, scope))
    case Index(base, index) => Index(RenameExpr(m, base, scope), RenameExpr(m, index, scope))
    case Deref(base) => Deref(RenameExpr(m, base, scope))
  }

  function RenameFieldPath(m: ModuleRenamer, path: string, scope: set<string>): string {
    RenameName(m, Root(path), scope) + path[|Root(path)|..]
  }

  function RenameOptionalExpr(m: ModuleRenamer, e: Option<Expression>, scope: set<string>): Option<Expression>
    decreases e, 0
  {
    match e case None => None case Some(x) => Some(RenameExpr(m, x, scope))
  }

  function RenameStmtArms(m: ModuleRenamer, arms: seq<StmtArm>, scope: set<string>): (r: seq<StmtArm>)
    ensures |r| == |arms|
    decreases arms, 0
  {
    seq(|arms|, i requires 0 <= i < |arms| =>
      RenameStmtArm(m, arms[i], scope))
  }

  function RenameStmtArm(m: ModuleRenamer, arm: StmtArm, scope: set<string>): StmtArm
    decreases arm, 0
  {
    var StmtArm(pattern, body) := arm;
    var renamed := RenamePattern(m, pattern, scope);
    StmtArm(renamed, RenameBlock(m, body, scope + PatternBindings(renamed)))
  }

  function RenameStmt(m: ModuleRenamer, s: Statement, scope: set<string>, top: bool): Statement
    decreases s, 0
  {
    match s
    case Let(name, ty, init, vis, isConstant, isStatic) =>
      Let(RenameDecl(m, name, scope, top), RenameType(m, ty, scope), RenameOptionalExpr(m, init, scope),
          vis, isConstant, isStatic)
    case Assignment(target, value) =>
      Assignment(RenameTarget(m, target, scope), RenameExpr(m, value, scope))
    case Function(name, typeParams, params, body, ret, vis, isMethod) =>
      Function(RenameDecl(m, name, scope, top), typeParams, RenameParams(m, params, scope),
               RenameBlock(m, body, scope + TypeParamNames(typeParams) + ParamNames(params)),
               RenameType(m, ret, scope), vis, isMethod)
    case Return(result) => Return(RenameOptionalExpr(m, result, scope))
    case If(condition, thenBranch, elseBranch) =>
      If(RenameExpr(m, condition, scope), RenameBlock(m, thenBranch, scope),
         match elseBranch case NoElse => NoElse case Else(b) => Else(RenameBlock(m, b, scope)))
    case While(condition, body) =>
      While(RenameExpr(m, condition, scope), RenameBlock(m, body, scope))
    case For(variable, counter, iterable, body) =>
      For(variable, counter, RenameExpr(m, iterable, scope),
          RenameBlock(m, body, scope + ({variable} + CounterName(counter))))
    case Find(variable, iterable, body) =>
      Find(variable, RenameExpr(m, iterable, scope), RenameBlock(m, body, scope + {variable}))
    case ExprStmt(expr) => ExprStmt(RenameExpr(m, expr, scope))
    case Break => Break
    case Continue => Continue
    case Match(subject, arms, default) =>
      Match(RenameExpr(m, subject, scope), RenameStmtArms(m, arms, scope), RenameBlock(m, default, scope))
    case Type(name, typeParams, parent, fields, vis) =>
      Type(RenameDecl(m, name, scope, top), typeParams, RenameOptionalName(m, parent, scope),
           RenameBlock(m, fields, scope + TypeParamNames(typeParams)), vis)
    case Enum(name, variants, vis) =>
      var renamed := RenameDecl(m, name, scope, top);
      Enum(renamed, RenameVariants(m, variants, renamed, scope), vis)
    case Impl(traitName, typeName, typeParams, methods) =>
      Impl(RenameOptionalName(m, traitName, scope), RenameName(m, typeName, scope), typeParams,
           RenameBlock(m, methods, scope + TypeParamNames(typeParams)))
    case Unsafe(body) => Unsafe(RenameBlock(m, body, scope))
    case Drop(value) => Drop(RenameExpr(m, value, scope))
    case Move(moved, value) => Move(RenameDecl(m, moved, scope, top), RenameExpr(m, value, scope))
    case ExternFunction(name, lib, params, ret, vis) =>
      ExternFunction(RenameExtern(m, name, scope, top, lib), lib, RenameParams(m, params, scope),
                     RenameType(m, ret, scope), vis)
    case Module(name) => Module(RenameDecl(m, name, scope, top))
    case Load(_, _, _) => s
    case LoadLocal(_, _) => s
  }

  /** A block is renamed left to right; each statement's bindings shadow what follows. */
  function RenameBlock(m: ModuleRenamer, ss: seq<Statement>, scope: set<string>): (r: seq<Statement>)
    ensures |r| == |ss|
    decreases ss, 0
  {
    if ss == [] then []
    else
      var head := RenameStmt(m, ss[0], scope, false);
      [head] + RenameBlock(m, ss[1..], scope + StatementBindings(head))
  }

  /** The loop the source runs over a block, extending its own copy of the scope. */
  method RenameStatementBlock(m: ModuleRenamer, ss: seq<Statement>, outer: set<string>)
    returns (renamed: seq<Statement>, scope: set<string>)
    ensures renamed == RenameBlock(m, ss, outer)
  {
    hide RenameStmt, StatementBindings;
    renamed, scope := [], outer;
    for i := 0 to |ss|
      invariant RenameBlock(m, ss, outer) == renamed + RenameBlock(m, ss[i..], scope)
    {
      var statement := RenameStmt(m, ss[i], scope, false);
      renamed := renamed + [statement];
      scope := scope + StatementBindings(statement);
      assert ss[i..][0] == ss[i] && ss[i..][1..] == ss[i + 1..];
    }
  }

  // ---- loading: statements of several files, each renamed under its own file's prefix

  datatype Expanded = Expanded(statement: Statement, origin: string)

  /** What the files sharing the prefix `prefix` export. */
  function ExportedUnder(statements: seq<Expanded>, prefixOf: string -> string, prefix: string): set<string> {
    set e | e in statements && prefixOf(e.origin) == prefix && ExportName(e.statement).Some?
      :: ExportName(e.statement).value
  }

  /** `prefixOf` gives the prefix of a file; the empty prefix leaves a statement alone. */
  function RenameLoaded(e: Expanded, statements: seq<Expanded>, prefixOf: string -> string): Expanded {
    var prefix := prefixOf(e.origin);
    if prefix == "" then e
    else Expanded(RenameStmt(ModuleRenamer(prefix, ExportedUnder(statements, prefixOf, prefix)), e.statement, {}, true),
                  e.origin)
  }

  method PrefixLoaded(statements: seq<Expanded>, prefixOf: string -> string) returns (r: seq<Expanded>)
    ensures |r| == |statements|
    ensures forall i | 0 <= i < |r| :: r[i] == RenameLoaded(statements[i], statements, prefixOf)
  {
    var symbols: map<string, set<string>> := map[];
    for i := 0 to |statements|
      invariant forall p :: (if p in symbols then symbols[p] else {}) == ExportedUnder(statements[..i], prefixOf, p)
    {
      var prefix := prefixOf(statements[i].origin);
      var name := ExportName(statements[i].statement);
      if name.Some? {
        symbols := symbols[prefix := (if prefix in symbols then symbols[prefix] else {}) + {name.value}];
      }
      assert statements[..i + 1] == statements[..i] + [statements[i]];
      forall p ensures (if p in symbols then symbols[p] else {}) == ExportedUnder(statements[..i + 1], prefixOf, p) {
        assert ExportedUnder(statements[..i + 1], prefixOf, p) == ExportedUnder(statements[..i], prefixOf, p) +
               ExportedUnder([statements[i]], prefixOf, p);
      }
    }
    assert statements[..|statements|] == statements;
    r := [];
    for i := 0 to |statements|
      invariant |r| == i
      invariant forall k | 0 <= k < i :: r[k] == RenameLoaded(statements[k], statements, prefixOf)
    {
      var e := statements[i];
      var prefix := prefixOf(e.origin);
      if prefix != "" {
        var m := ModuleRenamer(prefix, if prefix in symbols then symbols[prefix] else {});
        e := Expanded(RenameStmt(m, e.statement, {}, true), e.origin);
      }
      r := r + [e];
    }
  }
}
