/** The words of a renamed tree: which of them change, and that no other does. */
module RenamerTokens {
  import opened Wrappers
  import opened Ast
  import opened Text
  import opened Renamer

  /** What a token holds besides names.  The nodes that are kept verbatim are one token. */
  datatype Data =
    | Tag(tag: string)
    | Size(size: nat)
    | Flags(flags: seq<bool>)
    | Shown(visibility: Visibility)
    | Done(op: Operator)
    | Worth(scalar: Scalar)
    | Words(names: seq<string>)
    | Params(params: seq<Param>)
    | Kind(ty: DataType)
    | Tree(tree: Expression)
    | Import(load: Statement)

  /** A name, with what follows it in the same word; it `moves` when it refers to what the
      module may export: it is no binder, is not shadowed, and stands in no verbatim node. */
  datatype Token =
    | Name(name: string, rest: string, moves: bool)
    | Mark(data: Data)

  datatype Plain = Word(text: string) | Sign(data: Data)

  // ---- the text of a tree

  function Reference(name: string, scope: set<string>): Token { Name(name, "", name !in scope) }

  function Binder(name: string): Token { Name(name, "", false) }

  function TypeText(t: DataType, scope: set<string>): seq<Token> {
    match t
    case StructNamed(name) => [Mark(Tag("struct")), Reference(name, scope)]
    case EnumNamed(name) => [Mark(Tag("enum")), Reference(name, scope)]
    case DynTrait(name) => [Mark(Tag("dyn")), Reference(name, scope)]
    case Vector(e) => [Mark(Tag("vector"))] + TypeText(e, scope)
    case Slice(e) => [Mark(Tag("slice"))] + TypeText(e, scope)
    case Array(e, size) => [Mark(Tag("array")), Mark(Size(size))] + TypeText(e, scope)
    case Maybe(e) => [Mark(Tag("maybe"))] + TypeText(e, scope)
    case Ref(e) => [Mark(Tag("ref"))] + TypeText(e, scope)
    case RefMut(e) => [Mark(Tag("mut"))] + TypeText(e, scope)
    case ResultOf(ok, err) => [Mark(Tag("result"))] + TypeText(ok, scope) + TypeText(err, scope)
    case MapOf(k, v) => [Mark(Tag("map"))] + TypeText(k, scope) + TypeText(v, scope)
    case _ => [Mark(Kind(t))]
  }

  function TypesText(ts: seq<DataType>, scope: set<string>): seq<Token> {
    if ts == [] then [Mark(Tag("end"))] else TypeText(ts[0], scope) + TypesText(ts[1..], scope)
  }

  function ParamsText(ps: seq<Param>, scope: set<string>): seq<Token> {
    if ps == [] then [Mark(Tag("end"))]
    else [Binder(ps[0].name)] + TypeText(ps[0].ty, scope) + ParamsText(ps[1..], scope)
  }

  function OptionalNameText(name: Option<string>, scope: set<string>): seq<Token> {
    match name case Some(n) => [Mark(Tag("some")), Reference(n, scope)] case None => [Mark(Tag("none"))]
  }

  function OptionalBinder(name: Option<string>): seq<Token> {
    match name case Some(n) => [Mark(Tag("some")), Binder(n)] case None => [Mark(Tag("none"))]
  }

  /** Calls that spell a guarded pattern or a choice of patterns. */
  predicate SpellsPattern(callee: string) { callee in {"__match_guard", "__match_or"} }

  function BoundByPayloads(payloads: seq<Expression>): set<string> {
    if payloads == [] then {}
    else (if payloads[0].Identifier? then {payloads[0].name} else {}) + BoundByPayloads(payloads[1..])
  }

  function BoundByPattern(pattern: Expression): set<string> {
    if pattern.Variant? then BoundByPayloads(pattern.payloads)
    else if pattern.Call? && SpellsPattern(pattern.callee) && pattern.args != [] then BoundByPattern(pattern.args[0])
    else {}
  }

  function ExprText(e: Expression, scope: set<string>): seq<Token>
    decreases e, 1
  {
    match e
    case Literal(value) => [Mark(Worth(value))]
    case Identifier(name, ty) => [Mark(Tag("identifier")), Reference(name, scope)] + TypeText(ty, scope)
    case Node(op, children, types) => [Mark(Done(op))] + ExprsText(children, scope) + TypesText(types, scope)
    case Call(callee, args, typeArgs, ty) =>
      [Mark(Tag("call")), Reference(callee, scope)] + ExprsText(args, scope) + TypesText(typeArgs, scope) + TypeText(ty, scope)
    case Closure(params, body, ret, captures) =>
      [Mark(Tag("closure")), Mark(Params(captures))] + ParamsText(params, scope) + TypeText(ret, scope) +
      BlockText(body, scope + ParamNames(params))
    case MatchExpr(subject, arms, default, ty) =>
      [Mark(Tag("match"))] + ExprText(subject, scope) + ExprArmsText(arms, scope) + ExprText(default, scope) +
      TypeText(ty, scope)
    case VariantPath(enumName, variant, ty) =>
      [Mark(Tag("path")), Reference(enumName, scope), Mark(Tag(variant))] + TypeText(ty, scope)
    case Variant(enumName, variant, payloads, ty) =>
      [Mark(Tag("variant")), Reference(enumName, scope), Mark(Tag(variant))] + ExprsText(payloads, scope) + TypeText(ty, scope)
    case Ascription(_, _, _) => [Mark(Tree(e))]
    case UseMacro(_) => [Mark(Tree(e))]
    case MacroCall(_) => [Mark(Tree(e))]
  }

  function ExprsText(es: seq<Expression>, scope: set<string>): seq<Token>
    decreases es, 0
  {
    if es == [] then [Mark(Tag("end"))] else ExprText(es[0], scope) + ExprsText(es[1..], scope)
  }

  function PatternText(pattern: Expression, scope: set<string>): seq<Token>
    decreases pattern, 2
  {
    match pattern
    case Variant(enumName, variant, payloads, ty) =>
      [Mark(Tag("variant")), Reference(enumName, scope), Mark(Tag(variant))] + PayloadsText(payloads, scope) + [Mark(Kind(ty))]
    case VariantPath(enumName, variant, ty) =>
      [Mark(Tag("path")), Reference(enumName, scope), Mark(Tag(variant)), Mark(Kind(ty))]
    case Call(callee, args, typeArgs, ty) =>
      if SpellsPattern(callee) then
        [Mark(Tag("pattern")), Binder(callee)] + PatternsText(args, scope) + TypesText(typeArgs, scope) + [Mark(Kind(ty))]
      else ExprText(pattern, scope)
    case _ => ExprText(pattern, scope)
  }

  function PatternsText(patterns: seq<Expression>, scope: set<string>): seq<Token>
    decreases patterns, 0
  {
    if patterns == [] then [Mark(Tag("end"))] else PatternText(patterns[0], scope) + PatternsText(patterns[1..], scope)
  }

  function PayloadsText(payloads: seq<Expression>, scope: set<string>): seq<Token>
    decreases payloads, 0
  {
    if payloads == [] then [Mark(Tag("end"))]
    else
      (match payloads[0]
       case Identifier(name, ty) => [Binder(name), Mark(Kind(ty))]
       case _ => ExprText(payloads[0], scope)) + PayloadsText(payloads[1..], scope)
  }

  function ExprArmsText(arms: seq<ExprArm>, scope: set<string>): seq<Token>
    decreases arms, 1
  {
    if arms == [] then [Mark(Tag("end"))] else ExprArmText(arms[0], scope) + ExprArmsText(arms[1..], scope)
  }

  function ExprArmText(arm: ExprArm, scope: set<string>): seq<Token>
    decreases arm, 0
  {
    var ExprArm(pattern, result) := arm;
    PatternText(pattern, scope) + ExprText(result, scope + BoundByPattern(pattern))
  }

  function StmtArmsText(arms: seq<StmtArm>, scope: set<string>): seq<Token>
    decreases arms, 1
  {
    if arms == [] then [Mark(Tag("end"))] else StmtArmText(arms[0], scope) + StmtArmsText(arms[1..], scope)
  }

  function StmtArmText(arm: StmtArm, scope: set<string>): seq<Token>
    decreases arm, 0
  {
    var StmtArm(pattern, body) := arm;
    PatternText(pattern, scope) + BlockText(body, scope + BoundByPattern(pattern))
  }

  function OptionalText(e: Option<Expression>, scope: set<string>): seq<Token>
    decreases e, 0
  {
    match e case Some(x) => [Mark(Tag("some"))] + ExprText(x, scope) case None => [Mark(Tag("none"))]
  }

  /** Of a field path only the root is a reference. */
  function TargetText(target: Target, scope: set<string>): seq<Token>
    decreases target, 0
  {
    match target
    case Variable(name) => [Mark(Tag("variable")), Reference(name, scope)]
    case Field(path) => [Mark(Tag("field")), Name(Root(path), path[|Root(path)|..], Root(path) !in scope)]
    case Index(base, index) => [Mark(Tag("index"))] + ExprText(base, scope) + ExprText(index, scope)
    case Deref(base) => [Mark(Tag("deref"))] + ExprText(base, scope)
  }

  function VariantsText(vs: seq<EnumVariantDef>, scope: set<string>): seq<Token> {
    if vs == [] then [Mark(Tag("end"))]
    else [Mark(Tag(vs[0].variant))] + TypesText(vs[0].types, scope) + VariantsText(vs[1..], scope)
  }

  /** What a statement leaves in scope for the statements after it.  A loop's names stay. */
  function LeftInScope(s: Statement): set<string> {
    if s.Let? || s.Function? || s.Type? || s.Module? || s.Enum? || s.ExternFunction? then {s.name}
    else if s.For? then {s.variable} + (match s.counter case Some(n) => {n} case None => {})
    else if s.Find? then {s.variable}
    else if s.Move? then {s.moved}
    else {}
  }

  /** The name that a statement declares moves when it stands at the top of a file. */
  function Declared(name: string, scope: set<string>, top: bool): Token { Name(name, "", top && name !in scope) }

  function StmtText(s: Statement, scope: set<string>, top: bool): seq<Token>
    decreases s, 0
  {
    match s
    case Let(name, ty, init, vis, isConstant, isStatic) =>
      [Mark(Tag("let")), Mark(Shown(vis)), Mark(Flags([isConstant, isStatic])), Declared(name, scope, top)] +
      TypeText(ty, scope) + OptionalText(init, scope)
    case Assignment(target, value) => [Mark(Tag("assign"))] + TargetText(target, scope) + ExprText(value, scope)
    case Function(name, typeParams, params, body, ret, vis, isMethod) =>
      [Mark(Tag("fn")), Mark(Shown(vis)), Mark(Flags([isMethod])), Mark(Words(typeParams)), Declared(name, scope, top)] +
      ParamsText(params, scope) + TypeText(ret, scope) +
      BlockText(body, scope + (set t | t in typeParams) + ParamNames(params))
    case Return(result) => [Mark(Tag("return"))] + OptionalText(result, scope)
    case If(condition, thenBranch, elseBranch) =>
      [Mark(Tag("if"))] + ExprText(condition, scope) + BlockText(thenBranch, scope) +
      (match elseBranch case NoElse => [Mark(Tag("none"))] case Else(b) => [Mark(Tag("else"))] + BlockText(b, scope))
    case While(condition, body) => [Mark(Tag("while"))] + ExprText(condition, scope) + BlockText(body, scope)
    case For(variable, counter, iterable, body) =>
      [Mark(Tag("for")), Binder(variable)] + OptionalBinder(counter) + ExprText(iterable, scope) +
      BlockText(body, scope + LeftInScope(s))
    case Find(variable, iterable, body) =>
      [Mark(Tag("find")), Binder(variable)] + ExprText(iterable, scope) + BlockText(body, scope + {variable})
    case ExprStmt(expr) => [Mark(Tag("expr"))] + ExprText(expr, scope)
    case Break => [Mark(Tag("break"))]
    case Continue => [Mark(Tag("continue"))]
    case Match(subject, arms, default) =>
      [Mark(Tag("match"))] + ExprText(subject, scope) + StmtArmsText(arms, scope) + BlockText(default, scope)
    case Type(name, typeParams, parent, fields, vis) =>
      [Mark(Tag("type")), Mark(Shown(vis)), Mark(Words(typeParams)), Declared(name, scope, top)] +
      OptionalNameText(parent, scope) + BlockText(fields, scope + set t | t in typeParams)
    case Enum(name, variants, vis) =>
      [Mark(Tag("enum")), Mark(Shown(vis)), Declared(name, scope, top)] + VariantsText(variants, scope)
    case Impl(traitName, typeName, typeParams, methods) =>
      [Mark(Tag("impl")), Mark(Words(typeParams)), Reference(typeName, scope)] + OptionalNameText(traitName, scope) +
      BlockText(methods, scope + set t | t in typeParams)
    case Unsafe(body) => [Mark(Tag("unsafe"))] + BlockText(body, scope)
    case Drop(value) => [Mark(Tag("drop"))] + ExprText(value, scope)
    case Move(moved, value) => [Mark(Tag("move")), Declared(moved, scope, top)] + ExprText(value, scope)
    case ExternFunction(name, lib, params, ret, vis) =>
      [Mark(Tag("extern")), Mark(Shown(vis)), Mark(Tag(lib)), Declared(name, scope, top && lib != "c")] +
      ParamsText(params, scope) + TypeText(ret, scope)
    case Module(name) => [Mark(Tag("module")), Declared(name, scope, top)]
    case Load(_, _, _) => [Mark(Import(s))]
    case LoadLocal(_, _) => [Mark(Import(s))]
  }

  function BlockText(ss: seq<Statement>, scope: set<string>): seq<Token>
    decreases ss, 0
  {
    if ss == [] then [Mark(Tag("end"))]
    else StmtText(ss[0], scope, false) + BlockText(ss[1..], scope + LeftInScope(ss[0]))
  }

  // ---- what becomes of it

  function Spelled(t: Token): Plain {
    match t case Name(name, rest, _) => Word(name + rest) case Mark(data) => Sign(data)
  }

  /** A reference to an export of the module gets the module's prefix. */
  function Prefixed(m: ModuleRenamer, t: Token): Plain {
    match t
    case Name(name, rest, moves) =>
      Word((if moves && name in m.symbols && '.' !in name then m.prefix + "." + name else name) + rest)
    case Mark(data) => Sign(data)
  }

  function Read(ts: seq<Token>): (r: seq<Plain>)
    ensures |r| == |ts|
  {
    seq(|ts|, i requires 0 <= i < |ts| => Spelled(ts[i]))
  }

  function Moved(m: ModuleRenamer, ts: seq<Token>): (r: seq<Plain>)
    ensures |r| == |ts|
  {
    seq(|ts|, i requires 0 <= i < |ts| => Prefixed(m, ts[i]))
  }

  /** `after` reads like `before` with its moving references prefixed. */
  predicate Becomes(m: ModuleRenamer, before: seq<Token>, after: seq<Token>) {
    Read(after) == Moved(m, before)
  }

  lemma BecomesBoth(m: ModuleRenamer, a: seq<Token>, x: seq<Token>, b: seq<Token>, y: seq<Token>)
    requires Becomes(m, a, x) && Becomes(m, b, y)
    ensures Becomes(m, a + b, x + y)
  {
    assert Read(x + y) == Read(x) + Read(y);
    assert Moved(m, a + b) == Moved(m, a) + Moved(m, b);
  }

  lemma SignsStay(m: ModuleRenamer, ts: seq<Token>)
    requires forall t | t in ts :: t.Mark? || !t.moves
    ensures Becomes(m, ts, ts)
  {
    forall i | 0 <= i < |ts| ensures Read(ts)[i] == Moved(m, ts)[i] { assert ts[i] in ts; }
  }

  lemma AfterSigns(m: ModuleRenamer, front: seq<Token>, x: seq<Token>, y: seq<Token>)
    requires (forall t | t in front :: t.Mark? || !t.moves) && Becomes(m, x, y)
    ensures Becomes(m, front + x, front + y)
  {
    hide Becomes;
    SignsStay(m, front);
    BecomesBoth(m, front, front, x, y);
  }

  lemma ReferenceMoves(m: ModuleRenamer, name: string, scope: set<string>, other: set<string>)
    ensures Becomes(m, [Reference(name, scope)], [Reference(RenameName(m, name, scope), other)])
  {
    assert forall s: string :: s + "" == s;
  }

  // ---- types

  lemma {:induction false} TypeMoves(m: ModuleRenamer, t: DataType, scope: set<string>, other: set<string>)
    ensures Becomes(m, TypeText(t, scope), TypeText(RenameType(m, t, scope), other))
  {
    hide Becomes, RenameName;
    match t
    case StructNamed(name) => NamedMoves(m, "struct", name, scope, other);
    case EnumNamed(name) => NamedMoves(m, "enum", name, scope, other);
    case DynTrait(name) => NamedMoves(m, "dyn", name, scope, other);
    case Vector(e) =>
      TypeMoves(m, e, scope, other);
      AfterSigns(m, [Mark(Tag("vector"))], TypeText(e, scope), TypeText(RenameType(m, e, scope), other));
    case Slice(e) =>
      TypeMoves(m, e, scope, other);
      AfterSigns(m, [Mark(Tag("slice"))], TypeText(e, scope), TypeText(RenameType(m, e, scope), other));
    case Array(e, size) =>
      TypeMoves(m, e, scope, other);
      AfterSigns(m, [Mark(Tag("array")), Mark(Size(size))], TypeText(e, scope), TypeText(RenameType(m, e, scope), other));
    case Maybe(e) =>
      TypeMoves(m, e, scope, other);
      AfterSigns(m, [Mark(Tag("maybe"))], TypeText(e, scope), TypeText(RenameType(m, e, scope), other));
    case Ref(e) =>
      TypeMoves(m, e, scope, other);
      AfterSigns(m, [Mark(Tag("ref"))], TypeText(e, scope), TypeText(RenameType(m, e, scope), other));
    case RefMut(e) =>
      TypeMoves(m, e, scope, other);
      AfterSigns(m, [Mark(Tag("mut"))], TypeText(e, scope), TypeText(RenameType(m, e, scope), other));
    case ResultOf(x, y) =>
      TypeMoves(m, x, scope, other);
      TypeMoves(m, y, scope, other);
      PairMoves(m, "result", x, y, scope, other);
    case MapOf(x, y) =>
      TypeMoves(m, x, scope, other);
      TypeMoves(m, y, scope, other);
      PairMoves(m, "map", x, y, scope, other);
    case _ => SignsStay(m, [Mark(Kind(t))]);
  }

  lemma NamedMoves(m: ModuleRenamer, tag: string, name: string, scope: set<string>, other: set<string>)
    ensures Becomes(m, [Mark(Tag(tag)), Reference(name, scope)],
                    [Mark(Tag(tag)), Reference(RenameName(m, name, scope), other)])
  {
    hide Becomes, RenameName;
    var x, y := Reference(name, scope), Reference(RenameName(m, name, scope), other);
    ReferenceMoves(m, name, scope, other);
    AfterSigns(m, [Mark(Tag(tag))], [x], [y]);
    assert [Mark(Tag(tag))] + [x] == [Mark(Tag(tag)), x] && [Mark(Tag(tag))] + [y] == [Mark(Tag(tag)), y];
  }

  /** A reference between two marks. */
  lemma EnumMoves(m: ModuleRenamer, tag: string, name: string, variant: string, scope: set<string>, other: set<string>)
    ensures Becomes(m, [Mark(Tag(tag)), Reference(name, scope), Mark(Tag(variant))],
                    [Mark(Tag(tag)), Reference(RenameName(m, name, scope), other), Mark(Tag(variant))])
  {
    hide Becomes, RenameName;
    var x, y, v := Reference(name, scope), Reference(RenameName(m, name, scope), other), Mark(Tag(variant));
    NamedMoves(m, tag, name, scope, other);
    SignsStay(m, [v]);
    BecomesBoth(m, [Mark(Tag(tag)), x], [Mark(Tag(tag)), y], [v], [v]);
    assert [Mark(Tag(tag)), x] + [v] == [Mark(Tag(tag)), x, v] && [Mark(Tag(tag)), y] + [v] == [Mark(Tag(tag)), y, v];
  }

  /** A declared name at the end of some marks. */
  lemma DeclaredMoves(m: ModuleRenamer, front: seq<Token>, name: string, scope: set<string>, top: bool,
                      other: set<string>, otherTop: bool)
    requires forall t | t in front :: t.Mark?
    ensures Becomes(m, front + [Declared(name, scope, top)],
                    front + [Declared(RenameDecl(m, name, scope, top), other, otherTop)])
  {
    assert forall s: string :: s + "" == s;
    var x, y := [Declared(name, scope, top)], [Declared(RenameDecl(m, name, scope, top), other, otherTop)];
    assert Becomes(m, x, y);
    AfterSigns(m, front, x, y);
  }

  lemma PairMoves(m: ModuleRenamer, tag: string, x: DataType, y: DataType, scope: set<string>, other: set<string>)
    requires Becomes(m, TypeText(x, scope), TypeText(RenameType(m, x, scope), other))
    requires Becomes(m, TypeText(y, scope), TypeText(RenameType(m, y, scope), other))
    ensures Becomes(m, [Mark(Tag(tag))] + TypeText(x, scope) + TypeText(y, scope),
                    [Mark(Tag(tag))] + TypeText(RenameType(m, x, scope), other) + TypeText(RenameType(m, y, scope), other))
  {
    hide Becomes, TypeText, RenameType;
    AfterSigns(m, [Mark(Tag(tag))], TypeText(x, scope), TypeText(RenameType(m, x, scope), other));
    BecomesBoth(m, [Mark(Tag(tag))] + TypeText(x, scope), [Mark(Tag(tag))] + TypeText(RenameType(m, x, scope), other),
                TypeText(y, scope), TypeText(RenameType(m, y, scope), other));
  }

  lemma {:induction false} TypesMove(m: ModuleRenamer, ts: seq<DataType>, scope: set<string>, other: set<string>)
    ensures Becomes(m, TypesText(ts, scope), TypesText(RenameTypes(m, ts, scope), other))
  {
    hide Becomes, TypeText, RenameType;
    if ts == [] {
      SignsStay(m, [Mark(Tag("end"))]);
    } else {
      var r := RenameTypes(m, ts, scope);
      assert r[1..] == RenameTypes(m, ts[1..], scope);
      TypeMoves(m, ts[0], scope, other);
      TypesMove(m, ts[1..], scope, other);
      BecomesBoth(m, TypeText(ts[0], scope), TypeText(r[0], other), TypesText(ts[1..], scope), TypesText(r[1..], other));
    }
  }

  lemma {:induction false} ParamsMove(m: ModuleRenamer, ps: seq<Param>, scope: set<string>, other: set<string>)
    ensures Becomes(m, ParamsText(ps, scope), ParamsText(RenameParams(m, ps, scope), other))
  {
    hide Becomes, TypeText, RenameType;
    if ps == [] {
      SignsStay(m, [Mark(Tag("end"))]);
    } else {
      var r := RenameParams(m, ps, scope);
      assert r[1..] == RenameParams(m, ps[1..], scope);
      TypeMoves(m, ps[0].ty, scope, other);
      ParamsMove(m, ps[1..], scope, other);
      AfterSigns(m, [Binder(ps[0].name)], TypeText(ps[0].ty, scope), TypeText(r[0].ty, other));
      BecomesBoth(m, [Binder(ps[0].name)] + TypeText(ps[0].ty, scope), [Binder(ps[0].name)] + TypeText(r[0].ty, other),
                  ParamsText(ps[1..], scope), ParamsText(r[1..], other));
    }
  }

  lemma OptionalNameMoves(m: ModuleRenamer, name: Option<string>, scope: set<string>, other: set<string>)
    ensures Becomes(m, OptionalNameText(name, scope), OptionalNameText(RenameOptionalName(m, name, scope), other))
  {
    hide Becomes, RenameName;
    if name.Some? { NamedMoves(m, "some", name.value, scope, other); } else { SignsStay(m, [Mark(Tag("none"))]); }
  }

  // ---- what is in scope

  lemma {:induction false} PayloadNames(payloads: seq<Expression>)
    ensures BoundByPayloads(payloads) == set p | p in payloads && p.Identifier? :: p.name
  {
    if payloads != [] {
      PayloadNames(payloads[1..]);
      assert payloads == [payloads[0]] + payloads[1..];
    }
  }

  lemma {:induction false} PatternNames(pattern: Expression)
    ensures BoundByPattern(pattern) == PatternBindings(pattern)
  {
    if pattern.Variant? { PayloadNames(pattern.payloads); }
    else if pattern.Call? && SpellsPattern(pattern.callee) && pattern.args != [] { PatternNames(pattern.args[0]); }
  }

  lemma StatementNames(s: Statement)
    ensures LeftInScope(s) == StatementBindings(s)
  {
  }

  lemma RenamedKeepsLeaves(m: ModuleRenamer, e: Expression, scope: set<string>)
    ensures RenameExpr(m, e, scope).Identifier? <==> e.Identifier?
  {
    match e case _ =>
  }

  lemma {:induction false} RenamedPayloadNames(m: ModuleRenamer, payloads: seq<Expression>, scope: set<string>)
    ensures BoundByPayloads(RenamePayloads(m, payloads, scope)) == BoundByPayloads(payloads)
  {
    hide RenameExpr;
    if payloads != [] {
      RenamedKeepsLeaves(m, payloads[0], scope);
      RenamedPayloadNames(m, payloads[1..], scope);
      assert RenamePayloads(m, payloads, scope)[1..] == RenamePayloads(m, payloads[1..], scope);
    }
  }

  lemma PrefixedSpellsNoPattern(m: ModuleRenamer, callee: string, scope: set<string>)
    ensures SpellsPattern(RenameName(m, callee, scope)) ==> RenameName(m, callee, scope) == callee
  {
    assert (m.prefix + "." + callee)[|m.prefix|] == '.';
    assert '.' in m.prefix + "." + callee;
  }

  /** Renaming a pattern keeps what it binds. */
  lemma {:induction false} RenamedPatternNames(m: ModuleRenamer, pattern: Expression, scope: set<string>)
    ensures BoundByPattern(RenamePattern(m, pattern, scope)) == BoundByPattern(pattern)
    decreases pattern
  {
    match pattern
    case Variant(_, _, payloads, _) => RenamedPayloadNames(m, payloads, scope);
    case Call(callee, args, _, _) =>
      if IsPatternCall(callee) {
        if args != [] { RenamedPatternNames(m, args[0], scope); }
      } else {
        PrefixedSpellsNoPattern(m, callee, scope);
      }
    case _ =>
  }

  // ---- expressions

  lemma {:induction false} ExprMoves(m: ModuleRenamer, e: Expression, scope: set<string>, other: set<string>)
    ensures Becomes(m, ExprText(e, scope), ExprText(RenameExpr(m, e, scope), other))
    decreases e, 1
  {
    hide Becomes, RenameName, TypeText, TypesText, ExprsText, ExprArmsText, RenameType, RenameTypes, RenameExprs,
         RenameExprArms, RenameBlock, BlockText, ParamsText, RenameParams;
    match e
    case Literal(value) => SignsStay(m, [Mark(Worth(value))]);
    case Identifier(name, ty) =>
      NamedMoves(m, "identifier", name, scope, other);
      TypeMoves(m, ty, scope, other);
      BecomesBoth(m, [Mark(Tag("identifier")), Reference(name, scope)],
                  [Mark(Tag("identifier")), Reference(RenameName(m, name, scope), other)],
                  TypeText(ty, scope), TypeText(RenameType(m, ty, scope), other));
    case Node(op, children, types) =>
      ExprsMove(m, children, scope, other);
      TypesMove(m, types, scope, other);
      AfterSigns(m, [Mark(Done(op))], ExprsText(children, scope), ExprsText(RenameExprs(m, children, scope), other));
      BecomesBoth(m, [Mark(Done(op))] + ExprsText(children, scope),
                  [Mark(Done(op))] + ExprsText(RenameExprs(m, children, scope), other),
                  TypesText(types, scope), TypesText(RenameTypes(m, types, scope), other));
    case Call(_, _, _, _) => CallMoves(m, e, scope, other);
    case Closure(_, _, _, _) => ClosureMoves(m, e, scope, other);
    case MatchExpr(_, _, _, _) => MatchExprMoves(m, e, scope, other);
    case VariantPath(enumName, variant, ty) =>
      EnumMoves(m, "path", enumName, variant, scope, other);
      TypeMoves(m, ty, scope, other);
      BecomesBoth(m, [Mark(Tag("path")), Reference(enumName, scope), Mark(Tag(variant))],
                  [Mark(Tag("path")), Reference(RenameName(m, enumName, scope), other), Mark(Tag(variant))],
                  TypeText(ty, scope), TypeText(RenameType(m, ty, scope), other));
    case Variant(enumName, variant, payloads, ty) =>
      var front := [Mark(Tag("variant")), Reference(enumName, scope), Mark(Tag(variant))];
      var front' := [Mark(Tag("variant")), Reference(RenameName(m, enumName, scope), other), Mark(Tag(variant))];
      EnumMoves(m, "variant", enumName, variant, scope, other);
      ExprsMove(m, payloads, scope, other);
      TypeMoves(m, ty, scope, other);
      BecomesBoth(m, front, front', ExprsText(payloads, scope), ExprsText(RenameExprs(m, payloads, scope), other));
      BecomesBoth(m, front + ExprsText(payloads, scope), front' + ExprsText(RenameExprs(m, payloads, scope), other),
                  TypeText(ty, scope), TypeText(RenameType(m, ty, scope), other));
    case Ascription(_, _, _) => SignsStay(m, [Mark(Tree(e))]);
    case UseMacro(_) => SignsStay(m, [Mark(Tree(e))]);
    case MacroCall(_) => SignsStay(m, [Mark(Tree(e))]);
  }

  lemma {:induction false} CallMoves(m: ModuleRenamer, e: Expression, scope: set<string>, other: set<string>)
    requires e.Call?
    ensures Becomes(m, ExprText(e, scope), ExprText(RenameExpr(m, e, scope), other))
    decreases e, 0
  {
    hide Becomes, RenameName, TypeText, TypesText, ExprsText, RenameType, RenameTypes, RenameExprs;
    var Call(callee, args, typeArgs, ty) := e;
    var a := [Mark(Tag("call")), Reference(callee, scope)];
    var x := [Mark(Tag("call")), Reference(RenameName(m, callee, scope), other)];
    var b, y := ExprsText(args, scope), ExprsText(RenameExprs(m, args, scope), other);
    var c, z := TypesText(typeArgs, scope), TypesText(RenameTypes(m, typeArgs, scope), other);
    NamedMoves(m, "call", callee, scope, other);
    ExprsMove(m, args, scope, other);
    TypesMove(m, typeArgs, scope, other);
    TypeMoves(m, ty, scope, other);
    BecomesBoth(m, a, x, b, y);
    BecomesBoth(m, a + b, x + y, c, z);
    BecomesBoth(m, a + b + c, x + y + z, TypeText(ty, scope), TypeText(RenameType(m, ty, scope), other));
  }

  lemma {:induction false} ClosureMoves(m: ModuleRenamer, e: Expression, scope: set<string>, other: set<string>)
    requires e.Closure?
    ensures Becomes(m, ExprText(e, scope), ExprText(RenameExpr(m, e, scope), other))
    decreases e, 0
  {
    hide Becomes, TypeText, ParamsText, BlockText, RenameType, RenameParams, RenameBlock;
    var Closure(params, body, ret, captures) := e;
    var params' := RenameParams(m, params, scope);
    var front := [Mark(Tag("closure")), Mark(Params(captures))];
    var a, x := ParamsText(params, scope), ParamsText(params', other);
    var b, y := TypeText(ret, scope), TypeText(RenameType(m, ret, scope), other);
    var inner := scope + ParamNames(params);
    ParamsMove(m, params, scope, other);
    TypeMoves(m, ret, scope, other);
    BlockMoves(m, body, inner, other + ParamNames(params'));
    AfterSigns(m, front, a, x);
    BecomesBoth(m, front + a, front + x, b, y);
    BecomesBoth(m, front + a + b, front + x + y, BlockText(body, inner),
                BlockText(RenameBlock(m, body, inner), other + ParamNames(params')));
  }

  lemma {:induction false} MatchExprMoves(m: ModuleRenamer, e: Expression, scope: set<string>, other: set<string>)
    requires e.MatchExpr?
    ensures Becomes(m, ExprText(e, scope), ExprText(RenameExpr(m, e, scope), other))
    decreases e, 0
  {
    hide Becomes, TypeText, ExprArmsText, RenameType, RenameExprArms;
    var MatchExpr(subject, arms, default, ty) := e;
    var front := [Mark(Tag("match"))];
    var a, x := ExprText(subject, scope), ExprText(RenameExpr(m, subject, scope), other);
    var b, y := ExprArmsText(arms, scope), ExprArmsText(RenameExprArms(m, arms, scope), other);
    var c, z := ExprText(default, scope), ExprText(RenameExpr(m, default, scope), other);
    ExprMoves(m, subject, scope, other);
    ExprArmsMove(m, arms, scope, other);
    ExprMoves(m, default, scope, other);
    TypeMoves(m, ty, scope, other);
    AfterSigns(m, front, a, x);
    BecomesBoth(m, front + a, front + x, b, y);
    BecomesBoth(m, front + a + b, front + x + y, c, z);
    BecomesBoth(m, front + a + b + c, front + x + y + z, TypeText(ty, scope), TypeText(RenameType(m, ty, scope), other));
  }

  lemma {:induction false} ExprsMove(m: ModuleRenamer, es: seq<Expression>, scope: set<string>, other: set<string>)
    ensures Becomes(m, ExprsText(es, scope), ExprsText(RenameExprs(m, es, scope), other))
    decreases es, 0
  {
    hide Becomes, ExprText, RenameExpr;
    if es == [] {
      SignsStay(m, [Mark(Tag("end"))]);
    } else {
      var r := RenameExprs(m, es, scope);
      assert r[1..] == RenameExprs(m, es[1..], scope);
      ExprMoves(m, es[0], scope, other);
      ExprsMove(m, es[1..], scope, other);
      BecomesBoth(m, ExprText(es[0], scope), ExprText(r[0], other), ExprsText(es[1..], scope), ExprsText(r[1..], other));
    }
  }

  // ---- patterns and arms

  lemma {:induction false} PatternMoves(m: ModuleRenamer, pattern: Expression, scope: set<string>, other: set<string>)
    ensures Becomes(m, PatternText(pattern, scope), PatternText(RenamePattern(m, pattern, scope), other))
    decreases pattern, 3
  {
    hide Becomes, RenameName, ExprText, RenameExpr, PayloadsText, RenamePayloads;
    match pattern
    case Variant(enumName, variant, payloads, ty) =>
      var front := [Mark(Tag("variant")), Reference(enumName, scope), Mark(Tag(variant))];
      var front' := [Mark(Tag("variant")), Reference(RenameName(m, enumName, scope), other), Mark(Tag(variant))];
      var a, x := PayloadsText(payloads, scope), PayloadsText(RenamePayloads(m, payloads, scope), other);
      EnumMoves(m, "variant", enumName, variant, scope, other);
      PayloadsMove(m, payloads, scope, other);
      SignsStay(m, [Mark(Kind(ty))]);
      BecomesBoth(m, front, front', a, x);
      BecomesBoth(m, front + a, front' + x, [Mark(Kind(ty))], [Mark(Kind(ty))]);
    case VariantPath(enumName, variant, ty) =>
      var v, k := Mark(Tag(variant)), Mark(Kind(ty));
      var a := [Mark(Tag("path")), Reference(enumName, scope), v];
      var x := [Mark(Tag("path")), Reference(RenameName(m, enumName, scope), other), v];
      EnumMoves(m, "path", enumName, variant, scope, other);
      SignsStay(m, [k]);
      BecomesBoth(m, a, x, [k], [k]);
      assert a + [k] == [a[0], a[1], v, k] && x + [k] == [x[0], x[1], v, k];
    case Call(callee, _, _, _) =>
      if SpellsPattern(callee) { PatternCallMoves(m, pattern, scope, other); }
      else { PlainPatternMoves(m, pattern, scope, other); }
    case _ => PlainPatternMoves(m, pattern, scope, other);
  }

  lemma {:induction false} PlainPatternMoves(m: ModuleRenamer, pattern: Expression, scope: set<string>, other: set<string>)
    requires !pattern.Variant? && !pattern.VariantPath? && (pattern.Call? ==> !SpellsPattern(pattern.callee))
    ensures Becomes(m, PatternText(pattern, scope), PatternText(RenamePattern(m, pattern, scope), other))
    decreases pattern, 2
  {
    hide Becomes, ExprText;
    ExprMoves(m, pattern, scope, other);
    if pattern.Call? { PrefixedSpellsNoPattern(m, pattern.callee, scope); }
  }

  lemma {:induction false} PatternCallMoves(m: ModuleRenamer, pattern: Expression, scope: set<string>, other: set<string>)
    requires pattern.Call? && SpellsPattern(pattern.callee)
    ensures Becomes(m, PatternText(pattern, scope), PatternText(RenamePattern(m, pattern, scope), other))
    decreases pattern, 1
  {
    hide Becomes, TypesText, RenameTypes, ExprText, RenameExpr;
    var Call(callee, args, typeArgs, ty) := pattern;
    var args' := seq(|args|, i requires 0 <= i < |args| => RenamePattern(m, args[i], scope));
    var front, k := [Mark(Tag("pattern")), Binder(callee)], [Mark(Kind(ty))];
    var a, x := PatternsText(args, scope), PatternsText(args', other);
    var b, y := TypesText(typeArgs, scope), TypesText(RenameTypes(m, typeArgs, scope), other);
    PatternsMove(m, args, args', scope, other);
    TypesMove(m, typeArgs, scope, other);
    SignsStay(m, k);
    AfterSigns(m, front, a, x);
    BecomesBoth(m, front + a, front + x, b, y);
    BecomesBoth(m, front + a + b, front + x + y, k, k);
  }

  lemma {:induction false} PatternsMove(m: ModuleRenamer, ps: seq<Expression>, renamed: seq<Expression>,
                                        scope: set<string>, other: set<string>)
    requires |renamed| == |ps| && forall i | 0 <= i < |ps| :: renamed[i] == RenamePattern(m, ps[i], scope)
    ensures Becomes(m, PatternsText(ps, scope), PatternsText(renamed, other))
    decreases ps, 0
  {
    hide Becomes, PatternText, RenamePattern;
    if ps == [] {
      SignsStay(m, [Mark(Tag("end"))]);
    } else {
      PatternMoves(m, ps[0], scope, other);
      PatternsMove(m, ps[1..], renamed[1..], scope, other);
      BecomesBoth(m, PatternText(ps[0], scope), PatternText(renamed[0], other),
                  PatternsText(ps[1..], scope), PatternsText(renamed[1..], other));
    }
  }

  lemma {:induction false} PayloadsMove(m: ModuleRenamer, payloads: seq<Expression>, scope: set<string>, other: set<string>)
    ensures Becomes(m, PayloadsText(payloads, scope), PayloadsText(RenamePayloads(m, payloads, scope), other))
    decreases payloads, 0
  {
    hide Becomes, ExprText, RenameExpr;
    if payloads == [] {
      SignsStay(m, [Mark(Tag("end"))]);
    } else {
      var r := RenamePayloads(m, payloads, scope);
      assert r[1..] == RenamePayloads(m, payloads[1..], scope);
      PayloadsMove(m, payloads[1..], scope, other);
      if payloads[0].Identifier? {
        AfterSigns(m, [Binder(payloads[0].name), Mark(Kind(payloads[0].ty))], PayloadsText(payloads[1..], scope),
                   PayloadsText(r[1..], other));
      } else {
        ExprMoves(m, payloads[0], scope, other);
        RenamedKeepsLeaves(m, payloads[0], scope);
        BecomesBoth(m, ExprText(payloads[0], scope), ExprText(r[0], other),
                    PayloadsText(payloads[1..], scope), PayloadsText(r[1..], other));
      }
    }
  }

  lemma {:induction false} ExprArmsMove(m: ModuleRenamer, arms: seq<ExprArm>, scope: set<string>, other: set<string>)
    ensures Becomes(m, ExprArmsText(arms, scope), ExprArmsText(RenameExprArms(m, arms, scope), other))
    decreases arms, 1
  {
    hide Becomes, ExprArmText, RenameExprArm;
    if arms == [] {
      SignsStay(m, [Mark(Tag("end"))]);
    } else {
      var r := RenameExprArms(m, arms, scope);
      assert r[1..] == RenameExprArms(m, arms[1..], scope);
      ExprArmMoves(m, arms[0], scope, other);
      ExprArmsMove(m, arms[1..], scope, other);
      BecomesBoth(m, ExprArmText(arms[0], scope), ExprArmText(r[0], other),
                  ExprArmsText(arms[1..], scope), ExprArmsText(r[1..], other));
    }
  }

  lemma {:induction false} ExprArmMoves(m: ModuleRenamer, arm: ExprArm, scope: set<string>, other: set<string>)
    ensures Becomes(m, ExprArmText(arm, scope), ExprArmText(RenameExprArm(m, arm, scope), other))
    decreases arm, 0
  {
    hide Becomes, ExprText, RenameExpr, PatternText, RenamePattern, BoundByPattern, PatternBindings;
    var ExprArm(pattern, result) := arm;
    var pattern' := RenamePattern(m, pattern, scope);
    PatternNames(pattern');
    RenamedPatternNames(m, pattern, scope);
    var inner, inner' := scope + BoundByPattern(pattern), other + BoundByPattern(pattern');
    PatternMoves(m, pattern, scope, other);
    ExprMoves(m, result, inner, inner');
    BecomesBoth(m, PatternText(pattern, scope), PatternText(pattern', other),
                ExprText(result, inner), ExprText(RenameExpr(m, result, inner), inner'));
  }

  lemma {:induction false} StmtArmsMove(m: ModuleRenamer, arms: seq<StmtArm>, scope: set<string>, other: set<string>)
    ensures Becomes(m, StmtArmsText(arms, scope), StmtArmsText(RenameStmtArms(m, arms, scope), other))
    decreases arms, 1
  {
    hide Becomes, StmtArmText, RenameStmtArm;
    if arms == [] {
      SignsStay(m, [Mark(Tag("end"))]);
    } else {
      var r := RenameStmtArms(m, arms, scope);
      assert r[1..] == RenameStmtArms(m, arms[1..], scope);
      StmtArmMoves(m, arms[0], scope, other);
      StmtArmsMove(m, arms[1..], scope, other);
      BecomesBoth(m, StmtArmText(arms[0], scope), StmtArmText(r[0], other),
                  StmtArmsText(arms[1..], scope), StmtArmsText(r[1..], other));
    }
  }

  lemma {:induction false} StmtArmMoves(m: ModuleRenamer, arm: StmtArm, scope: set<string>, other: set<string>)
    ensures Becomes(m, StmtArmText(arm, scope), StmtArmText(RenameStmtArm(m, arm, scope), other))
    decreases arm, 0
  {
    hide Becomes, BlockText, RenameBlock, PatternText, RenamePattern, BoundByPattern, PatternBindings;
    var StmtArm(pattern, body) := arm;
    var pattern' := RenamePattern(m, pattern, scope);
    PatternNames(pattern');
    RenamedPatternNames(m, pattern, scope);
    var inner, inner' := scope + BoundByPattern(pattern), other + BoundByPattern(pattern');
    PatternMoves(m, pattern, scope, other);
    BlockMoves(m, body, inner, inner');
    BecomesBoth(m, PatternText(pattern, scope), PatternText(pattern', other),
                BlockText(body, inner), BlockText(RenameBlock(m, body, inner), inner'));
  }

  // ---- statements

  lemma {:induction false} OptionalMoves(m: ModuleRenamer, e: Option<Expression>, scope: set<string>, other: set<string>)
    ensures Becomes(m, OptionalText(e, scope), OptionalText(RenameOptionalExpr(m, e, scope), other))
    decreases e, 0
  {
    hide Becomes, ExprText, RenameExpr;
    match e
    case Some(x) =>
      ExprMoves(m, x, scope, other);
      AfterSigns(m, [Mark(Tag("some"))], ExprText(x, scope), ExprText(RenameExpr(m, x, scope), other));
    case None => SignsStay(m, [Mark(Tag("none"))]);
  }

  lemma {:induction false} TargetMoves(m: ModuleRenamer, target: Target, scope: set<string>, other: set<string>)
    ensures Becomes(m, TargetText(target, scope), TargetText(RenameTarget(m, target, scope), other))
    decreases target, 0
  {
    hide Becomes, ExprText, RenameExpr, RenameName, RenameFieldPath;
    match target
    case Variable(name) => NamedMoves(m, "variable", name, scope, other);
    case Field(path) => FieldMoves(m, path, scope, other);
    case Index(base, index) =>
      var front := [Mark(Tag("index"))];
      var a, x := ExprText(base, scope), ExprText(RenameExpr(m, base, scope), other);
      ExprMoves(m, base, scope, other);
      ExprMoves(m, index, scope, other);
      AfterSigns(m, front, a, x);
      BecomesBoth(m, front + a, front + x, ExprText(index, scope), ExprText(RenameExpr(m, index, scope), other));
    case Deref(base) =>
      ExprMoves(m, base, scope, other);
      AfterSigns(m, [Mark(Tag("deref"))], ExprText(base, scope), ExprText(RenameExpr(m, base, scope), other));
  }

  lemma RootMoves(m: ModuleRenamer, a: Token, x: Token, scope: set<string>)
    requires a.Name? && a.moves == (a.name !in scope) && Spelled(x) == Word(RenameName(m, a.name, scope) + a.rest)
    ensures Becomes(m, [a], [x])
  {
  }

  lemma FieldMoves(m: ModuleRenamer, path: string, scope: set<string>, other: set<string>)
    ensures Becomes(m, TargetText(Field(path), scope), TargetText(Field(RenameFieldPath(m, path, scope)), other))
  {
    hide Becomes;
    hide RenameName;
    var root, path' := Root(path), RenameFieldPath(m, path, scope);
    var a, x := Name(root, path[|root|..], root !in scope), Name(Root(path'), path'[|Root(path')|..], Root(path') !in other);
    assert path' == Root(path') + path'[|Root(path')|..];
    assert Spelled(x) == Word(RenameName(m, root, scope) + path[|root|..]);
    RootMoves(m, a, x, scope);
    AfterSigns(m, [Mark(Tag("field"))], [a], [x]);
    assert [Mark(Tag("field"))] + [a] == [Mark(Tag("field")), a] && [Mark(Tag("field"))] + [x] == [Mark(Tag("field")), x];
  }

  lemma {:induction false} VariantsMove(m: ModuleRenamer, vs: seq<EnumVariantDef>, enumName: string,
                                        scope: set<string>, other: set<string>)
    ensures Becomes(m, VariantsText(vs, scope), VariantsText(RenameVariants(m, vs, enumName, scope), other))
  {
    hide Becomes, TypesText, RenameTypes;
    if vs == [] {
      SignsStay(m, [Mark(Tag("end"))]);
    } else {
      var r := RenameVariants(m, vs, enumName, scope);
      assert r[1..] == RenameVariants(m, vs[1..], enumName, scope);
      var front := [Mark(Tag(vs[0].variant))];
      TypesMove(m, vs[0].types, scope, other);
      VariantsMove(m, vs[1..], enumName, scope, other);
      AfterSigns(m, front, TypesText(vs[0].types, scope), TypesText(r[0].types, other));
      BecomesBoth(m, front + TypesText(vs[0].types, scope), front + TypesText(r[0].types, other),
                  VariantsText(vs[1..], scope), VariantsText(r[1..], other));
    }
  }

  lemma {:induction false} BlockMoves(m: ModuleRenamer, ss: seq<Statement>, scope: set<string>, other: set<string>)
    ensures Becomes(m, BlockText(ss, scope), BlockText(RenameBlock(m, ss, scope), other))
    decreases ss, 0
  {
    hide Becomes, StmtText, RenameStmt, LeftInScope, StatementBindings;
    if ss == [] {
      SignsStay(m, [Mark(Tag("end"))]);
    } else {
      var head := RenameStmt(m, ss[0], scope, false);
      StatementNames(head);
      NestedKeepsNames(m, ss[0], scope);
      var inner, inner' := scope + LeftInScope(ss[0]), other + LeftInScope(head);
      StmtMoves(m, ss[0], scope, false, other, false);
      BlockMoves(m, ss[1..], inner, inner');
      assert RenameBlock(m, ss, scope)[1..] == RenameBlock(m, ss[1..], inner);
      BecomesBoth(m, StmtText(ss[0], scope, false), StmtText(head, other, false),
                  BlockText(ss[1..], inner), BlockText(RenameBlock(m, ss[1..], inner), inner'));
    }
  }

  lemma NestedKeepsNames(m: ModuleRenamer, s: Statement, scope: set<string>)
    ensures LeftInScope(RenameStmt(m, s, scope, false)) == LeftInScope(s)
  {
    match s case _ =>
  }

  /** The renamed statement reads as the statement with its moving references prefixed,
      under any scope: what it spells does not depend on where it stands. */
  lemma {:induction false} StmtMoves(m: ModuleRenamer, s: Statement, scope: set<string>, top: bool,
                                     other: set<string>, otherTop: bool)
    ensures Becomes(m, StmtText(s, scope, top), StmtText(RenameStmt(m, s, scope, top), other, otherTop))
    decreases s, 0, 1
  {
    hide Becomes, ExprText, RenameExpr, BlockText, RenameBlock, TargetText, RenameTarget, OptionalText,
         RenameOptionalExpr, StmtArmsText, RenameStmtArms, RenameDecl, VariantsText, RenameVariants, ParamsText, RenameParams,
         TypeText, RenameType, OptionalNameText, RenameOptionalName, RenameName;
    match s
    case Let(_, _, _, _, _, _) => LetMoves(m, s, scope, top, other, otherTop);
    case Assignment(target, value) =>
      var a, x := TargetText(target, scope), TargetText(RenameTarget(m, target, scope), other);
      TargetMoves(m, target, scope, other);
      ExprMoves(m, value, scope, other);
      TaggedBoth(m, Mark(Tag("assign")), a, x, ExprText(value, scope), ExprText(RenameExpr(m, value, scope), other));
    case Function(_, _, _, _, _, _, _) => FunctionMoves(m, s, scope, top, other, otherTop);
    case Return(result) =>
      OptionalMoves(m, result, scope, other);
      AfterSigns(m, [Mark(Tag("return"))], OptionalText(result, scope), OptionalText(RenameOptionalExpr(m, result, scope), other));
    case If(_, _, _) => IfMoves(m, s, scope, top, other, otherTop);
    case While(condition, body) =>
      ExprMoves(m, condition, scope, other);
      BlockMoves(m, body, scope, other);
      TaggedBoth(m, Mark(Tag("while")), ExprText(condition, scope), ExprText(RenameExpr(m, condition, scope), other),
                 BlockText(body, scope), BlockText(RenameBlock(m, body, scope), other));
    case For(_, _, _, _) => LoopMoves(m, s, scope, top, other, otherTop);
    case Find(_, _, _) => LoopMoves(m, s, scope, top, other, otherTop);
    case ExprStmt(expr) =>
      ExprMoves(m, expr, scope, other);
      AfterSigns(m, [Mark(Tag("expr"))], ExprText(expr, scope), ExprText(RenameExpr(m, expr, scope), other));
    case Break => SignsStay(m, [Mark(Tag("break"))]);
    case Continue => SignsStay(m, [Mark(Tag("continue"))]);
    case Match(_, _, _) => MatchMoves(m, s, scope, top, other, otherTop);
    case Type(_, _, _, _, _) => TypeDefMoves(m, s, scope, top, other, otherTop);
    case Enum(_, _, _) => EnumDefMoves(m, s, scope, top, other, otherTop);
    case Impl(_, _, _, _) => ImplMoves(m, s, scope, top, other, otherTop);
    case Unsafe(body) =>
      BlockMoves(m, body, scope, other);
      AfterSigns(m, [Mark(Tag("unsafe"))], BlockText(body, scope), BlockText(RenameBlock(m, body, scope), other));
    case Drop(value) =>
      ExprMoves(m, value, scope, other);
      AfterSigns(m, [Mark(Tag("drop"))], ExprText(value, scope), ExprText(RenameExpr(m, value, scope), other));
    case Move(moved, value) =>
      var a := [Mark(Tag("move")), Declared(moved, scope, top)];
      var x := [Mark(Tag("move")), Declared(RenameDecl(m, moved, scope, top), other, otherTop)];
      TaggedDeclared(m, "move", moved, scope, top, other, otherTop);
      ExprMoves(m, value, scope, other);
      BecomesBoth(m, a, x, ExprText(value, scope), ExprText(RenameExpr(m, value, scope), other));
    case ExternFunction(_, _, _, _, _) => ExternMoves(m, s, scope, top, other, otherTop);
    case Module(name) => TaggedDeclared(m, "module", name, scope, top, other, otherTop);
    case Load(_, _, _) => SignsStay(m, [Mark(Import(s))]);
    case LoadLocal(_, _) => SignsStay(m, [Mark(Import(s))]);
  }

  lemma TaggedBoth(m: ModuleRenamer, tag: Token, a: seq<Token>, x: seq<Token>, b: seq<Token>, y: seq<Token>)
    requires tag.Mark? && Becomes(m, a, x) && Becomes(m, b, y)
    ensures Becomes(m, [tag] + a + b, [tag] + x + y)
  {
    hide Becomes;
    AfterSigns(m, [tag], a, x);
    BecomesBoth(m, [tag] + a, [tag] + x, b, y);
  }

  lemma TaggedDeclared(m: ModuleRenamer, tag: string, name: string, scope: set<string>, top: bool,
                       other: set<string>, otherTop: bool)
    ensures Becomes(m, [Mark(Tag(tag)), Declared(name, scope, top)],
                    [Mark(Tag(tag)), Declared(RenameDecl(m, name, scope, top), other, otherTop)])
  {
    hide Becomes, RenameDecl;
    var t, d, d' := Mark(Tag(tag)), Declared(name, scope, top), Declared(RenameDecl(m, name, scope, top), other, otherTop);
    DeclaredMoves(m, [t], name, scope, top, other, otherTop);
    assert [t] + [d] == [t, d] && [t] + [d'] == [t, d'];
  }

  lemma {:induction false} LetMoves(m: ModuleRenamer, s: Statement, scope: set<string>, top: bool,
                                    other: set<string>, otherTop: bool)
    requires s.Let?
    ensures Becomes(m, StmtText(s, scope, top), StmtText(RenameStmt(m, s, scope, top), other, otherTop))
    decreases s, 0, 0
  {
    hide Becomes, TypeText, RenameType, OptionalText, RenameOptionalExpr, RenameDecl;
    var Let(name, ty, init, vis, isConstant, isStatic) := s;
    var front := [Mark(Tag("let")), Mark(Shown(vis)), Mark(Flags([isConstant, isStatic]))];
    var d, d' := Declared(name, scope, top), Declared(RenameDecl(m, name, scope, top), other, otherTop);
    var a, x := [front[0], front[1], front[2], d], [front[0], front[1], front[2], d'];
    var b, y := TypeText(ty, scope), TypeText(RenameType(m, ty, scope), other);
    DeclaredMoves(m, front, name, scope, top, other, otherTop);
    assert a == front + [d] && x == front + [d'];
    TypeMoves(m, ty, scope, other);
    OptionalMoves(m, init, scope, other);
    BecomesBoth(m, a, x, b, y);
    BecomesBoth(m, a + b, x + y, OptionalText(init, scope), OptionalText(RenameOptionalExpr(m, init, scope), other));
  }

  lemma {:induction false} FunctionMoves(m: ModuleRenamer, s: Statement, scope: set<string>, top: bool,
                                         other: set<string>, otherTop: bool)
    requires s.Function?
    ensures Becomes(m, StmtText(s, scope, top), StmtText(RenameStmt(m, s, scope, top), other, otherTop))
    decreases s, 0, 0
  {
    hide Becomes, TypeText, RenameType, ParamsText, RenameParams, BlockText, RenameBlock, RenameDecl;
    var Function(name, typeParams, params, body, ret, vis, isMethod) := s;
    var params' := RenameParams(m, params, scope);
    var front := [Mark(Tag("fn")), Mark(Shown(vis)), Mark(Flags([isMethod])), Mark(Words(typeParams))];
    var d, d' := Declared(name, scope, top), Declared(RenameDecl(m, name, scope, top), other, otherTop);
    var a, x := [front[0], front[1], front[2], front[3], d], [front[0], front[1], front[2], front[3], d'];
    var b, y := ParamsText(params, scope), ParamsText(params', other);
    var c, z := TypeText(ret, scope), TypeText(RenameType(m, ret, scope), other);
    var inner := scope + (set t | t in typeParams) + ParamNames(params);
    var inner' := other + (set t | t in typeParams) + ParamNames(params');
    assert inner == scope + TypeParamNames(typeParams) + ParamNames(params);
    DeclaredMoves(m, front, name, scope, top, other, otherTop);
    assert a == front + [d] && x == front + [d'];
    ParamsMove(m, params, scope, other);
    TypeMoves(m, ret, scope, other);
    BlockMoves(m, body, inner, inner');
    BecomesBoth(m, a, x, b, y);
    BecomesBoth(m, a + b, x + y, c, z);
    BecomesBoth(m, a + b + c, x + y + z, BlockText(body, inner), BlockText(RenameBlock(m, body, inner), inner'));
  }

  lemma {:induction false} ExternMoves(m: ModuleRenamer, s: Statement, scope: set<string>, top: bool,
                                       other: set<string>, otherTop: bool)
    requires s.ExternFunction?
    ensures Becomes(m, StmtText(s, scope, top), StmtText(RenameStmt(m, s, scope, top), other, otherTop))
    decreases s, 0, 0
  {
    hide Becomes, TypeText, RenameType, ParamsText, RenameParams;
    var ExternFunction(name, lib, params, ret, vis) := s;
    var front := [Mark(Tag("extern")), Mark(Shown(vis)), Mark(Tag(lib))];
    var moves, name' := top && lib != "c", RenameExtern(m, name, scope, top, lib);
    var d, d' := Declared(name, scope, moves), Declared(name', other, otherTop && lib != "c");
    var a, x := [front[0], front[1], front[2], d], [front[0], front[1], front[2], d'];
    var b, y := ParamsText(params, scope), ParamsText(RenameParams(m, params, scope), other);
    assert name' == RenameDecl(m, name, scope, moves);
    DeclaredMoves(m, front, name, scope, moves, other, otherTop && lib != "c");
    assert a == front + [d] && x == front + [d'];
    ParamsMove(m, params, scope, other);
    TypeMoves(m, ret, scope, other);
    BecomesBoth(m, a, x, b, y);
    BecomesBoth(m, a + b, x + y, TypeText(ret, scope), TypeText(RenameType(m, ret, scope), other));
  }

  lemma {:induction false} IfMoves(m: ModuleRenamer, s: Statement, scope: set<string>, top: bool,
                                   other: set<string>, otherTop: bool)
    requires s.If?
    ensures Becomes(m, StmtText(s, scope, top), StmtText(RenameStmt(m, s, scope, top), other, otherTop))
    decreases s, 0, 0
  {
    hide Becomes, ExprText, RenameExpr, BlockText, RenameBlock;
    var If(condition, thenBranch, elseBranch) := s;
    var a, x := ExprText(condition, scope), ExprText(RenameExpr(m, condition, scope), other);
    var b, y := BlockText(thenBranch, scope), BlockText(RenameBlock(m, thenBranch, scope), other);
    var t := Mark(Tag("if"));
    ExprMoves(m, condition, scope, other);
    BlockMoves(m, thenBranch, scope, other);
    TaggedBoth(m, t, a, x, b, y);
    match elseBranch
    case NoElse =>
      SignsStay(m, [Mark(Tag("none"))]);
      BecomesBoth(m, [t] + a + b, [t] + x + y, [Mark(Tag("none"))], [Mark(Tag("none"))]);
    case Else(e) =>
      BlockMoves(m, e, scope, other);
      var c, z := BlockText(e, scope), BlockText(RenameBlock(m, e, scope), other);
      AfterSigns(m, [Mark(Tag("else"))], c, z);
      BecomesBoth(m, [t] + a + b, [t] + x + y, [Mark(Tag("else"))] + c, [Mark(Tag("else"))] + z);
  }

  lemma {:induction false} LoopMoves(m: ModuleRenamer, s: Statement, scope: set<string>, top: bool,
                                     other: set<string>, otherTop: bool)
    requires s.For? || s.Find?
    ensures Becomes(m, StmtText(s, scope, top), StmtText(RenameStmt(m, s, scope, top), other, otherTop))
    decreases s, 0, 0
  {
    hide Becomes, ExprText, RenameExpr, BlockText, RenameBlock;
    var front := if s.For? then [Mark(Tag("for")), Binder(s.variable)] + OptionalBinder(s.counter)
                 else [Mark(Tag("find")), Binder(s.variable)];
    var names := LeftInScope(s);
    assert s.For? ==> names == {s.variable} + CounterName(s.counter);
    var a, x := ExprText(s.iterable, scope), ExprText(RenameExpr(m, s.iterable, scope), other);
    ExprMoves(m, s.iterable, scope, other);
    BlockMoves(m, s.body, scope + names, other + names);
    AfterSigns(m, front, a, x);
    BecomesBoth(m, front + a, front + x, BlockText(s.body, scope + names),
                BlockText(RenameBlock(m, s.body, scope + names), other + names));
  }

  lemma {:induction false} MatchMoves(m: ModuleRenamer, s: Statement, scope: set<string>, top: bool,
                                      other: set<string>, otherTop: bool)
    requires s.Match?
    ensures Becomes(m, StmtText(s, scope, top), StmtText(RenameStmt(m, s, scope, top), other, otherTop))
    decreases s, 0, 0
  {
    hide Becomes, ExprText, RenameExpr, BlockText, RenameBlock, StmtArmsText, RenameStmtArms;
    var Match(subject, arms, default) := s;
    var t := Mark(Tag("match"));
    var a, x := ExprText(subject, scope), ExprText(RenameExpr(m, subject, scope), other);
    var b, y := StmtArmsText(arms, scope), StmtArmsText(RenameStmtArms(m, arms, scope), other);
    ExprMoves(m, subject, scope, other);
    StmtArmsMove(m, arms, scope, other);
    BlockMoves(m, default, scope, other);
    TaggedBoth(m, t, a, x, b, y);
    BecomesBoth(m, [t] + a + b, [t] + x + y, BlockText(default, scope), BlockText(RenameBlock(m, default, scope), other));
  }

  lemma {:induction false} TypeDefMoves(m: ModuleRenamer, s: Statement, scope: set<string>, top: bool,
                                        other: set<string>, otherTop: bool)
    requires s.Type?
    ensures Becomes(m, StmtText(s, scope, top), StmtText(RenameStmt(m, s, scope, top), other, otherTop))
    decreases s, 0, 0
  {
    hide Becomes, OptionalNameText, RenameOptionalName, BlockText, RenameBlock, RenameDecl;
    var Type(name, typeParams, parent, fields, vis) := s;
    var front := [Mark(Tag("type")), Mark(Shown(vis)), Mark(Words(typeParams))];
    var d, d' := Declared(name, scope, top), Declared(RenameDecl(m, name, scope, top), other, otherTop);
    var a, x := [front[0], front[1], front[2], d], [front[0], front[1], front[2], d'];
    var b, y := OptionalNameText(parent, scope), OptionalNameText(RenameOptionalName(m, parent, scope), other);
    var params := set t | t in typeParams;
    assert params == TypeParamNames(typeParams);
    DeclaredMoves(m, front, name, scope, top, other, otherTop);
    assert a == front + [d] && x == front + [d'];
    OptionalNameMoves(m, parent, scope, other);
    BlockMoves(m, fields, scope + params, other + params);
    BecomesBoth(m, a, x, b, y);
    BecomesBoth(m, a + b, x + y, BlockText(fields, scope + params),
                BlockText(RenameBlock(m, fields, scope + params), other + params));
  }

  lemma {:induction false} EnumDefMoves(m: ModuleRenamer, s: Statement, scope: set<string>, top: bool,
                                        other: set<string>, otherTop: bool)
    requires s.Enum?
    ensures Becomes(m, StmtText(s, scope, top), StmtText(RenameStmt(m, s, scope, top), other, otherTop))
    decreases s, 0, 0
  {
    hide Becomes, VariantsText, RenameVariants, RenameDecl;
    var Enum(name, variants, vis) := s;
    var name' := RenameDecl(m, name, scope, top);
    var front := [Mark(Tag("enum")), Mark(Shown(vis))];
    var d, d' := Declared(name, scope, top), Declared(name', other, otherTop);
    var a, x := [front[0], front[1], d], [front[0], front[1], d'];
    DeclaredMoves(m, front, name, scope, top, other, otherTop);
    assert a == front + [d] && x == front + [d'];
    VariantsMove(m, variants, name', scope, other);
    BecomesBoth(m, a, x, VariantsText(variants, scope), VariantsText(RenameVariants(m, variants, name', scope), other));
  }

  lemma {:induction false} ImplMoves(m: ModuleRenamer, s: Statement, scope: set<string>, top: bool,
                                     other: set<string>, otherTop: bool)
    requires s.Impl?
    ensures Becomes(m, StmtText(s, scope, top), StmtText(RenameStmt(m, s, scope, top), other, otherTop))
    decreases s, 0, 0
  {
    hide Becomes, OptionalNameText, RenameOptionalName, BlockText, RenameBlock, RenameName;
    var Impl(traitName, typeName, typeParams, methods) := s;
    var front := [Mark(Tag("impl")), Mark(Words(typeParams))];
    var d, d' := Reference(typeName, scope), Reference(RenameName(m, typeName, scope), other);
    var a, x := [front[0], front[1], d], [front[0], front[1], d'];
    var b, y := OptionalNameText(traitName, scope), OptionalNameText(RenameOptionalName(m, traitName, scope), other);
    var params := set t | t in typeParams;
    assert params == TypeParamNames(typeParams);
    ReferenceMoves(m, typeName, scope, other);
    AfterSigns(m, front, [d], [d']);
    assert a == front + [d] && x == front + [d'];
    OptionalNameMoves(m, traitName, scope, other);
    BlockMoves(m, methods, scope + params, other + params);
    BecomesBoth(m, a, x, b, y);
    BecomesBoth(m, a + b, x + y, BlockText(methods, scope + params),
                BlockText(RenameBlock(m, methods, scope + params), other + params));
  }

  // ---- types that are left verbatim

  /** An exported type named behind a pointer or in a function type keeps its bare name, however
      deep inside vectors it stands. */
  lemma {:induction false} TypesBehindPointersStayBare(m: ModuleRenamer, name: string, depth: nat)
    requires name in m.symbols && '.' !in name
    ensures RenameType(m, StructNamed(name), {}) == StructNamed(m.prefix + "." + name)
    ensures RenameType(m, Wrapped(Pointer(StructNamed(name)), depth), {}) == Wrapped(Pointer(StructNamed(name)), depth)
    ensures RenameType(m, Wrapped(FnType([StructNamed(name)], StructNamed(name)), depth), {}) ==
            Wrapped(FnType([StructNamed(name)], StructNamed(name)), depth)
  {
    if depth > 0 { TypesBehindPointersStayBare(m, name, depth - 1); }
  }

  function Wrapped(t: DataType, depth: nat): DataType {
    if depth == 0 then t else Vector(Wrapped(t, depth - 1))
  }

  // ---- what a loaded file reads like

  /** The variants of a renamed enum carry its new name, whatever they carried before. */
  lemma VariantsCarryTheName(m: ModuleRenamer, s: Statement, scope: set<string>, top: bool)
    requires s.Enum?
    ensures var r := RenameStmt(m, s, scope, top);
            r.Enum? && forall v | v in r.variants :: v.enumName == r.name
  {
  }

  /** Of the words of a loaded statement exactly those change that refer, unshadowed and
      outside the verbatim nodes, to an export of what was loaded under the same prefix. */
  lemma LoadedStatementReadsPrefixed(e: Expanded, statements: seq<Expanded>, prefixOf: string -> string, i: nat)
    requires i < |StmtText(e.statement, {}, true)|
    ensures |StmtText(RenameLoaded(e, statements, prefixOf).statement, {}, true)| == |StmtText(e.statement, {}, true)|
    ensures var was := StmtText(e.statement, {}, true)[i];
            var now := StmtText(RenameLoaded(e, statements, prefixOf).statement, {}, true)[i];
            var prefix := prefixOf(e.origin);
            if prefix != "" && was.Name? && was.moves && was.name in ExportedUnder(statements, prefixOf, prefix) && '.' !in was.name
            then Spelled(now) == Word(prefix + "." + was.name + was.rest)
            else Spelled(now) == Spelled(was)
  {
    hide StmtText, RenameStmt;
    var prefix := prefixOf(e.origin);
    if prefix != "" {
      var m := ModuleRenamer(prefix, ExportedUnder(statements, prefixOf, prefix));
      var before, after := StmtText(e.statement, {}, true), StmtText(RenameStmt(m, e.statement, {}, true), {}, true);
      StmtMoves(m, e.statement, {}, true, {}, true);
      assert |Read(after)| == |Moved(m, before)|;
      assert Read(after)[i] == Moved(m, before)[i];
    }
  }

  /** So no reference that may move spells a bare export afterwards. */
  lemma NoExportIsLeftBare(m: ModuleRenamer, s: Statement, scope: set<string>, top: bool, i: nat)
    requires i < |StmtText(s, scope, top)|
    requires StmtText(s, scope, top)[i].Name? && StmtText(s, scope, top)[i].moves
    ensures |StmtText(RenameStmt(m, s, scope, top), scope, top)| == |StmtText(s, scope, top)|
    ensures var now := Spelled(StmtText(RenameStmt(m, s, scope, top), scope, top)[i]);
            now.Word? && (StmtText(s, scope, top)[i].rest == "" && now.text in m.symbols ==> '.' in now.text)
  {
    hide StmtText, RenameStmt;
    var before, after := StmtText(s, scope, top), StmtText(RenameStmt(m, s, scope, top), scope, top);
    StmtMoves(m, s, scope, top, scope, top);
    assert |Read(after)| == |Moved(m, before)|;
    assert Read(after)[i] == Moved(m, before)[i];
    var Name(name, rest, _) := before[i];
    if rest == "" {
      assert name + rest == name;
      assert (m.prefix + "." + name + rest)[|m.prefix|] == '.';
    }
  }
}
