/**
  Every name condition of `RenamerMeaning.RenamingPreservesMeaning` is needed: whatever
  symbol `v` a module exports under whatever prefix, there is code that breaks only that
  condition and whose renaming means something else.
*/
module RenamerLimits {
  import opened Wrappers
  import opened Ast
  import opened Semantics
  import opened Renamer
  import opened RenamerMeaning

  const ANY := Primitive("any")

  function Ident(name: string): Expression { Identifier(name, ANY) }

  function Number(n: int): Expression { Literal(IntLit(n)) }

  function NumberV(n: int): Value { ScalarV(IntLit(n)) }

  function LetIs(name: string, init: Expression): Statement {
    Let(name, ANY, Some(init), Private, false, false)
  }

  /** The spelling of `v` after renaming. */
  function Spelled(m: ModuleRenamer, v: string): string {
    m.prefix + "." + v
  }

  lemma SpelledIsNew(m: ModuleRenamer, v: string)
    ensures Spelled(m, v) != v && '.' in Spelled(m, v)
  {
    assert |Spelled(m, v)| > |v| && Spelled(m, v)[|m.prefix|] == '.';
  }

  /** The only global is the exported `v`. */
  function Before(v: string, value: Value): State { State([Binding(v, value)], []) }

  function After(m: ModuleRenamer, v: string, value: Value): State { RenState(m, Before(v, value)) }

  lemma Globals(m: ModuleRenamer, v: string, value: Value)
    requires Movable(m, v)
    ensures After(m, v, value) == State([Binding(Spelled(m, v), RenValue(m, value))], [])
    ensures Resolve(Before(v, value), v) == Global(0)
    ensures Resolve(After(m, v, value), v) == Unbound
    ensures Resolve(After(m, v, value), Spelled(m, v)) == Global(0)
  {
    SpelledIsNew(m, v);
    var after := After(m, v, value);
    assert after.globals == [Binding(Spelled(m, v), RenValue(m, value))] && after.locals == [];
    assert forall name :: Lookup([], name) == -1;
    assert Before(v, value).globals[..0] == [] && after.globals[..0] == [];
    assert Lookup(Before(v, value).globals, v) == 0;
    assert Lookup(after.globals, v) == -1;
    assert Lookup(after.globals, Spelled(m, v)) == 0;
  }

  lemma BareNameIsLost(m: ModuleRenamer, v: string, value: Value, fuel: nat)
    requires Movable(m, v) && 0 < fuel
    ensures EvalExpr(fuel, Ident(v), Before(v, value)) == Done(value, Before(v, value))
    ensures EvalExpr(fuel, Ident(v), After(m, v, value)) == Stuck
  {
    Globals(m, v, value);
  }

  lemma RenameOne(m: ModuleRenamer, s: Statement, scope: set<string>)
    ensures RenameBlock(m, [s], scope) == [RenameStmt(m, s, scope, false)]
  {
    hide RenameStmt, StatementBindings;
    assert [s][1..] == [];
  }

  lemma RenameTwo(m: ModuleRenamer, s: Statement, t: Statement, scope: set<string>)
    ensures var head := RenameStmt(m, s, scope, false);
      RenameBlock(m, [s, t], scope) == [head, RenameStmt(m, t, scope + StatementBindings(head), false)]
  {
    hide RenameStmt, StatementBindings;
    assert [s, t][1..] == [t];
    RenameOne(m, t, scope + StatementBindings(RenameStmt(m, s, scope, false)));
  }

  lemma ExecOne(fuel: nat, s: Statement, st: State)
    requires 1 < fuel
    ensures ExecBlock(fuel, [s], st) == ExecStmt(fuel - 1, s, st)
  {
    hide ExecStmt;
    assert [s][1..] == [];
    assert forall st1 :: ExecBlock(fuel - 1, [], st1) == Done(Normal, st1);
  }

  lemma ExecTwo(fuel: nat, s: Statement, t: Statement, st: State)
    requires 2 < fuel && ExecStmt(fuel - 1, s, st).Done? && ExecStmt(fuel - 1, s, st).value == Normal
    ensures ExecBlock(fuel, [s, t], st) == ExecStmt(fuel - 2, t, ExecStmt(fuel - 1, s, st).state)
  {
    hide ExecStmt;
    assert [s, t][1..] == [t];
    ExecOne(fuel - 1, t, ExecStmt(fuel - 1, s, st).state);
  }

  // ---- loop names

  /** `for v in [] {}` leaves `v` in the renamer's scope for the rest of the block. */
  function AfterLoop(v: string): seq<Statement> {
    [For(v, None, Node(ListOf, [], []), []), ExprStmt(Ident(v))]
  }

  lemma EmptyLoopRuns(v: string, st: State)
    ensures ExecStmt(5, AfterLoop(v)[0], st) == Done(Normal, st)
  {
    assert EvalExpr(4, Node(ListOf, [], []), st) == Done(ListV([]), st);
    assert ExecFor(4, v, None, [], 0, [], st) == Done(Normal, st);
  }

  lemma LoopIsKept(m: ModuleRenamer, v: string)
    ensures RenameBlock(m, AfterLoop(v), {}) == AfterLoop(v)
  {
    assert RenameExprs(m, [], {}) == [] && RenameTypes(m, [], {}) == [];
    assert RenameBlock(m, [], {} + ({v} + CounterName(None))) == [];
    RenameTwo(m, AfterLoop(v)[0], AfterLoop(v)[1], {});
  }

  lemma LoopNameMustNotBeASymbol(m: ModuleRenamer, v: string, value: Value)
    requires Movable(m, v)
    ensures ExecBlock(6, AfterLoop(v), Before(v, value)).Done?
    ensures RenameBlock(m, AfterLoop(v), {}) == AfterLoop(v)
    ensures ExecBlock(6, AfterLoop(v), After(m, v, value)).Stuck?
  {
    hide RenState, RenameBlock, ExecBlock, Resolve;
    LoopIsKept(m, v);
    EmptyLoopRuns(v, Before(v, value));
    EmptyLoopRuns(v, After(m, v, value));
    BareNameIsLost(m, v, value, 3);
    ExecTwo(6, AfterLoop(v)[0], AfterLoop(v)[1], Before(v, value));
    ExecTwo(6, AfterLoop(v)[0], AfterLoop(v)[1], After(m, v, value));
  }

  // ---- nodes left verbatim

  /** The three wrappers are left as they are, so a symbol inside keeps its bare name. */
  lemma VerbatimNodesLoseTheirSymbols(m: ModuleRenamer, v: string, value: Value, e: Expression)
    requires Movable(m, v)
    requires (e.Ascription? || e.UseMacro? || e.MacroCall?) && e.inner == Ident(v)
    ensures EvalExpr(3, e, Before(v, value)) == Done(value, Before(v, value))
    ensures RenameExpr(m, e, {}) == e
    ensures EvalExpr(3, e, After(m, v, value)) == Stuck
  {
    hide RenState, Resolve;
    BareNameIsLost(m, v, value, 2);
  }

  // ---- type parameters

  /** A type parameter named like a symbol hides that symbol in the whole body. */
  lemma TypeParamMustNotBeASymbol(m: ModuleRenamer, f: string, v: string, value: Value)
    requires Movable(m, v) && !Movable(m, f)
    ensures var s := Function(f, [v], [], [ExprStmt(Ident(v))], ANY, Private, false);
      RenameStmt(m, s, {}, true) == s &&
      ExecBlock(4, s.body, Before(v, value)).Done? && ExecBlock(4, s.body, After(m, v, value)).Stuck?
  {
    hide RenState, Resolve, EvalExpr, ExecBlock;
    BareNameIsLost(m, v, value, 2);
    var scope := {} + TypeParamNames([v]) + ParamNames([]);
    assert v in [v];
    assert v in scope;
    assert RenameParams(m, [], {}) == [];
    RenameOne(m, ExprStmt(Ident(v)), scope);
    ExecOne(4, ExprStmt(Ident(v)), Before(v, value));
    ExecOne(4, ExprStmt(Ident(v)), After(m, v, value));
  }

  // ---- reserved spellings

  lemma LetRuns(fuel: nat, name: string, k: int, st: State)
    requires 2 < fuel
    ensures ExecStmt(fuel, LetIs(name, Number(k)), st) == Done(Normal, Push(st, [Binding(name, NumberV(k))]))
  {
    assert EvalExpr(fuel - 2, Number(k), st) == Done(NumberV(k), st);
  }

  lemma LetIsKept(m: ModuleRenamer, name: string, k: int, scope: set<string>)
    ensures RenameStmt(m, LetIs(name, Number(k)), scope, false) == LetIs(name, Number(k))
    ensures StatementBindings(LetIs(name, Number(k))) == {name}
  {
    assert RenameExpr(m, Number(k), scope) == Number(k);
    assert RenameOptionalExpr(m, Some(Number(k)), scope) == Some(Number(k));
  }

  lemma ReturnRenamed(m: ModuleRenamer, name: string, scope: set<string>)
    ensures RenameStmt(m, Return(Some(Ident(name))), scope, false) == Return(Some(Ident(RenameName(m, name, scope))))
  {
    assert RenameExpr(m, Ident(name), scope) == Ident(RenameName(m, name, scope));
    assert RenameOptionalExpr(m, Some(Ident(name)), scope) == Some(Ident(RenameName(m, name, scope)));
  }

  lemma ReturnRuns(fuel: nat, name: string, st: State)
    requires 2 < fuel && !Resolve(st, name).Unbound?
    ensures ExecStmt(fuel, Return(Some(Ident(name))), st) == Done(Returned(Read(st, Resolve(st, name))), st)
  {
    assert EvalExpr(fuel - 2, Ident(name), st) == Done(Read(st, Resolve(st, name)), st);
  }

  predicate GivesBack(r: Eval<Control>, v: Value) {
    r.Done? && r.value == Returned(v)
  }

  lemma LastLocal(st: State, name: string, v: Value, asked: string)
    requires st.locals == []
    ensures var st1 := Push(st, [Binding(name, v)]);
      Resolve(st1, asked) == if asked == name then Local(0) else Resolve(st, asked)
  {
    assert [Binding(name, v)][..0] == [];
    assert st.locals + [Binding(name, v)] == [Binding(name, v)];
    assert Lookup([], asked) == -1;
  }

  lemma LetThenReturn(name: string, k: int, asked: string, st: State)
    requires st.locals == [] && (asked == name || Resolve(st, asked).Global?)
    ensures GivesBack(ExecBlock(6, [LetIs(name, Number(k)), Return(Some(Ident(asked)))], st),
                      if asked == name then NumberV(k) else Read(st, Resolve(st, asked)))
  {
    hide ExecBlock, ExecStmt, EvalExpr, Resolve;
    var st1 := Push(st, [Binding(name, NumberV(k))]);
    LetRuns(5, name, k, st);
    LastLocal(st, name, NumberV(k), asked);
    ReturnRuns(4, asked, st1);
    ExecTwo(6, LetIs(name, Number(k)), Return(Some(Ident(asked))), st);
  }

  /** A local spelled like a prefixed symbol captures the renamed reference. */
  lemma LocalMustNotBeReserved(m: ModuleRenamer, v: string, n: int, k: int)
    requires Movable(m, v)
    ensures var local := LetIs(Spelled(m, v), Number(k));
      var body, renamed := [local, Return(Some(Ident(v)))], [local, Return(Some(Ident(Spelled(m, v))))];
      RenameBlock(m, body, {}) == renamed &&
      GivesBack(ExecBlock(6, body, Before(v, NumberV(n))), NumberV(n)) &&
      GivesBack(ExecBlock(6, renamed, After(m, v, NumberV(n))), NumberV(k))
  {
    hide RenState, RenameBlock, ExecBlock, Resolve;
    var spelled := Spelled(m, v);
    SpelledIsNew(m, v);
    RenameTwo(m, LetIs(spelled, Number(k)), Return(Some(Ident(v))), {});
    LetIsKept(m, spelled, k, {});
    ReturnRenamed(m, v, {} + {spelled});
    Globals(m, v, NumberV(n));
    LetThenReturn(spelled, k, v, Before(v, NumberV(n)));
    LetThenReturn(spelled, k, spelled, After(m, v, NumberV(n)));
  }

  /** A global spelled like a prefixed symbol becomes that symbol. */
  lemma GlobalMustNotBeReserved(m: ModuleRenamer, v: string, n: int, k: int)
    requires Movable(m, v)
    ensures var st := State([Binding(v, NumberV(n)), Binding(Spelled(m, v), NumberV(k))], []);
      EvalExpr(1, Ident(v), st) == Done(NumberV(n), st) &&
      RenameExpr(m, Ident(v), {}) == Ident(Spelled(m, v)) &&
      EvalExpr(1, Ident(Spelled(m, v)), RenState(m, st)) == Done(NumberV(k), RenState(m, st))
  {
    var spelled := Spelled(m, v);
    SpelledIsNew(m, v);
    var globals := [Binding(v, NumberV(n)), Binding(spelled, NumberV(k))];
    var st := State(globals, []);
    assert RenState(m, st) == State([Binding(spelled, NumberV(n)), Binding(spelled, NumberV(k))], []);
    assert globals[..1] == [Binding(v, NumberV(n))];
    assert Lookup([], v) == -1 && Lookup([], spelled) == -1;
    assert Lookup(globals[..1], v) == 0;
    assert Lookup(globals, v) == 0;
  }

  /** A reference spelled like a prefixed symbol finds that symbol: code that was stuck runs. */
  lemma ReferenceMustNotBeReserved(m: ModuleRenamer, v: string, value: Value)
    requires Movable(m, v)
    ensures var e := Ident(Spelled(m, v));
      RenameExpr(m, e, {}) == e && EvalExpr(1, e, Before(v, value)) == Stuck &&
      EvalExpr(1, e, After(m, v, value)) == Done(RenValue(m, value), After(m, v, value))
  {
    hide RenState;
    SpelledIsNew(m, v);
    Globals(m, v, value);
    assert Before(v, value).globals[..0] == [];
    assert Lookup([], Spelled(m, v)) == -1;
    assert Lookup(Before(v, value).globals, Spelled(m, v)) == -1;
  }

  // ---- enums

  /** `match x { pattern => return 1 } default { return 2 }` */
  function MatchOn(x: string, pattern: Expression): Statement {
    Match(Ident(x), [StmtArm(pattern, [Return(Some(Number(1)))])], [Return(Some(Number(2)))])
  }

  lemma MatchGivesBack(x: string, pattern: Expression, st: State)
    requires !Resolve(st, x).Unbound? && pattern.VariantPath?
    ensures var v := Read(st, Resolve(st, x));
      GivesBack(ExecStmt(9, MatchOn(x, pattern), st),
                NumberV(if MatchPattern(pattern, v).Matched? then 1 else 2))
  {
    var v := Read(st, Resolve(st, x));
    assert EvalExpr(8, Ident(x), st) == Done(v, st);
    var arms, default := MatchOn(x, pattern).arms, MatchOn(x, pattern).default;
    assert arms[1..] == [];
    ReturnsNumber(1, st);
    ReturnsNumber(2, st);
    assert ExecStmt(9, MatchOn(x, pattern), st) == ExecArms(8, v, arms, default, st);
    assert ExecArms(7, v, [], default, st) == ExecScoped(6, default, [], st);
  }

  lemma ReturnsNumber(n: int, st: State)
    ensures GivesBack(ExecScoped(7, [Return(Some(Number(n)))], [], st), NumberV(n))
    ensures GivesBack(ExecScoped(6, [Return(Some(Number(n)))], [], st), NumberV(n))
  {
    assert st.locals + [] == st.locals;
    assert Push(st, []) == st;
    ExecOne(6, Return(Some(Number(n))), st);
    ExecOne(5, Return(Some(Number(n))), st);
    assert EvalExpr(3, Number(n), st) == Done(NumberV(n), st) == EvalExpr(4, Number(n), st);
  }

  /** Only the pattern's enum is a name that renaming may change. */
  lemma MatchRenamed(m: ModuleRenamer, x: string, enumName: string, variant: string, scope: set<string>)
    requires !Movable(m, x)
    ensures RenameStmt(m, MatchOn(x, VariantPath(enumName, variant, ANY)), scope, false)
         == MatchOn(x, VariantPath(RenameName(m, enumName, scope), variant, ANY))
  {
    var pattern := VariantPath(enumName, variant, ANY);
    var renamed := VariantPath(RenameName(m, enumName, scope), variant, ANY);
    var arms := [StmtArm(pattern, [Return(Some(Number(1)))])];
    assert RenamePattern(m, pattern, scope) == renamed;
    RenameOne(m, Return(Some(Number(1))), scope + PatternBindings(renamed));
    RenameOne(m, Return(Some(Number(2))), scope);
    assert RenameStmtArm(m, arms[0], scope) == StmtArm(renamed, [Return(Some(Number(1)))]);
    assert RenameStmtArms(m, arms, scope) == [StmtArm(renamed, [Return(Some(Number(1)))])];
  }

  /** The only global holds a variant of the exported enum `v`. */
  function HoldsVariant(x: string, enumName: string, variant: string): State {
    State([Binding(x, VariantV(enumName, variant, []))], [])
  }

  lemma HeldVariant(m: ModuleRenamer, x: string, v: string, variant: string)
    requires Movable(m, v) && !Movable(m, x)
    ensures RenState(m, HoldsVariant(x, v, variant)) == HoldsVariant(x, Spelled(m, v), variant)
    ensures forall e: string :: Resolve(HoldsVariant(x, e, variant), x) == Global(0)
  {
    assert RenValues(m, []) == [];
    assert RenState(m, HoldsVariant(x, v, variant)).globals == [Binding(x, VariantV(Spelled(m, v), variant, []))];
    forall e: string ensures Resolve(HoldsVariant(x, e, variant), x) == Global(0) {
      assert Lookup([], x) == -1;
      assert Lookup(HoldsVariant(x, e, variant).globals, x) == 0;
    }
  }

  /** Under a local named like an exported enum, its patterns stay bare, while a value
      built elsewhere carries the prefix: a match that held fails. */
  lemma EnumMustNotBeShadowed(m: ModuleRenamer, x: string, v: string, variant: string, k: int)
    requires Movable(m, v) && !Movable(m, x)
    ensures var body := [LetIs(v, Number(k)), MatchOn(x, VariantPath(v, variant, ANY))];
      var st := HoldsVariant(x, v, variant);
      RenameBlock(m, body, {}) == body &&
      GivesBack(ExecBlock(11, body, st), NumberV(1)) && GivesBack(ExecBlock(11, body, RenState(m, st)), NumberV(2))
  {
    hide RenameBlock, RenameStmt, ExecBlock, ExecStmt, Resolve, MatchOn, RenState;
    var local, choice := LetIs(v, Number(k)), MatchOn(x, VariantPath(v, variant, ANY));
    RenameTwo(m, local, choice, {});
    LetIsKept(m, v, k, {});
    MatchRenamed(m, x, v, variant, {} + {v});
    HeldVariant(m, x, v, variant);
    SpelledIsNew(m, v);
    MatchUnderLocal(v, k, x, v, v, variant);
    MatchUnderLocal(v, k, x, v, Spelled(m, v), variant);
  }

  lemma MatchUnderLocal(local: string, k: int, x: string, asked: string, held: string, variant: string)
    requires x != local && Resolve(HoldsVariant(x, held, variant), x) == Global(0)
    ensures GivesBack(ExecBlock(11, [LetIs(local, Number(k)), MatchOn(x, VariantPath(asked, variant, ANY))],
                                HoldsVariant(x, held, variant)),
                      NumberV(if asked == held then 1 else 2))
  {
    hide ExecBlock, ExecStmt, Resolve, MatchOn;
    var st := HoldsVariant(x, held, variant);
    LetRuns(10, local, k, st);
    LastLocal(st, local, NumberV(k), x);
    ExecTwo(11, LetIs(local, Number(k)), MatchOn(x, VariantPath(asked, variant, ANY)), st);
    MatchGivesBack(x, VariantPath(asked, variant, ANY), Push(st, [Binding(local, NumberV(k))]));
  }

  /** An enum spelled like a prefixed symbol becomes that symbol: a match that failed holds. */
  lemma EnumMustNotBeReserved(m: ModuleRenamer, x: string, v: string, variant: string)
    requires Movable(m, v) && !Movable(m, x)
    ensures var choice, st := MatchOn(x, VariantPath(Spelled(m, v), variant, ANY)), HoldsVariant(x, v, variant);
      RenameStmt(m, choice, {}, false) == choice &&
      GivesBack(ExecStmt(9, choice, st), NumberV(2)) && GivesBack(ExecStmt(9, choice, RenState(m, st)), NumberV(1))
  {
    hide RenameStmt, ExecStmt, Resolve, MatchOn, RenState;
    var pattern := VariantPath(Spelled(m, v), variant, ANY);
    SpelledIsNew(m, v);
    MatchRenamed(m, x, Spelled(m, v), variant, {});
    HeldVariant(m, x, v, variant);
    MatchGivesBack(x, pattern, HoldsVariant(x, v, variant));
    MatchGivesBack(x, pattern, HoldsVariant(x, Spelled(m, v), variant));
  }

  // ---- foreign functions

  /** A foreign function's declaration and the references to it keep one name exactly when
      the library is not `c`, or the name is no symbol: a function of the C library keeps
      its name, yet every reference to it is prefixed. */
  lemma ForeignDeclarationAndReferenceAgreeExactly(m: ModuleRenamer, name: string, lib: string,
                                                   params: seq<Param>, ret: DataType, vis: Visibility)
    ensures var declared := RenameStmt(m, ExternFunction(name, lib, params, ret, vis), {}, true);
      declared.name == RenameName(m, name, {}) <==> lib != "c" || !ShouldPrefix(m, name, {})
  {
    SpelledIsNew(m, name);
  }
}
