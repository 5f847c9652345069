/**
  Renaming a module preserves its meaning: run against globals whose names carry the
  prefix, the renamed module goes through the same states as the original.
*/
module RenamerMeaning {
  import opened Wrappers
  import opened Sequences
  import opened Ast
  import opened Semantics
  import opened Renamer
  import opened RenamerScope

  /** The symbols the renamer can ever prefix. */
  ghost predicate Movable(m: ModuleRenamer, name: string) {
    name in m.symbols && '.' !in name
  }

  /** The spelling of some prefixed symbol. */
  ghost predicate Reserved(m: ModuleRenamer, name: string) {
    exists s :: Movable(m, s) && name == m.prefix + "." + s
  }

  /** The name a global or an enum has after renaming. */
  function Prefixed(m: ModuleRenamer, name: string): string {
    RenameName(m, name, {})
  }

  lemma PrefixedIsReserved(m: ModuleRenamer, name: string)
    requires Movable(m, name)
    ensures Reserved(m, m.prefix + "." + name)
  {
  }

  lemma PrefixedInjective(m: ModuleRenamer, a: string, b: string)
    requires !Reserved(m, a) && !Reserved(m, b)
    ensures Prefixed(m, a) == Prefixed(m, b) <==> a == b
  {
    if Movable(m, a) && Movable(m, b) && Prefixed(m, a) == Prefixed(m, b) {
      var k := |m.prefix| + 1;
      assert (m.prefix + "." + a)[k..] == a && (m.prefix + "." + b)[k..] == b;
    }
  }

  // ---- the state of the renamed run: the same locals under the same names, the same
  // values up to the renaming of closure bodies and enum names inside them

  function NameSeq(env: seq<Binding>): (r: seq<string>)
    ensures |r| == |env|
  {
    seq(|env|, i requires 0 <= i < |env| => env[i].name)
  }

  function RenValue(m: ModuleRenamer, v: Value): Value
    decreases v, 0
  {
    match v
    case ScalarV(_) => v
    case ListV(items) => ListV(RenValues(m, items))
    case TaggedV(tag, item) => TaggedV(tag, RenValue(m, item))
    case VariantV(enumName, variant, payloads) =>
      VariantV(Prefixed(m, enumName), variant, RenValues(m, payloads))
    case ClosureV(params, body, env) =>
      ClosureV(params, RenameBlock(m, body, Elements(NameSeq(env)) + Elements(params)), RenLocals(m, env))
  }

  function RenValues(m: ModuleRenamer, vs: seq<Value>): (r: seq<Value>)
    ensures |r| == |vs|
    decreases vs, 0
  {
    seq(|vs|, i requires 0 <= i < |vs| => RenValue(m, vs[i]))
  }

  function RenBinding(m: ModuleRenamer, b: Binding): Binding
    decreases b, 0
  {
    var Binding(name, value) := b;
    Binding(name, RenValue(m, value))
  }

  function RenLocals(m: ModuleRenamer, env: seq<Binding>): (r: seq<Binding>)
    ensures |r| == |env|
    decreases env, 0
  {
    seq(|env|, i requires 0 <= i < |env| => RenBinding(m, env[i]))
  }

  function RenGlobals(m: ModuleRenamer, env: seq<Binding>): (r: seq<Binding>)
    ensures |r| == |env|
  {
    seq(|env|, i requires 0 <= i < |env| => Binding(Prefixed(m, env[i].name), RenValue(m, env[i].value)))
  }

  function RenState(m: ModuleRenamer, st: State): State {
    State(RenGlobals(m, st.globals), RenLocals(m, st.locals))
  }

  function RenControl(m: ModuleRenamer, c: Control): Control {
    match c case Returned(v) => Returned(RenValue(m, v)) case _ => c
  }

  // ---- hygiene: what the source must satisfy

  /** `names` holds every name that is ever bound locally.  A `strict` source also never
      refers to a name that is spelled like a prefixed symbol. */
  datatype Hygiene = Hygiene(names: set<string>, strict: bool)

  ghost predicate CleanReference(m: ModuleRenamer, h: Hygiene, name: string) {
    h.strict ==> !Reserved(m, name)
  }

  /** An enum name that is built or matched is not also bound as a local. */
  ghost predicate CleanEnum(m: ModuleRenamer, h: Hygiene, enumName: string) {
    !Reserved(m, enumName) && (Movable(m, enumName) ==> enumName !in h.names)
  }

  ghost predicate CleanLoopName(m: ModuleRenamer, h: Hygiene, name: string) {
    name in h.names && !Movable(m, name)
  }

  ghost predicate CleanPattern(m: ModuleRenamer, h: Hygiene, p: Expression) {
    match p
    case Variant(enumName, _, payloads, _) => CleanEnum(m, h, enumName) && PatternBindings(p) <= h.names
    case VariantPath(enumName, _, _) => CleanEnum(m, h, enumName)
    case _ => true
  }

  /** No verbatim node, no loop name that is a module symbol, no shadowed enum name;
      every local name is one of `h.names`. */
  ghost predicate CleanExpr(m: ModuleRenamer, h: Hygiene, e: Expression)
    decreases e, 1
  {
    match e
    case Identifier(name, _) => CleanReference(m, h, name)
    case Node(_, children, _) => CleanExprs(m, h, children)
    case Call(callee, args, _, _) => CleanReference(m, h, callee) && CleanExprs(m, h, args)
    case Closure(params, body, _, _) => ParamNames(params) <= h.names && CleanBlock(m, h, body)
    case MatchExpr(subject, arms, default, _) =>
      CleanExpr(m, h, subject) && CleanExpr(m, h, default) && CleanExprArms(m, h, arms)
    case VariantPath(enumName, _, _) => CleanEnum(m, h, enumName)
    case Variant(enumName, _, payloads, _) => CleanEnum(m, h, enumName) && CleanExprs(m, h, payloads)
    case Ascription(_, _, _) => false
    case UseMacro(_) => false
    case MacroCall(_) => false
    case _ => true
  }

  ghost predicate CleanExprs(m: ModuleRenamer, h: Hygiene, es: seq<Expression>)
    decreases es, 0
  {
    forall i | 0 <= i < |es| :: CleanExpr(m, h, es[i])
  }

  ghost predicate CleanExprArms(m: ModuleRenamer, h: Hygiene, arms: seq<ExprArm>)
    decreases arms, 1
  {
    forall i | 0 <= i < |arms| :: CleanExprArm(m, h, arms[i])
  }

  ghost predicate CleanExprArm(m: ModuleRenamer, h: Hygiene, arm: ExprArm)
    decreases arm, 0
  {
    var ExprArm(pattern, result) := arm;
    CleanPattern(m, h, pattern) && CleanExpr(m, h, result)
  }

  ghost predicate CleanOptional(m: ModuleRenamer, h: Hygiene, e: Option<Expression>)
    decreases e, 0
  {
    match e case None => true case Some(x) => CleanExpr(m, h, x)
  }

  ghost predicate CleanStmtArms(m: ModuleRenamer, h: Hygiene, arms: seq<StmtArm>)
    decreases arms, 1
  {
    forall i | 0 <= i < |arms| :: CleanStmtArm(m, h, arms[i])
  }

  ghost predicate CleanStmtArm(m: ModuleRenamer, h: Hygiene, arm: StmtArm)
    decreases arm, 0
  {
    var StmtArm(pattern, body) := arm;
    CleanPattern(m, h, pattern) && CleanBlock(m, h, body)
  }

  ghost predicate CleanStmt(m: ModuleRenamer, h: Hygiene, s: Statement)
    decreases s, 0
  {
    match s
    case Let(name, _, init, _, _, _) => name in h.names && CleanOptional(m, h, init)
    case Assignment(target, value) =>
      (target.Variable? ==> CleanReference(m, h, target.name)) && CleanExpr(m, h, value)
    case Return(result) => CleanOptional(m, h, result)
    case If(condition, thenBranch, elseBranch) =>
      CleanExpr(m, h, condition) && CleanBlock(m, h, thenBranch) &&
      (match elseBranch case NoElse => true case Else(b) => CleanBlock(m, h, b))
    case While(condition, body) => CleanExpr(m, h, condition) && CleanBlock(m, h, body)
    case For(variable, counter, iterable, body) =>
      CleanLoopName(m, h, variable) && (counter.Some? ==> CleanLoopName(m, h, counter.value)) &&
      CleanExpr(m, h, iterable) && CleanBlock(m, h, body)
    case ExprStmt(expr) => CleanExpr(m, h, expr)
    case Match(subject, arms, default) =>
      CleanExpr(m, h, subject) && CleanBlock(m, h, default) && CleanStmtArms(m, h, arms)
    case _ => true
  }

  ghost predicate CleanBlock(m: ModuleRenamer, h: Hygiene, ss: seq<Statement>)
    decreases ss, 0
  {
    ss == [] || (CleanStmt(m, h, ss[0]) && CleanBlock(m, h, ss[1..]))
  }

  ghost predicate CleanTop(m: ModuleRenamer, h: Hygiene, s: Statement) {
    match s
    case Function(name, typeParams, params, body, _, _, _) =>
      !Reserved(m, name) && ParamNames(params) <= h.names && CleanBlock(m, h, body) &&
      forall t | t in typeParams :: !Movable(m, t)
    case Let(name, _, init, _, _, _) => !Reserved(m, name) && CleanOptional(m, h, init)
    case _ => CleanStmt(m, h, s)
  }

  // ---- invariants of the run

  ghost predicate GoodValue(m: ModuleRenamer, h: Hygiene, v: Value)
    decreases v, 0
  {
    match v
    case ScalarV(_) => true
    case ListV(items) => GoodValues(m, h, items)
    case TaggedV(_, item) => GoodValue(m, h, item)
    case VariantV(enumName, _, payloads) => !Reserved(m, enumName) && GoodValues(m, h, payloads)
    case ClosureV(params, body, env) =>
      Elements(params) <= h.names && CleanBlock(m, h, body) && GoodLocals(m, h, env)
  }

  ghost predicate GoodValues(m: ModuleRenamer, h: Hygiene, vs: seq<Value>)
    decreases vs, 0
  {
    forall i | 0 <= i < |vs| :: GoodValue(m, h, vs[i])
  }

  ghost predicate GoodLocal(m: ModuleRenamer, h: Hygiene, b: Binding)
    decreases b, 0
  {
    var Binding(name, value) := b;
    name in h.names && GoodValue(m, h, value)
  }

  ghost predicate GoodLocals(m: ModuleRenamer, h: Hygiene, env: seq<Binding>)
    decreases env, 0
  {
    forall i | 0 <= i < |env| :: GoodLocal(m, h, env[i])
  }

  ghost predicate GoodGlobals(m: ModuleRenamer, h: Hygiene, env: seq<Binding>) {
    forall i | 0 <= i < |env| :: !Reserved(m, env[i].name) && GoodValue(m, h, env[i].value)
  }

  ghost predicate GoodState(m: ModuleRenamer, h: Hygiene, st: State) {
    GoodGlobals(m, h, st.globals) && GoodLocals(m, h, st.locals)
  }

  /** The renamer's scope and the run's locals shadow the same module symbols. */
  ghost predicate Agree(m: ModuleRenamer, scope: set<string>, st: State) {
    SameShadow(m, scope, Elements(NameSeq(st.locals)))
  }

  ghost predicate Ready(m: ModuleRenamer, h: Hygiene, scope: set<string>, st: State) {
    (forall b | b in h.names :: !Reserved(m, b)) && GoodState(m, h, st) && Agree(m, scope, st)
  }

  // ---- what one step of the simulation says

  ghost predicate SimValue(m: ModuleRenamer, h: Hygiene, st: State, o: Eval<Value>, r: Eval<Value>) {
    match o
    case Stuck => h.strict ==> r == Stuck
    case Timeout => r == Timeout
    case Done(v, st1) =>
      r == Done(RenValue(m, v), RenState(m, st1)) &&
      GoodValue(m, h, v) && GoodState(m, h, st1) && NameSeq(st1.locals) == NameSeq(st.locals)
  }

  ghost predicate SimValues(m: ModuleRenamer, h: Hygiene, st: State,
                            o: Eval<seq<Value>>, r: Eval<seq<Value>>) {
    match o
    case Stuck => h.strict ==> r == Stuck
    case Timeout => r == Timeout
    case Done(vs, st1) =>
      r == Done(RenValues(m, vs), RenState(m, st1)) &&
      GoodValues(m, h, vs) && GoodState(m, h, st1) && NameSeq(st1.locals) == NameSeq(st.locals)
  }

  ghost predicate GoodControl(m: ModuleRenamer, h: Hygiene, c: Control) {
    c.Returned? ==> GoodValue(m, h, c.value)
  }

  /** A statement that leaves the stack of locals as it found it. */
  ghost predicate SimControl(m: ModuleRenamer, h: Hygiene, st: State, o: Eval<Control>, r: Eval<Control>) {
    match o
    case Stuck => h.strict ==> r == Stuck
    case Timeout => r == Timeout
    case Done(c, st1) =>
      r == Done(RenControl(m, c), RenState(m, st1)) &&
      GoodControl(m, h, c) && GoodState(m, h, st1) && NameSeq(st1.locals) == NameSeq(st.locals)
  }

  /** Any statement: a `let` pushes its name. */
  ghost predicate SimStatement(m: ModuleRenamer, h: Hygiene, st: State, s: Statement,
                               o: Eval<Control>, r: Eval<Control>) {
    match o
    case Stuck => h.strict ==> r == Stuck
    case Timeout => r == Timeout
    case Done(c, st1) =>
      r == Done(RenControl(m, c), RenState(m, st1)) &&
      GoodControl(m, h, c) && GoodState(m, h, st1) &&
      NameSeq(st1.locals) == NameSeq(st.locals) + (if s.Let? then [s.name] else [])
  }

  /** A block may leave more on the stack, never less. */
  ghost predicate SimBlock(m: ModuleRenamer, h: Hygiene, st: State, o: Eval<Control>, r: Eval<Control>) {
    match o
    case Stuck => h.strict ==> r == Stuck
    case Timeout => r == Timeout
    case Done(c, st1) =>
      r == Done(RenControl(m, c), RenState(m, st1)) &&
      GoodControl(m, h, c) && GoodState(m, h, st1) &&
      NameSeq(st.locals) <= NameSeq(st1.locals)
  }

  // ---- lookups

  lemma {:induction false} LookupFinds(env: seq<Binding>, name: string)
    ensures 0 <= Lookup(env, name) <==> name in NameSeq(env)
  {
    if env != [] {
      var k := |env| - 1;
      LookupFinds(env[..k], name);
      assert NameSeq(env) == NameSeq(env[..k]) + [env[k].name];
    }
  }

  lemma {:induction false} LookupInLocals(m: ModuleRenamer, env: seq<Binding>, name: string)
    ensures Lookup(RenLocals(m, env), name) == Lookup(env, name)
  {
    if env != [] {
      var k := |env| - 1;
      LookupInLocals(m, env[..k], name);
      assert RenLocals(m, env)[..k] == RenLocals(m, env[..k]);
    }
  }

  lemma {:induction false} LookupInGlobals(m: ModuleRenamer, env: seq<Binding>, name: string)
    requires !Reserved(m, name) && forall i | 0 <= i < |env| :: !Reserved(m, env[i].name)
    ensures Lookup(RenGlobals(m, env), Prefixed(m, name)) == Lookup(env, name)
  {
    if env != [] {
      var k := |env| - 1;
      LookupInGlobals(m, env[..k], name);
      PrefixedInjective(m, env[k].name, name);
      assert RenGlobals(m, env)[..k] == RenGlobals(m, env[..k]);
    }
  }

  lemma LocalNamesBound(m: ModuleRenamer, h: Hygiene, env: seq<Binding>, name: string)
    requires GoodLocals(m, h, env) && name in NameSeq(env)
    ensures name in h.names
  {
    var i :| 0 <= i < |env| && NameSeq(env)[i] == name;
    assert GoodLocal(m, h, env[i]);
  }

  /** A reference finds the same binding before and after renaming: a local is never
      captured by a prefixed name and a shadowed symbol is never prefixed. */
  lemma ResolveRenamed(m: ModuleRenamer, h: Hygiene, scope: set<string>, st: State, name: string)
    requires Ready(m, h, scope, st)
    requires Resolve(st, name).Unbound? ==> !Reserved(m, name)
    ensures Resolve(RenState(m, st), RenameName(m, name, scope)) == Resolve(st, name)
  {
    LookupFinds(st.locals, name);
    LookupInLocals(m, st.locals, name);
    if Lookup(st.locals, name) < 0 {
      LookupInGlobals(m, st.globals, name);
      var renamed := Prefixed(m, name);
      assert RenameName(m, name, scope) == renamed;
      if Movable(m, name) {
        PrefixedIsReserved(m, name);
        LookupFinds(st.locals, renamed);
        LookupInLocals(m, st.locals, renamed);
        if renamed in NameSeq(st.locals) { LocalNamesBound(m, h, st.locals, renamed); }
      }
    }
  }

  lemma ReadRenamed(m: ModuleRenamer, h: Hygiene, st: State, p: Place)
    requires p.Local? ==> p.i < |st.locals|
    requires p.Global? ==> p.j < |st.globals|
    requires !p.Unbound? && GoodState(m, h, st)
    ensures Read(RenState(m, st), p) == RenValue(m, Read(st, p))
    ensures GoodValue(m, h, Read(st, p))
  {
    if p.Local? {
      assert GoodLocal(m, h, st.locals[p.i]);
      assert RenLocals(m, st.locals)[p.i] == RenBinding(m, st.locals[p.i]);
    } else {
      assert RenGlobals(m, st.globals)[p.j].value == RenValue(m, st.globals[p.j].value);
    }
  }

  lemma WriteRenamed(m: ModuleRenamer, h: Hygiene, st: State, p: Place, v: Value)
    requires p.Local? ==> p.i < |st.locals|
    requires p.Global? ==> p.j < |st.globals|
    requires !p.Unbound? && GoodState(m, h, st) && GoodValue(m, h, v)
    ensures Write(RenState(m, st), p, RenValue(m, v)) == RenState(m, Write(st, p, v))
    ensures GoodState(m, h, Write(st, p, v))
    ensures NameSeq(Write(st, p, v).locals) == NameSeq(st.locals)
  {
    var w := Write(st, p, v);
    if p.Local? {
      assert GoodLocal(m, h, st.locals[p.i]);
      assert RenLocals(m, w.locals) == RenLocals(m, st.locals)[p.i := Binding(st.locals[p.i].name, RenValue(m, v))];
    } else {
      assert RenGlobals(m, w.globals)
          == RenGlobals(m, st.globals)[p.j := Binding(Prefixed(m, st.globals[p.j].name), RenValue(m, v))];
    }
  }

  lemma PushRenamed(m: ModuleRenamer, h: Hygiene, scope: set<string>, st: State, bs: seq<Binding>,
                    names: set<string>)
    requires Ready(m, h, scope, st) && GoodLocals(m, h, bs)
    requires forall n :: Movable(m, n) ==> (n in names <==> n in NameSeq(bs))
    ensures Push(RenState(m, st), RenLocals(m, bs)) == RenState(m, Push(st, bs))
    ensures Ready(m, h, scope + names, Push(st, bs))
    ensures NameSeq(Push(st, bs).locals) == NameSeq(st.locals) + NameSeq(bs)
  {
    assert NameSeq(st.locals + bs) == NameSeq(st.locals) + NameSeq(bs);
    assert RenLocals(m, st.locals + bs) == RenLocals(m, st.locals) + RenLocals(m, bs);
  }

  lemma PopRenamed(m: ModuleRenamer, h: Hygiene, st: State, depth: nat)
    requires GoodState(m, h, st)
    ensures Pop(RenState(m, st), depth) == RenState(m, Pop(st, depth))
    ensures GoodState(m, h, Pop(st, depth))
    ensures depth <= |st.locals| ==> NameSeq(Pop(st, depth).locals) == NameSeq(st.locals)[..depth]
  {
    if depth <= |st.locals| {
      assert RenLocals(m, st.locals[..depth]) == RenLocals(m, st.locals)[..depth];
      assert NameSeq(st.locals[..depth]) == NameSeq(st.locals)[..depth];
    }
  }

  // ---- operators and patterns

  lemma OperatorRenamed(m: ModuleRenamer, h: Hygiene, op: Operator, vs: seq<Value>)
    requires GoodValues(m, h, vs)
    ensures ApplyOperator(op, vs).None? ==> ApplyOperator(op, RenValues(m, vs)).None?
    ensures ApplyOperator(op, vs).Some? ==>
      ApplyOperator(op, RenValues(m, vs)) == Some(RenValue(m, ApplyOperator(op, vs).value)) &&
      GoodValue(m, h, ApplyOperator(op, vs).value)
  {
    var rs := RenValues(m, vs);
    if |vs| > 0 { assert rs[0] == RenValue(m, vs[0]) && GoodValue(m, h, vs[0]); }
    if |vs| > 1 { assert rs[1] == RenValue(m, vs[1]); }
    if op.IndexOf? && ApplyOperator(op, vs).Some? {
      var items, i := vs[0].items, vs[1].scalar.i;
      assert GoodValues(m, h, items);
      assert GoodValue(m, h, items[i]) && RenValues(m, items)[i] == RenValue(m, items[i]);
    }
  }

  function RenMatching(m: ModuleRenamer, r: Matching): Matching {
    match r case Matched(bs) => Matched(RenLocals(m, bs)) case _ => r
  }

  function PayloadNames(payloads: seq<Expression>): set<string> {
    set p | p in payloads && p.Identifier? :: p.name
  }

  lemma {:induction false} PayloadsRenamed(m: ModuleRenamer, h: Hygiene, scope: set<string>,
                                           payloads: seq<Expression>, vs: seq<Value>)
    requires |payloads| == |vs| && GoodValues(m, h, vs) && PayloadNames(payloads) <= h.names
    ensures MatchPayloads(RenamePayloads(m, payloads, scope), RenValues(m, vs))
         == RenMatching(m, MatchPayloads(payloads, vs))
    ensures MatchPayloads(payloads, vs).Matched? ==>
      GoodLocals(m, h, MatchPayloads(payloads, vs).bindings) &&
      Elements(NameSeq(MatchPayloads(payloads, vs).bindings)) == PayloadNames(payloads)
  {
    if payloads != [] {
      PayloadNamesCons(payloads);
      PayloadsRenamed(m, h, scope, payloads[1..], vs[1..]);
      assert RenamePayloads(m, payloads, scope)[1..] == RenamePayloads(m, payloads[1..], scope);
      assert RenValues(m, vs)[1..] == RenValues(m, vs[1..]);
      assert RenValues(m, vs)[0] == RenValue(m, vs[0]);
      var rest := MatchPayloads(payloads[1..], vs[1..]);
      RenameKeepsLeaves(m, payloads[0], scope);
      if payloads[0].Identifier? && rest.Matched? {
        BindingInFront(m, h, Binding(payloads[0].name, vs[0]), rest.bindings);
      }
    }
  }

  lemma PayloadNamesCons(payloads: seq<Expression>)
    requires payloads != []
    ensures PayloadNames(payloads) == PayloadNames(payloads[1..]) +
                                      (if payloads[0].Identifier? then {payloads[0].name} else {})
  {
    assert payloads == [payloads[0]] + payloads[1..];
  }

  lemma BindingInFront(m: ModuleRenamer, h: Hygiene, b: Binding, bs: seq<Binding>)
    requires b.name in h.names && GoodValue(m, h, b.value) && GoodLocals(m, h, bs)
    ensures GoodLocals(m, h, [b] + bs)
    ensures RenLocals(m, [b] + bs) == [Binding(b.name, RenValue(m, b.value))] + RenLocals(m, bs)
    ensures Elements(NameSeq([b] + bs)) == {b.name} + Elements(NameSeq(bs))
  {
    assert GoodLocal(m, h, b);
    assert NameSeq([b] + bs) == [b.name] + NameSeq(bs);
  }

  lemma OneBinding(m: ModuleRenamer, h: Hygiene, name: string, v: Value)
    requires name in h.names && GoodValue(m, h, v)
    ensures GoodLocals(m, h, [Binding(name, v)])
    ensures RenLocals(m, [Binding(name, v)]) == [Binding(name, RenValue(m, v))]
    ensures NameSeq([Binding(name, v)]) == [name]
  {
    assert GoodLocal(m, h, Binding(name, v));
  }

  lemma PatternRenamed(m: ModuleRenamer, h: Hygiene, scope: set<string>, st: State,
                       p: Expression, v: Value)
    requires Ready(m, h, scope, st) && CleanPattern(m, h, p) && GoodValue(m, h, v)
    ensures MatchPattern(RenamePattern(m, p, scope), RenValue(m, v)) == RenMatching(m, MatchPattern(p, v))
    ensures MatchPattern(p, v).Matched? ==>
      var bs := MatchPattern(p, v).bindings;
      GoodLocals(m, h, bs) && Elements(NameSeq(bs)) == PatternBindings(RenamePattern(m, p, scope))
  {
    match p
    case Literal(_) =>
    case VariantPath(enumName, variant, _) =>
      EnumRenamed(m, h, scope, st, enumName);
      if v.VariantV? { PrefixedInjective(m, enumName, v.enumName); }
    case Variant(enumName, variant, payloads, ty) =>
      EnumRenamed(m, h, scope, st, enumName);
      if v.VariantV? {
        PrefixedInjective(m, enumName, v.enumName);
        if v.enumName == enumName && v.variant == variant && |v.payloads| == |payloads| {
          PayloadsRenamed(m, h, scope, payloads, v.payloads);
          PatternBindingsKept(m, scope, payloads);
        }
      }
    case _ => RenameKeepsPatterns(m, p, scope);
  }

  lemma RenameKeepsLeaves(m: ModuleRenamer, e: Expression, scope: set<string>)
    ensures RenameExpr(m, e, scope).Identifier? <==> e.Identifier?
    ensures RenameExpr(m, e, scope).Literal? <==> e.Literal?
  {
    match e case _ =>
  }

  lemma RenameKeepsPatterns(m: ModuleRenamer, p: Expression, scope: set<string>)
    requires !p.Literal? && !p.VariantPath? && !p.Variant?
    ensures var r := RenamePattern(m, p, scope); !r.Literal? && !r.VariantPath? && !r.Variant?
  {
    match p case _ =>
  }

  lemma PatternBindingsKept(m: ModuleRenamer, scope: set<string>, payloads: seq<Expression>)
    ensures PayloadNames(RenamePayloads(m, payloads, scope)) == PayloadNames(payloads)
  {
    var r := RenamePayloads(m, payloads, scope);
    forall p | p in r && p.Identifier? ensures p.name in PayloadNames(payloads) {
      var i :| 0 <= i < |r| && r[i] == p;
      RenameKeepsLeaves(m, payloads[i], scope);
      assert payloads[i] == p;
    }
    forall p | p in payloads && p.Identifier? ensures p.name in PayloadNames(r) {
      var i :| 0 <= i < |payloads| && payloads[i] == p;
      assert r[i] == p;
    }
  }

  lemma EnumRenamed(m: ModuleRenamer, h: Hygiene, scope: set<string>, st: State, enumName: string)
    requires Ready(m, h, scope, st) && CleanEnum(m, h, enumName)
    ensures RenameName(m, enumName, scope) == Prefixed(m, enumName)
  {
    if Movable(m, enumName) && enumName in scope {
      LocalNamesBound(m, h, st.locals, enumName);
    }
  }

  // ---- the simulation, by induction on the fuel

  lemma {:induction false} SimExpr(m: ModuleRenamer, h: Hygiene, scope: set<string>,
                                   fuel: nat, e: Expression, st: State)
    requires Ready(m, h, scope, st) && CleanExpr(m, h, e)
    ensures SimValue(m, h, st, EvalExpr(fuel, e, st), EvalExpr(fuel, RenameExpr(m, e, scope), RenState(m, st)))
    decreases fuel, 1
  {
    hide RenameBlock, RenameExprArms, CleanBlock, CleanExprs, CleanExprArms, EvalExprs, EvalArms;
    if fuel == 0 { return; }
    match e
    case Node(op, children, _) =>
      SimExprs(m, h, scope, fuel - 1, children, st);
      var r := EvalExprs(fuel - 1, children, st);
      if r.Done? { OperatorRenamed(m, h, op, r.value); }
    case Call(_, _, _, _) => SimCall(m, h, scope, fuel, e, st);
    case Closure(params, body, _, _) => SimClosure(m, h, scope, params, body, st);
    case MatchExpr(subject, arms, default, _) =>
      SimExpr(m, h, scope, fuel - 1, subject, st);
      var r := EvalExpr(fuel - 1, subject, st);
      if r.Done? { SimArms(m, h, scope, fuel - 1, r.value, arms, default, r.state); }
    case Variant(enumName, _, payloads, _) =>
      EnumRenamed(m, h, scope, st, enumName);
      SimExprs(m, h, scope, fuel - 1, payloads, st);
    case _ => SimLeaf(m, h, scope, fuel, e, st);
  }

  lemma SimLeaf(m: ModuleRenamer, h: Hygiene, scope: set<string>, fuel: nat, e: Expression, st: State)
    requires Ready(m, h, scope, st) && CleanExpr(m, h, e) && 0 < fuel
    requires e.Literal? || e.Identifier? || e.VariantPath? || e.Ascription? || e.UseMacro? || e.MacroCall?
    ensures SimValue(m, h, st, EvalExpr(fuel, e, st), EvalExpr(fuel, RenameExpr(m, e, scope), RenState(m, st)))
  {
    match e
    case Identifier(name, _) =>
      var p := Resolve(st, name);
      if !p.Unbound? || h.strict { ResolveRenamed(m, h, scope, st, name); }
      if !p.Unbound? { ReadRenamed(m, h, st, p); }
    case VariantPath(enumName, _, _) => EnumRenamed(m, h, scope, st, enumName);
    case _ =>
  }

  lemma {:induction false} SimCall(m: ModuleRenamer, h: Hygiene, scope: set<string>,
                                   fuel: nat, e: Expression, st: State)
    requires Ready(m, h, scope, st) && CleanExpr(m, h, e) && e.Call? && 0 < fuel
    ensures SimValue(m, h, st, EvalExpr(fuel, e, st), EvalExpr(fuel, RenameExpr(m, e, scope), RenState(m, st)))
    decreases fuel, 0
  {
    hide RenameExprs, CleanExprs, EvalExprs, GoodState, RenState, GoodValue, RenValue, Apply, Resolve;
    SimExprs(m, h, scope, fuel - 1, e.args, st);
    var r := EvalExprs(fuel - 1, e.args, st);
    if r.Done? {
      var p := Resolve(r.state, e.callee);
      if !p.Unbound? || h.strict { ResolveRenamed(m, h, scope, r.state, e.callee); }
      if !p.Unbound? {
        ReadRenamed(m, h, r.state, p);
        SimApply(m, h, fuel - 1, Read(r.state, p), r.value, r.state);
      }
    }
  }

  /** A closure's body was renamed under the scope at its creation, which is the
      captured locals plus its parameters. */
  lemma SimClosure(m: ModuleRenamer, h: Hygiene, scope: set<string>,
                   params: seq<Param>, body: seq<Statement>, st: State)
    requires Ready(m, h, scope, st) && ParamNames(params) <= h.names && CleanBlock(m, h, body)
    ensures RenValue(m, ClosureV(Names(params), body, st.locals))
         == ClosureV(Names(RenameParams(m, params, scope)),
                     RenameBlock(m, body, scope + ParamNames(params)), RenLocals(m, st.locals))
    ensures GoodValue(m, h, ClosureV(Names(params), body, st.locals))
  {
    NamesOfParams(params);
    assert Names(RenameParams(m, params, scope)) == Names(params);
    BlockScope(m, body, scope + ParamNames(params),
               Elements(NameSeq(st.locals)) + Elements(Names(params)));
  }

  lemma NamesOfParams(params: seq<Param>)
    ensures Elements(Names(params)) == ParamNames(params)
  {
    forall n | n in ParamNames(params) ensures n in Names(params) {
      var p :| p in params && p.name == n;
      var i :| 0 <= i < |params| && params[i] == p;
      assert Names(params)[i] == n;
    }
  }

  lemma {:induction false} SimExprs(m: ModuleRenamer, h: Hygiene, scope: set<string>,
                                    fuel: nat, es: seq<Expression>, st: State)
    requires Ready(m, h, scope, st) && CleanExprs(m, h, es)
    ensures SimValues(m, h, st, EvalExprs(fuel, es, st),
                      EvalExprs(fuel, RenameExprs(m, es, scope), RenState(m, st)))
    decreases fuel, 1
  {
    hide RenameExpr, CleanExpr, EvalExpr, GoodState, RenState;
    if fuel == 0 || es == [] { return; }
    SimExpr(m, h, scope, fuel - 1, es[0], st);
    assert RenameExprs(m, es, scope)[1..] == RenameExprs(m, es[1..], scope);
    var r := EvalExpr(fuel - 1, es[0], st);
    if r.Done? {
      SimExprs(m, h, scope, fuel - 1, es[1..], r.state);
      var rest := EvalExprs(fuel - 1, es[1..], r.state);
      if rest.Done? {
        assert RenValues(m, [r.value] + rest.value) == [RenValue(m, r.value)] + RenValues(m, rest.value);
      }
    }
  }

  lemma {:induction false} SimArms(m: ModuleRenamer, h: Hygiene, scope: set<string>, fuel: nat,
                                   v: Value, arms: seq<ExprArm>, default: Expression, st: State)
    requires Ready(m, h, scope, st) && GoodValue(m, h, v)
    requires CleanExprArms(m, h, arms) && CleanExpr(m, h, default)
    ensures SimValue(m, h, st, EvalArms(fuel, v, arms, default, st),
                     EvalArms(fuel, RenValue(m, v), RenameExprArms(m, arms, scope),
                              RenameExpr(m, default, scope), RenState(m, st)))
    decreases fuel, 1
  {
    hide RenameExpr, CleanExpr, EvalExpr, GoodState, RenState, RenamePattern, MatchPattern;
    if fuel == 0 { return; }
    if arms == [] {
      SimExpr(m, h, scope, fuel - 1, default, st);
    } else {
      var ExprArm(pattern, result) := arms[0];
      assert CleanExprArm(m, h, arms[0]);
      var found := MatchPattern(pattern, v);
      var renamed := RenameExprArms(m, arms, scope);
      assert renamed[0] == RenameExprArm(m, arms[0], scope);
      assert renamed[1..] == RenameExprArms(m, arms[1..], scope);
      PatternRenamed(m, h, scope, st, pattern, v);
      if found.Mismatch? {
        SimArms(m, h, scope, fuel - 1, v, arms[1..], default, st);
      } else if found.Matched? {
        SimBound(m, h, scope, fuel - 1, found.bindings,
                 PatternBindings(RenamePattern(m, pattern, scope)), result, st);
      }
    }
  }

  lemma {:induction false} SimBound(m: ModuleRenamer, h: Hygiene, scope: set<string>, fuel: nat,
                                    bs: seq<Binding>, names: set<string>, e: Expression, st: State)
    requires Ready(m, h, scope, st) && CleanExpr(m, h, e) && GoodLocals(m, h, bs)
    requires forall n :: Movable(m, n) ==> (n in names <==> n in NameSeq(bs))
    ensures SimValue(m, h, st, EvalBound(fuel, e, bs, st),
                     EvalBound(fuel, RenameExpr(m, e, scope + names), RenLocals(m, bs), RenState(m, st)))
    decreases fuel, 1
  {
    hide RenameExpr, CleanExpr, EvalExpr, GoodValue, RenValue;
    if fuel == 0 { return; }
    PushRenamed(m, h, scope, st, bs, names);
    var inner := Push(st, bs);
    SimExpr(m, h, scope + names, fuel - 1, e, inner);
    var r := EvalExpr(fuel - 1, e, inner);
    if r.Done? { PopRenamed(m, h, r.state, |st.locals|); }
  }

  lemma {:induction false} SimApply(m: ModuleRenamer, h: Hygiene, fuel: nat,
                                    f: Value, args: seq<Value>, st: State)
    requires (forall b | b in h.names :: !Reserved(m, b)) && GoodState(m, h, st)
    requires GoodValue(m, h, f) && GoodValues(m, h, args)
    ensures SimValue(m, h, st, Apply(fuel, f, args, st),
                     Apply(fuel, RenValue(m, f), RenValues(m, args), RenState(m, st)))
    decreases fuel, 1
  {
    if fuel == 0 || !f.ClosureV? || |f.params| != |args| { return; }
    var bs := BindParams(f.params, args);
    ParamsBound(m, h, f.params, args);
    var callee := State(st.globals, f.env);
    var captured := Elements(NameSeq(f.env));
    assert Ready(m, h, captured, callee);
    PushRenamed(m, h, captured, callee, bs, Elements(f.params));
    SimBlockExec(m, h, captured + Elements(f.params), fuel - 1, f.body, Push(callee, bs));
  }

  lemma ParamsBound(m: ModuleRenamer, h: Hygiene, params: seq<string>, args: seq<Value>)
    requires |params| == |args| && Elements(params) <= h.names && GoodValues(m, h, args)
    ensures GoodLocals(m, h, BindParams(params, args))
    ensures RenLocals(m, BindParams(params, args)) == BindParams(params, RenValues(m, args))
    ensures NameSeq(BindParams(params, args)) == params
  {
    var bs := BindParams(params, args);
    forall i | 0 <= i < |bs| ensures GoodLocal(m, h, bs[i]) { assert params[i] in Elements(params); }
  }

  lemma {:induction false} SimStmt(m: ModuleRenamer, h: Hygiene, scope: set<string>,
                                   fuel: nat, s: Statement, st: State)
    requires Ready(m, h, scope, st) && CleanStmt(m, h, s)
    ensures SimStatement(m, h, st, s, ExecStmt(fuel, s, st),
                       ExecStmt(fuel, RenameStmt(m, s, scope, false), RenState(m, st)))
    decreases fuel, 3
  {
    hide CleanExpr, CleanBlock, RenameExpr, RenameBlock, EvalExpr, EvalOptional, GoodState, RenState;
    if fuel == 0 { return; }
    match s
    case Let(_, _, _, _, _, _) => SimLet(m, h, scope, fuel, s, st);
    case Assignment(_, _) => SimAssignment(m, h, scope, fuel, s, st);
    case Return(result) => SimOptional(m, h, scope, fuel - 1, result, st);
    case ExprStmt(expr) => SimExpr(m, h, scope, fuel - 1, expr, st);
    case _ => SimCompound(m, h, scope, fuel, s, st);
  }

  lemma {:induction false} SimLet(m: ModuleRenamer, h: Hygiene, scope: set<string>,
                                  fuel: nat, s: Statement, st: State)
    requires Ready(m, h, scope, st) && CleanStmt(m, h, s) && s.Let? && 0 < fuel
    ensures SimStatement(m, h, st, s, ExecStmt(fuel, s, st),
                         ExecStmt(fuel, RenameStmt(m, s, scope, false), RenState(m, st)))
    decreases fuel, 1
  {
    SimOptional(m, h, scope, fuel - 1, s.init, st);
    var r := EvalOptional(fuel - 1, s.init, st);
    if r.Done? {
      OneBinding(m, h, s.name, r.value);
      PushRenamed(m, h, scope, r.state, [Binding(s.name, r.value)], {s.name});
    }
  }

  lemma {:induction false} SimAssignment(m: ModuleRenamer, h: Hygiene, scope: set<string>,
                                         fuel: nat, s: Statement, st: State)
    requires Ready(m, h, scope, st) && CleanStmt(m, h, s) && s.Assignment? && 0 < fuel
    ensures SimControl(m, h, st, ExecStmt(fuel, s, st),
                       ExecStmt(fuel, RenameStmt(m, s, scope, false), RenState(m, st)))
    decreases fuel, 1
  {
    SimExpr(m, h, scope, fuel - 1, s.value, st);
    var r := EvalExpr(fuel - 1, s.value, st);
    if s.target.Variable? && r.Done? {
      var p := Resolve(r.state, s.target.name);
      if !p.Unbound? || h.strict { ResolveRenamed(m, h, scope, r.state, s.target.name); }
      if !p.Unbound? { WriteRenamed(m, h, r.state, p, r.value); }
    }
  }

  lemma {:induction false} SimCompound(m: ModuleRenamer, h: Hygiene, scope: set<string>,
                                       fuel: nat, s: Statement, st: State)
    requires Ready(m, h, scope, st) && CleanStmt(m, h, s) && 0 < fuel
    requires !s.Let? && !s.Assignment? && !s.Return? && !s.ExprStmt?
    ensures SimControl(m, h, st, ExecStmt(fuel, s, st),
                       ExecStmt(fuel, RenameStmt(m, s, scope, false), RenState(m, st)))
    decreases fuel, 2
  {
    hide ExecStmt, RenameStmt, CleanStmt, SimControl, Ready;
    match s
    case If(_, _, _) => SimIf(m, h, scope, fuel, s, st);
    case While(_, _) => SimRepetition(m, h, scope, fuel, s, st);
    case For(_, _, _, _) => SimForEach(m, h, scope, fuel, s, st);
    case Match(_, _, _) => SimMatch(m, h, scope, fuel, s, st);
    case _ => SimJump(m, h, scope, fuel, s, st);
  }

  /** `break`, `continue`, and the statements that do not run. */
  lemma SimJump(m: ModuleRenamer, h: Hygiene, scope: set<string>, fuel: nat, s: Statement, st: State)
    requires Ready(m, h, scope, st) && 0 < fuel
    requires !s.Let? && !s.Assignment? && !s.Return? && !s.ExprStmt?
    requires !s.If? && !s.While? && !s.For? && !s.Match?
    ensures SimControl(m, h, st, ExecStmt(fuel, s, st),
                       ExecStmt(fuel, RenameStmt(m, s, scope, false), RenState(m, st)))
  {
  }

  lemma {:induction false} SimRepetition(m: ModuleRenamer, h: Hygiene, scope: set<string>,
                                         fuel: nat, s: Statement, st: State)
    requires Ready(m, h, scope, st) && CleanStmt(m, h, s) && 0 < fuel && s.While?
    ensures SimControl(m, h, st, ExecStmt(fuel, s, st),
                       ExecStmt(fuel, RenameStmt(m, s, scope, false), RenState(m, st)))
    decreases fuel, 1
  {
    SimWhile(m, h, scope, fuel - 1, s.condition, s.body, st);
  }

  lemma {:induction false} SimMatch(m: ModuleRenamer, h: Hygiene, scope: set<string>,
                                    fuel: nat, s: Statement, st: State)
    requires Ready(m, h, scope, st) && CleanStmt(m, h, s) && 0 < fuel && s.Match?
    ensures SimControl(m, h, st, ExecStmt(fuel, s, st),
                       ExecStmt(fuel, RenameStmt(m, s, scope, false), RenState(m, st)))
    decreases fuel, 1
  {
    hide RenameExpr, RenameBlock, CleanExpr, CleanBlock, EvalExpr, ExecArms, GoodState, RenState, RenameStmtArms, CleanStmtArms;
    SimExpr(m, h, scope, fuel - 1, s.subject, st);
    var r := EvalExpr(fuel - 1, s.subject, st);
    if r.Done? { SimStmtArms(m, h, scope, fuel - 1, r.value, s.arms, s.default, r.state); }
  }

  lemma {:induction false} SimForEach(m: ModuleRenamer, h: Hygiene, scope: set<string>,
                                      fuel: nat, s: Statement, st: State)
    requires Ready(m, h, scope, st) && CleanStmt(m, h, s) && 0 < fuel && s.For?
    ensures SimControl(m, h, st, ExecStmt(fuel, s, st),
                       ExecStmt(fuel, RenameStmt(m, s, scope, false), RenState(m, st)))
    decreases fuel, 1
  {
    hide RenameExpr, RenameBlock, CleanExpr, CleanBlock, EvalExpr, ExecFor, GoodState, RenState;
    SimExpr(m, h, scope, fuel - 1, s.iterable, st);
    var r := EvalExpr(fuel - 1, s.iterable, st);
    if r.Done? && r.value.ListV? {
      SimFor(m, h, scope, fuel - 1, s.variable, s.counter, r.value.items, 0, s.body, r.state);
    }
  }

  lemma {:induction false} SimIf(m: ModuleRenamer, h: Hygiene, scope: set<string>,
                                 fuel: nat, s: Statement, st: State)
    requires Ready(m, h, scope, st) && CleanStmt(m, h, s) && 0 < fuel && s.If?
    ensures SimControl(m, h, st, ExecStmt(fuel, s, st),
                       ExecStmt(fuel, RenameStmt(m, s, scope, false), RenState(m, st)))
    decreases fuel, 1
  {
    hide RenameExpr, RenameBlock, CleanExpr, CleanBlock, EvalExpr, ExecScoped, GoodState, RenState;
    SimExpr(m, h, scope, fuel - 1, s.condition, st);
    var r := EvalExpr(fuel - 1, s.condition, st);
    if r.Done? {
      SimScoped(m, h, scope, fuel - 1, s.thenBranch, [], {}, r.state);
      if s.elseBranch.Else? { SimScoped(m, h, scope, fuel - 1, s.elseBranch.body, [], {}, r.state); }
    }
  }

  lemma {:induction false} SimOptional(m: ModuleRenamer, h: Hygiene, scope: set<string>,
                                       fuel: nat, e: Option<Expression>, st: State)
    requires Ready(m, h, scope, st) && CleanOptional(m, h, e)
    ensures SimValue(m, h, st, EvalOptional(fuel, e, st),
                     EvalOptional(fuel, RenameOptionalExpr(m, e, scope), RenState(m, st)))
    decreases fuel, 1
  {
    if fuel == 0 { return; }
    match e case None => case Some(x) => SimExpr(m, h, scope, fuel - 1, x, st);
  }

  lemma {:induction false} SimBlockExec(m: ModuleRenamer, h: Hygiene, scope: set<string>,
                                        fuel: nat, ss: seq<Statement>, st: State)
    requires Ready(m, h, scope, st) && CleanBlock(m, h, ss)
    ensures SimBlock(m, h, st, ExecBlock(fuel, ss, st),
                     ExecBlock(fuel, RenameBlock(m, ss, scope), RenState(m, st)))
    decreases fuel, 1
  {
    if fuel == 0 || ss == [] { return; }
    SimStmt(m, h, scope, fuel - 1, ss[0], st);
    var r := ExecStmt(fuel - 1, ss[0], st);
    if r.Done? && r.value.Normal? {
      var head := RenameStmt(m, ss[0], scope, false);
      ScopeAfter(m, h, scope, ss[0], st, r.state);
      SimBlockExec(m, h, scope + StatementBindings(head), fuel - 1, ss[1..], r.state);
    }
  }

  /** What the renamer adds to the scope after a statement is what the statement left
      on the stack, as far as module symbols can tell. */
  lemma ScopeAfter(m: ModuleRenamer, h: Hygiene, scope: set<string>, s: Statement, st: State, st1: State)
    requires Ready(m, h, scope, st) && CleanStmt(m, h, s) && GoodState(m, h, st1)
    requires s.Let? || s.Assignment? || s.Return? || s.If? || s.While? || s.For? || s.ExprStmt? || s.Break?
          || s.Continue? || s.Match?
    requires NameSeq(st1.locals) == NameSeq(st.locals) + (if s.Let? then [s.name] else [])
    ensures Ready(m, h, scope + StatementBindings(RenameStmt(m, s, scope, false)), st1)
  {
    match s case _ =>
  }

  lemma {:induction false} SimScoped(m: ModuleRenamer, h: Hygiene, scope: set<string>, fuel: nat,
                                     ss: seq<Statement>, bs: seq<Binding>, names: set<string>, st: State)
    requires Ready(m, h, scope, st) && CleanBlock(m, h, ss) && GoodLocals(m, h, bs)
    requires forall n :: Movable(m, n) ==> (n in names <==> n in NameSeq(bs))
    ensures SimControl(m, h, st, ExecScoped(fuel, ss, bs, st),
                       ExecScoped(fuel, RenameBlock(m, ss, scope + names), RenLocals(m, bs), RenState(m, st)))
    ensures names == {} ==> RenameBlock(m, ss, scope + names) == RenameBlock(m, ss, scope)
    ensures bs == [] ==> RenLocals(m, bs) == []
    decreases fuel, 1
  {
    assert names == {} ==> scope + names == scope;
    if fuel == 0 { return; }
    PushRenamed(m, h, scope, st, bs, names);
    var inner := Push(st, bs);
    SimBlockExec(m, h, scope + names, fuel - 1, ss, inner);
    var r := ExecBlock(fuel - 1, ss, inner);
    if r.Done? {
      PopRenamed(m, h, r.state, |st.locals|);
      assert |NameSeq(st.locals)| <= |NameSeq(r.state.locals)|;
    }
  }

  lemma {:induction false} SimStmtArms(m: ModuleRenamer, h: Hygiene, scope: set<string>, fuel: nat,
                                       v: Value, arms: seq<StmtArm>, default: seq<Statement>, st: State)
    requires Ready(m, h, scope, st) && GoodValue(m, h, v)
    requires CleanStmtArms(m, h, arms) && CleanBlock(m, h, default)
    ensures SimControl(m, h, st, ExecArms(fuel, v, arms, default, st),
                       ExecArms(fuel, RenValue(m, v), RenameStmtArms(m, arms, scope),
                                RenameBlock(m, default, scope), RenState(m, st)))
    decreases fuel, 1
  {
    hide RenameBlock, CleanBlock, ExecScoped, GoodState, RenState, RenControl, RenamePattern, MatchPattern;
    if fuel == 0 { return; }
    if arms == [] {
      SimScoped(m, h, scope, fuel - 1, default, [], {}, st);
    } else {
      var StmtArm(pattern, body) := arms[0];
      assert CleanStmtArm(m, h, arms[0]);
      var found := MatchPattern(pattern, v);
      var renamed := RenameStmtArms(m, arms, scope);
      assert renamed[0] == RenameStmtArm(m, arms[0], scope);
      assert renamed[1..] == RenameStmtArms(m, arms[1..], scope);
      PatternRenamed(m, h, scope, st, pattern, v);
      if found.Mismatch? {
        SimStmtArms(m, h, scope, fuel - 1, v, arms[1..], default, st);
      } else if found.Matched? {
        SimScoped(m, h, scope, fuel - 1, body, found.bindings,
                  PatternBindings(RenamePattern(m, pattern, scope)), st);
      }
    }
  }

  lemma {:induction false} SimWhile(m: ModuleRenamer, h: Hygiene, scope: set<string>, fuel: nat,
                                    condition: Expression, body: seq<Statement>, st: State)
    requires Ready(m, h, scope, st) && CleanExpr(m, h, condition) && CleanBlock(m, h, body)
    ensures SimControl(m, h, st, ExecWhile(fuel, condition, body, st),
                       ExecWhile(fuel, RenameExpr(m, condition, scope), RenameBlock(m, body, scope),
                                 RenState(m, st)))
    decreases fuel, 1
  {
    hide RenameExpr, RenameBlock, CleanExpr, CleanBlock, EvalExpr, RepeatWhile, GoodState, RenState;
    if fuel == 0 { return; }
    SimExpr(m, h, scope, fuel - 1, condition, st);
    var r := EvalExpr(fuel - 1, condition, st);
    if r.Done? && r.value == ScalarV(BoolLit(true)) {
      SimRepeat(m, h, scope, fuel - 1, condition, body, r.state);
    }
  }

  lemma {:induction false} SimRepeat(m: ModuleRenamer, h: Hygiene, scope: set<string>, fuel: nat,
                                     condition: Expression, body: seq<Statement>, st: State)
    requires Ready(m, h, scope, st) && CleanExpr(m, h, condition) && CleanBlock(m, h, body)
    ensures SimControl(m, h, st, RepeatWhile(fuel, condition, body, st),
                       RepeatWhile(fuel, RenameExpr(m, condition, scope), RenameBlock(m, body, scope),
                                   RenState(m, st)))
    decreases fuel, 1
  {
    hide RenameExpr, RenameBlock, CleanExpr, CleanBlock, ExecScoped, ExecWhile, GoodState, RenState;
    if fuel == 0 { return; }
    SimScoped(m, h, scope, fuel - 1, body, [], {}, st);
    var once := ExecScoped(fuel - 1, body, [], st);
    if once.Done? { SimWhile(m, h, scope, fuel - 1, condition, body, once.state); }
  }

  lemma {:induction false} SimFor(m: ModuleRenamer, h: Hygiene, scope: set<string>, fuel: nat,
                                  variable: string, counter: Option<string>, items: seq<Value>, k: nat,
                                  body: seq<Statement>, st: State)
    requires Ready(m, h, scope, st) && CleanBlock(m, h, body) && GoodValues(m, h, items)
    requires CleanLoopName(m, h, variable) && (counter.Some? ==> CleanLoopName(m, h, counter.value))
    ensures SimControl(m, h, st, ExecFor(fuel, variable, counter, items, k, body, st),
                       ExecFor(fuel, variable, counter, RenValues(m, items), k,
                               RenameBlock(m, body, scope + ({variable} + CounterName(counter))), RenState(m, st)))
    decreases fuel, 1
  {
    if fuel == 0 { return; }
    if k < |items| { SimForRound(m, h, scope, fuel - 1, variable, counter, items, k, body, st); }
  }

  lemma {:induction false} SimForRound(m: ModuleRenamer, h: Hygiene, scope: set<string>, fuel: nat,
                                       variable: string, counter: Option<string>, items: seq<Value>, k: nat,
                                       body: seq<Statement>, st: State)
    requires Ready(m, h, scope, st) && CleanBlock(m, h, body) && GoodValues(m, h, items)
    requires CleanLoopName(m, h, variable) && (counter.Some? ==> CleanLoopName(m, h, counter.value))
    requires k < |items|
    ensures SimControl(m, h, st, RepeatFor(fuel, variable, counter, items, k, body, st),
                       RepeatFor(fuel, variable, counter, RenValues(m, items), k,
                                 RenameBlock(m, body, scope + ({variable} + CounterName(counter))), RenState(m, st)))
    decreases fuel, 1
  {
    hide RenameBlock, CleanBlock, ExecScoped, ExecFor, GoodState, RenState;
    if fuel == 0 { return; }
    LoopRenamed(m, h, variable, counter, items[k], k);
    var names := {variable} + CounterName(counter);
    var bs := LoopBindings(variable, counter, items[k], k);
    SimScoped(m, h, scope, fuel - 1, body, bs, names, st);
    var once := ExecScoped(fuel - 1, body, bs, st);
    if once.Done? { SimFor(m, h, scope, fuel - 1, variable, counter, items, k + 1, body, once.state); }
  }

  lemma LoopRenamed(m: ModuleRenamer, h: Hygiene, variable: string, counter: Option<string>,
                    item: Value, k: nat)
    requires CleanLoopName(m, h, variable) && (counter.Some? ==> CleanLoopName(m, h, counter.value))
    requires GoodValue(m, h, item)
    ensures GoodLocals(m, h, LoopBindings(variable, counter, item, k))
    ensures RenLocals(m, LoopBindings(variable, counter, item, k))
         == LoopBindings(variable, counter, RenValue(m, item), k)
    ensures Elements(NameSeq(LoopBindings(variable, counter, item, k))) == {variable} + CounterName(counter)
  {
    OneBinding(m, h, variable, item);
    if counter.Some? {
      var v := ScalarV(IntLit(k));
      OneBinding(m, h, counter.value, v);
      BindingInFront(m, h, Binding(variable, item), [Binding(counter.value, v)]);
      assert Elements([counter.value]) == {counter.value};
    } else {
      assert LoopBindings(variable, counter, item, k) == [Binding(variable, item)];
      assert Elements([variable]) == {variable};
    }
  }

  // ---- whole modules

  function RenameModule(m: ModuleRenamer, ss: seq<Statement>): (r: seq<Statement>)
    ensures |r| == |ss|
  {
    seq(|ss|, i requires 0 <= i < |ss| => RenameStmt(m, ss[i], {}, true))
  }

  lemma SimTop(m: ModuleRenamer, h: Hygiene, fuel: nat, s: Statement, st: State)
    requires forall b | b in h.names :: !Reserved(m, b)
    requires GoodState(m, h, st) && st.locals == [] && CleanTop(m, h, s)
    ensures SimControl(m, h, st, ExecTop(fuel, s, st),
                       ExecTop(fuel, RenameStmt(m, s, {}, true), RenState(m, st)))
  {
    hide RenameStmt, ExecStmt, CleanStmt, GoodState, RenState;
    RenameKeepsKind(m, s);
    if s.Function? {
      SimTopFunction(m, h, fuel, s, st);
    } else if s.Let? {
      SimTopLet(m, h, fuel, s, st);
    } else if s.Move? {
      MoveIsStuck(fuel, s, st);
      MoveIsStuck(fuel, RenameStmt(m, s, {}, true), RenState(m, st));
    } else if !IsDeclaration(s) {
      NoLocals(m, h, st);
      SimStmt(m, h, {}, fuel, s, st);
      TopIsIrrelevant(m, s);
    }
  }

  lemma NoLocals(m: ModuleRenamer, h: Hygiene, st: State)
    requires forall b | b in h.names :: !Reserved(m, b)
    requires GoodState(m, h, st) && st.locals == []
    ensures Ready(m, h, {}, st)
  {
    assert Elements(NameSeq(st.locals)) == {};
  }

  lemma MoveIsStuck(fuel: nat, s: Statement, st: State)
    requires s.Move?
    ensures ExecStmt(fuel, s, st) == if fuel == 0 then Timeout else Stuck
  {
  }

  lemma RenameKeepsKind(m: ModuleRenamer, s: Statement)
    ensures var r := RenameStmt(m, s, {}, true);
      (r.Function? <==> s.Function?) && (r.Let? <==> s.Let?) && (r.Move? <==> s.Move?) &&
      (IsDeclaration(r) <==> IsDeclaration(s))
  {
    match s case _ =>
  }

  lemma SimTopFunction(m: ModuleRenamer, h: Hygiene, fuel: nat, s: Statement, st: State)
    requires forall b | b in h.names :: !Reserved(m, b)
    requires GoodState(m, h, st) && st.locals == [] && CleanTop(m, h, s) && s.Function?
    ensures SimControl(m, h, st, ExecTop(fuel, s, st),
                       ExecTop(fuel, RenameStmt(m, s, {}, true), RenState(m, st)))
  {
    assert Ready(m, h, {}, st);
    SimClosure(m, h, {}, s.params, s.body, st);
    BlockScope(m, s.body, {} + ParamNames(s.params), {} + TypeParamNames(s.typeParams) + ParamNames(s.params));
    GlobalAdded(m, h, st, s.name, ClosureV(Names(s.params), s.body, []));
  }

  lemma SimTopLet(m: ModuleRenamer, h: Hygiene, fuel: nat, s: Statement, st: State)
    requires forall b | b in h.names :: !Reserved(m, b)
    requires GoodState(m, h, st) && st.locals == [] && CleanTop(m, h, s) && s.Let?
    ensures SimControl(m, h, st, ExecTop(fuel, s, st),
                       ExecTop(fuel, RenameStmt(m, s, {}, true), RenState(m, st)))
  {
    assert Ready(m, h, {}, st);
    SimOptional(m, h, {}, fuel, s.init, st);
    var r := EvalOptional(fuel, s.init, st);
    if r.Done? { GlobalAdded(m, h, r.state, s.name, r.value); }
  }

  lemma TopIsIrrelevant(m: ModuleRenamer, s: Statement)
    requires !s.Let? && !s.Function? && !IsDeclaration(s) && !s.Move?
    ensures RenameStmt(m, s, {}, true) == RenameStmt(m, s, {}, false)
  {
    match s case _ =>
  }

  lemma GlobalAdded(m: ModuleRenamer, h: Hygiene, st: State, name: string, v: Value)
    requires GoodState(m, h, st) && !Reserved(m, name) && GoodValue(m, h, v)
    ensures var st1 := st.(globals := st.globals + [Binding(name, v)]);
      GoodState(m, h, st1) &&
      RenState(m, st1) == RenState(m, st).(globals := RenState(m, st).globals
                                                     + [Binding(Prefixed(m, name), RenValue(m, v))])
  {
    assert RenGlobals(m, st.globals + [Binding(name, v)])
        == RenGlobals(m, st.globals) + [Binding(Prefixed(m, name), RenValue(m, v))];
  }

  /** The main result: run from related states, the module and its renaming end alike. */
  lemma {:induction false} RenamingPreservesMeaning(m: ModuleRenamer, h: Hygiene, fuel: nat,
                                                    ss: seq<Statement>, st: State)
    requires forall b | b in h.names :: !Reserved(m, b)
    requires GoodState(m, h, st) && st.locals == []
    requires forall s | s in ss :: CleanTop(m, h, s)
    ensures var o := ExecModule(fuel, ss, st);
      var r := ExecModule(fuel, RenameModule(m, ss), RenState(m, st));
      match o
      case Stuck => h.strict ==> r == Stuck
      case Timeout => r == Timeout
      case Done(c, st1) => r == Done(RenControl(m, c), RenState(m, st1))
  {
    if ss == [] { return; }
    SimTop(m, h, fuel, ss[0], st);
    assert RenameModule(m, ss)[1..] == RenameModule(m, ss[1..]);
    var o := ExecTop(fuel, ss[0], st);
    if o.Done? && o.value.Normal? {
      RenamingPreservesMeaning(m, h, fuel, ss[1..], o.state);
    }
  }

  // ---- loading: statements of several files

  /** The statements of the files loaded under `prefix`, in order. */
  function CodeUnder(statements: seq<Expanded>, prefixOf: string -> string, prefix: string): seq<Statement> {
    if statements == [] then []
    else
      (if prefixOf(statements[0].origin) == prefix then [statements[0].statement] else []) +
      CodeUnder(statements[1..], prefixOf, prefix)
  }

  /** However many prefixes there are: what was loaded under one of them is renamed as one
      module, over everything that the files under that prefix export. */
  lemma LoadedAsOneModule(statements: seq<Expanded>, prefixOf: string -> string, prefix: string, renamed: seq<Expanded>)
    requires prefix != "" && |renamed| == |statements|
    requires forall i | 0 <= i < |renamed| :: renamed[i] == RenameLoaded(statements[i], statements, prefixOf)
    ensures CodeUnder(renamed, prefixOf, prefix) ==
            RenameModule(ModuleRenamer(prefix, ExportedUnder(statements, prefixOf, prefix)),
                         CodeUnder(statements, prefixOf, prefix))
  {
    RenamedUnder(statements, statements, prefixOf, prefix, renamed);
  }

  lemma {:induction false} RenamedUnder(all: seq<Expanded>, part: seq<Expanded>, prefixOf: string -> string,
                                        prefix: string, renamed: seq<Expanded>)
    requires prefix != "" && |renamed| == |part|
    requires forall i | 0 <= i < |renamed| :: renamed[i] == RenameLoaded(part[i], all, prefixOf)
    ensures CodeUnder(renamed, prefixOf, prefix) ==
            RenameModule(ModuleRenamer(prefix, ExportedUnder(all, prefixOf, prefix)), CodeUnder(part, prefixOf, prefix))
  {
    hide RenameStmt, ExportedUnder;
    if part != [] {
      RenamedUnder(all, part[1..], prefixOf, prefix, renamed[1..]);
      assert renamed[0] == RenameLoaded(part[0], all, prefixOf);
    }
  }
}
