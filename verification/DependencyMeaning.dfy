/**
  What the collected names mean: a run depends on the globals only through the names its
  code can look up and, for the functions it can reach, the names their bodies look up.
*/
module DependencyMeaning {
  import opened Wrappers
  import opened Ast
  import opened Text
  import opened Semantics
  import opened Dependencies
  import opened Lookups

  ghost predicate Listed(names: seq<string>, cone: iset<string>) {
    forall n | n in names :: n in cone
  }

  // ---- the cone holds everything that reachable code looks up

  ghost predicate ConeHolds(cone: iset<string>, v: Value)
    decreases v, 0
  {
    match v
    case ScalarV(_) => true
    case ListV(items) => ConeHoldsAll(cone, items)
    case TaggedV(_, item) => ConeHolds(cone, item)
    case VariantV(_, _, payloads) => ConeHoldsAll(cone, payloads)
    case ClosureV(_, body, env) => Listed(BlockLookups(body), cone) && ConeHoldsLocals(cone, env)
  }

  ghost predicate ConeHoldsAll(cone: iset<string>, vs: seq<Value>)
    decreases vs, 0
  {
    forall i | 0 <= i < |vs| :: ConeHolds(cone, vs[i])
  }

  ghost predicate ConeHoldsLocal(cone: iset<string>, b: Binding)
    decreases b, 0
  {
    var Binding(_, value) := b;
    ConeHolds(cone, value)
  }

  ghost predicate ConeHoldsLocals(cone: iset<string>, env: seq<Binding>)
    decreases env, 0
  {
    forall i | 0 <= i < |env| :: ConeHoldsLocal(cone, env[i])
  }

  ghost predicate ConeIsClosed(cone: iset<string>, st: State) {
    ConeHoldsLocals(cone, st.locals) &&
    forall n | n in cone && Found(st.globals, n).Some? :: ConeHolds(cone, Found(st.globals, n).value)
  }

  // ---- states that differ outside the cone only

  /** What a name is bound to. */
  function Found(env: seq<Binding>, name: string): Option<Value> {
    if 0 <= Lookup(env, name) then Some(env[Lookup(env, name)].value) else None
  }

  /** The names of the cone are bound to the same values, wherever they stand. */
  ghost predicate SameOn(cone: iset<string>, a: seq<Binding>, b: seq<Binding>) {
    forall n | n in cone :: Found(a, n) == Found(b, n)
  }

  ghost predicate Agree(cone: iset<string>, st: State, other: State) {
    st.locals == other.locals && SameOn(cone, st.globals, other.globals)
  }

  /** Two states to run from. */
  ghost predicate Ready(cone: iset<string>, st: State, other: State) {
    ConeIsClosed(cone, st) && Agree(cone, st, other)
  }

  ghost predicate SameValue(cone: iset<string>, o: Eval<Value>, r: Eval<Value>) {
    match o
    case Stuck => r == Stuck
    case Timeout => r == Timeout
    case Done(v, st) =>
      r.Done? && r.value == v && ConeHolds(cone, v) && ConeIsClosed(cone, st) && Agree(cone, st, r.state)
  }

  ghost predicate SameValues(cone: iset<string>, o: Eval<seq<Value>>, r: Eval<seq<Value>>) {
    match o
    case Stuck => r == Stuck
    case Timeout => r == Timeout
    case Done(vs, st) =>
      r.Done? && r.value == vs && ConeHoldsAll(cone, vs) && ConeIsClosed(cone, st) && Agree(cone, st, r.state)
  }

  ghost predicate SameControl(cone: iset<string>, o: Eval<Control>, r: Eval<Control>) {
    match o
    case Stuck => r == Stuck
    case Timeout => r == Timeout
    case Done(c, st) =>
      r.Done? && r.value == c && (c.Returned? ==> ConeHolds(cone, c.value)) &&
      ConeIsClosed(cone, st) && Agree(cone, st, r.state)
  }

  // ---- lookups

  lemma ResolveAgrees(cone: iset<string>, st: State, other: State, name: string)
    requires Ready(cone, st, other) && name in cone
    ensures Resolve(other, name).Unbound? <==> Resolve(st, name).Unbound?
    ensures !Resolve(st, name).Unbound? ==>
      Read(other, Resolve(other, name)) == Read(st, Resolve(st, name)) && ConeHolds(cone, Read(st, Resolve(st, name)))
  {
    hide ConeHolds;
    assert Found(st.globals, name) == Found(other.globals, name);
    var p := Resolve(st, name);
    if p.Local? { assert ConeHoldsLocal(cone, st.locals[p.i]); }
  }

  lemma {:induction false} LookupIsLast(env: seq<Binding>, name: string)
    ensures forall k | Lookup(env, name) < k < |env| :: env[k].name != name
  {
    if env != [] && env[|env| - 1].name != name { LookupIsLast(env[..|env| - 1], name); }
  }

  lemma LookupIs(env: seq<Binding>, name: string, j: int)
    requires -1 <= j < |env| && (0 <= j ==> env[j].name == name)
    requires forall k | j < k < |env| :: env[k].name != name
    ensures Lookup(env, name) == j
  {
    LookupIsLast(env, name);
  }

  lemma WrittenIsFound(env: seq<Binding>, name: string, v: Value, n: string)
    requires 0 <= Lookup(env, name)
    ensures Found(env[Lookup(env, name) := Binding(name, v)], n) == if n == name then Some(v) else Found(env, n)
  {
    hide Lookup;
    var after := env[Lookup(env, name) := Binding(name, v)];
    LookupIsLast(env, n);
    LookupIs(after, n, Lookup(env, n));
  }

  lemma WriteAgrees(cone: iset<string>, st: State, other: State, name: string, v: Value)
    requires Ready(cone, st, other) && name in cone && !Resolve(st, name).Unbound? && ConeHolds(cone, v)
    ensures !Resolve(other, name).Unbound?
    ensures Ready(cone, Write(st, Resolve(st, name), v), Write(other, Resolve(other, name), v))
  {
    hide ConeHolds, Found, Lookup;
    ResolveAgrees(cone, st, other, name);
    var p, q := Resolve(st, name), Resolve(other, name);
    var w := Write(st, p, v);
    forall i | 0 <= i < |w.locals| ensures ConeHoldsLocal(cone, w.locals[i]) {
      assert i < |st.locals| && ConeHoldsLocal(cone, st.locals[i]);
    }
    if p.Global? {
      assert q.Global?;
      forall n | n in cone
        ensures Found(Write(other, q, v).globals, n) == Found(w.globals, n)
        ensures Found(w.globals, n).Some? ==> ConeHolds(cone, Found(w.globals, n).value)
      {
        assert Found(st.globals, n) == Found(other.globals, n);
        WrittenIsFound(st.globals, name, v, n);
        WrittenIsFound(other.globals, name, v, n);
      }
    }
  }

  lemma PushAgrees(cone: iset<string>, st: State, other: State, bs: seq<Binding>)
    requires Ready(cone, st, other) && ConeHoldsLocals(cone, bs)
    ensures Ready(cone, Push(st, bs), Push(other, bs))
  {
    hide ConeHoldsLocal;
  }

  lemma PopAgrees(cone: iset<string>, st: State, other: State, depth: nat)
    requires ConeIsClosed(cone, st) && Agree(cone, st, other)
    ensures ConeIsClosed(cone, Pop(st, depth)) && Agree(cone, Pop(st, depth), Pop(other, depth))
  {
    hide ConeHoldsLocal;
  }

  lemma ListedParts(a: seq<string>, b: seq<string>, cone: iset<string>)
    ensures Listed(a + b, cone) <==> Listed(a, cone) && Listed(b, cone)
  {
    if Listed(a + b, cone) {
      forall n | n in a ensures n in cone { assert n in a + b; }
      forall n | n in b ensures n in cone { assert n in a + b; }
    }
  }

  // ---- what a node lists, its parts list

  lemma ExprListed(cone: iset<string>, e: Expression)
    requires Listed(ExprLookups(e), cone)
    ensures match e
      case Identifier(name, _) => name in cone
      case Node(_, children, _) => Listed(ExprsLookups(children), cone)
      case Call(callee, args, _, _) => callee in cone && Listed(ExprsLookups(args), cone)
      case Closure(_, body, _, _) => Listed(BlockLookups(body), cone)
      case MatchExpr(subject, arms, default, _) =>
        Listed(ExprLookups(subject), cone) && Listed(ExprArmsLookups(arms), cone) && Listed(ExprLookups(default), cone)
      case Variant(_, _, payloads, _) => Listed(ExprsLookups(payloads), cone)
      case Ascription(inner, _, _) => Listed(ExprLookups(inner), cone)
      case UseMacro(inner) => Listed(ExprLookups(inner), cone)
      case MacroCall(inner) => Listed(ExprLookups(inner), cone)
      case _ => true
  {
    match e
    case Identifier(name, _) => assert name in ExprLookups(e);
    case Node(op, children, _) => ListedParts(MemberLookups(op), ExprsLookups(children), cone);
    case Call(callee, args, _, _) =>
      ListedParts(CalleeLookups(callee), ExprsLookups(args), cone);
      assert callee in CalleeLookups(callee);
    case MatchExpr(subject, arms, default, _) =>
      ListedParts(ExprLookups(subject) + ExprArmsLookups(arms), ExprLookups(default), cone);
      ListedParts(ExprLookups(subject), ExprArmsLookups(arms), cone);
    case Variant(enumName, variant, payloads, _) => ListedParts([enumName, variant], ExprsLookups(payloads), cone);
    case _ =>
  }

  lemma StmtListed(cone: iset<string>, s: Statement)
    requires Listed(StmtLookups(s), cone)
    ensures match s
      case Let(_, _, init, _, _, _) => Listed(OptionalLookups(init), cone)
      case Assignment(target, value) =>
        target.Variable? ==> target.name in cone && Listed(ExprLookups(value), cone)
      case Function(_, _, _, body, _, _, _) => Listed(BlockLookups(body), cone)
      case Return(result) => Listed(OptionalLookups(result), cone)
      case If(condition, thenBranch, elseBranch) =>
        Listed(ExprLookups(condition), cone) && Listed(BlockLookups(thenBranch), cone) &&
        (elseBranch.Else? ==> Listed(BlockLookups(elseBranch.body), cone))
      case While(condition, body) => Listed(ExprLookups(condition), cone) && Listed(BlockLookups(body), cone)
      case For(_, _, iterable, body) => Listed(ExprLookups(iterable), cone) && Listed(BlockLookups(body), cone)
      case ExprStmt(expr) => Listed(ExprLookups(expr), cone)
      case Match(subject, arms, default) =>
        Listed(ExprLookups(subject), cone) && Listed(StmtArmsLookups(arms), cone) && Listed(BlockLookups(default), cone)
      case _ => true
  {
    hide ExprLookups, BlockLookups, OptionalLookups, StmtArmsLookups, Listed;
    match s
    case Assignment(target, value) =>
      if target.Variable? {
        ListedParts([target.name], ExprLookups(value), cone);
        ListedName(target.name, cone);
      }
    case If(condition, thenBranch, elseBranch) =>
      var rest := match elseBranch case NoElse => [] case Else(b) => BlockLookups(b);
      ListedParts(ExprLookups(condition) + BlockLookups(thenBranch), rest, cone);
      ListedParts(ExprLookups(condition), BlockLookups(thenBranch), cone);
    case While(condition, body) => ListedParts(ExprLookups(condition), BlockLookups(body), cone);
    case For(_, _, iterable, body) => ListedParts(ExprLookups(iterable), BlockLookups(body), cone);
    case Match(subject, arms, default) =>
      ListedParts(ExprLookups(subject) + StmtArmsLookups(arms), BlockLookups(default), cone);
      ListedParts(ExprLookups(subject), StmtArmsLookups(arms), cone);
    case _ =>
  }

  lemma ListedName(name: string, cone: iset<string>)
    ensures Listed([name], cone) <==> name in cone
  {
    assert name in [name];
  }

  lemma BlockListed(cone: iset<string>, ss: seq<Statement>)
    requires ss != [] && Listed(BlockLookups(ss), cone)
    ensures Listed(StmtLookups(ss[0]), cone) && Listed(BlockLookups(ss[1..]), cone)
  {
    ListedParts(StmtLookups(ss[0]), BlockLookups(ss[1..]), cone);
  }

  lemma ExprsListed(cone: iset<string>, es: seq<Expression>)
    requires es != [] && Listed(ExprsLookups(es), cone)
    ensures Listed(ExprLookups(es[0]), cone) && Listed(ExprsLookups(es[1..]), cone)
  {
    ListedParts(ExprLookups(es[0]), ExprsLookups(es[1..]), cone);
  }

  lemma ExprArmsListed(cone: iset<string>, arms: seq<ExprArm>)
    requires arms != [] && Listed(ExprArmsLookups(arms), cone)
    ensures Listed(ExprLookups(arms[0].result), cone) && Listed(ExprArmsLookups(arms[1..]), cone)
  {
    ListedParts(ExprArmLookups(arms[0]), ExprArmsLookups(arms[1..]), cone);
    ListedParts(PatternLookups(arms[0].pattern), ExprLookups(arms[0].result), cone);
  }

  lemma StmtArmsListed(cone: iset<string>, arms: seq<StmtArm>)
    requires arms != [] && Listed(StmtArmsLookups(arms), cone)
    ensures Listed(BlockLookups(arms[0].body), cone) && Listed(StmtArmsLookups(arms[1..]), cone)
  {
    ListedParts(StmtArmLookups(arms[0]), StmtArmsLookups(arms[1..]), cone);
    ListedParts(PatternLookups(arms[0].pattern), BlockLookups(arms[0].body), cone);
  }

  // ---- values that the evaluator makes from values

  lemma OperatorHolds(cone: iset<string>, op: Operator, vs: seq<Value>)
    requires ConeHoldsAll(cone, vs) && ApplyOperator(op, vs).Some?
    ensures ConeHolds(cone, ApplyOperator(op, vs).value)
  {
    if |vs| > 0 { assert ConeHolds(cone, vs[0]); }
    if op.IndexOf? {
      var items, i := vs[0].items, vs[1].scalar.i;
      assert ConeHoldsAll(cone, items);
      assert ConeHolds(cone, items[i]);
    }
  }

  lemma {:induction false} PayloadsHold(cone: iset<string>, payloads: seq<Expression>, vs: seq<Value>)
    requires |payloads| == |vs| && ConeHoldsAll(cone, vs) && MatchPayloads(payloads, vs).Matched?
    ensures ConeHoldsLocals(cone, MatchPayloads(payloads, vs).bindings)
  {
    if payloads != [] {
      PayloadsHold(cone, payloads[1..], vs[1..]);
      assert ConeHolds(cone, vs[0]);
      if payloads[0].Identifier? { assert ConeHoldsLocal(cone, Binding(payloads[0].name, vs[0])); }
    }
  }

  lemma PatternHolds(cone: iset<string>, pattern: Expression, v: Value)
    requires ConeHolds(cone, v) && MatchPattern(pattern, v).Matched?
    ensures ConeHoldsLocals(cone, MatchPattern(pattern, v).bindings)
  {
    if pattern.Variant? { PayloadsHold(cone, pattern.payloads, v.payloads); }
  }

  lemma ParamsHold(cone: iset<string>, params: seq<string>, args: seq<Value>, env: seq<Binding>)
    requires |params| == |args| && ConeHoldsAll(cone, args) && ConeHoldsLocals(cone, env)
    ensures ConeHoldsLocals(cone, env + BindParams(params, args))
  {
    var all := env + BindParams(params, args);
    forall i | 0 <= i < |all| ensures ConeHoldsLocal(cone, all[i]) {
      if i < |env| { assert ConeHoldsLocal(cone, env[i]); } else { assert ConeHolds(cone, args[i - |env|]); }
    }
  }

  lemma OneLocalHolds(cone: iset<string>, name: string, v: Value)
    requires ConeHolds(cone, v)
    ensures ConeHoldsLocals(cone, [Binding(name, v)])
  {
    assert ConeHoldsLocal(cone, Binding(name, v));
  }

  lemma LoopHolds(cone: iset<string>, variable: string, counter: Option<string>, item: Value, k: nat)
    requires ConeHolds(cone, item)
    ensures ConeHoldsLocals(cone, LoopBindings(variable, counter, item, k))
  {
    OneLocalHolds(cone, variable, item);
    if counter.Some? { OneLocalHolds(cone, counter.value, ScalarV(IntLit(k))); }
  }

  // ---- the run, by induction on the fuel

  lemma {:induction false} ExprAgrees(cone: iset<string>, fuel: nat, e: Expression, st: State, other: State)
    requires Ready(cone, st, other) && Listed(ExprLookups(e), cone)
    ensures SameValue(cone, EvalExpr(fuel, e, st), EvalExpr(fuel, e, other))
    decreases fuel, 1
  {
    hide Listed, ExprLookups, ExprsLookups, BlockLookups, Resolve, ConeIsClosed, Agree;
    if fuel == 0 { return; }
    ExprListed(cone, e);
    match e
    case Identifier(name, _) => ResolveAgrees(cone, st, other, name);
    case Node(op, children, _) =>
      ExprsAgree(cone, fuel - 1, children, st, other);
      var r := EvalExprs(fuel - 1, children, st);
      if r.Done? && ApplyOperator(op, r.value).Some? { OperatorHolds(cone, op, r.value); }
    case Call(_, _, _, _) => CallAgrees(cone, fuel, e, st, other);
    case Closure(params, body, _, _) => ClosureAgrees(cone, params, body, st, other);
    case MatchExpr(subject, arms, default, _) =>
      ExprAgrees(cone, fuel - 1, subject, st, other);
      var r, q := EvalExpr(fuel - 1, subject, st), EvalExpr(fuel - 1, subject, other);
      if r.Done? { ArmsAgree(cone, fuel - 1, r.value, arms, default, r.state, q.state); }
    case Variant(_, _, payloads, _) => ExprsAgree(cone, fuel - 1, payloads, st, other);
    case Ascription(inner, _, _) => ExprAgrees(cone, fuel - 1, inner, st, other);
    case UseMacro(inner) => ExprAgrees(cone, fuel - 1, inner, st, other);
    case MacroCall(inner) => ExprAgrees(cone, fuel - 1, inner, st, other);
    case VariantPath(enumName, variant, _) => PlainVariantHolds(cone, enumName, variant);
    case Literal(_) =>
  }

  lemma PlainVariantHolds(cone: iset<string>, enumName: string, variant: string)
    ensures ConeHolds(cone, VariantV(enumName, variant, []))
  {
  }

  lemma ClosureAgrees(cone: iset<string>, params: seq<Param>, body: seq<Statement>, st: State, other: State)
    requires Ready(cone, st, other) && Listed(BlockLookups(body), cone)
    ensures ConeHolds(cone, ClosureV(Names(params), body, st.locals)) && st.locals == other.locals
  {
  }

  lemma {:induction false} CallAgrees(cone: iset<string>, fuel: nat, e: Expression, st: State, other: State)
    requires Ready(cone, st, other) && Listed(ExprLookups(e), cone) && e.Call? && 0 < fuel
    ensures SameValue(cone, EvalExpr(fuel, e, st), EvalExpr(fuel, e, other))
    decreases fuel, 0
  {
    hide Listed, ExprLookups, ExprsLookups, Resolve, ConeIsClosed, Agree, Apply, EvalExprs, ConeHolds, Read;
    ExprListed(cone, e);
    ExprsAgree(cone, fuel - 1, e.args, st, other);
    var r, q := EvalExprs(fuel - 1, e.args, st), EvalExprs(fuel - 1, e.args, other);
    if r.Done? {
      ResolveAgrees(cone, r.state, q.state, e.callee);
      var p := Resolve(r.state, e.callee);
      if !p.Unbound? { ApplyAgrees(cone, fuel - 1, Read(r.state, p), r.value, r.state, q.state); }
    }
  }

  lemma {:induction false} ExprsAgree(cone: iset<string>, fuel: nat, es: seq<Expression>, st: State, other: State)
    requires Ready(cone, st, other) && Listed(ExprsLookups(es), cone)
    ensures SameValues(cone, EvalExprs(fuel, es, st), EvalExprs(fuel, es, other))
    decreases fuel, 1
  {
    hide Listed, ExprLookups, ExprsLookups, ConeIsClosed, Agree, EvalExpr, ConeHolds;
    if fuel == 0 || es == [] { return; }
    ExprsListed(cone, es);
    ExprAgrees(cone, fuel - 1, es[0], st, other);
    var r, q := EvalExpr(fuel - 1, es[0], st), EvalExpr(fuel - 1, es[0], other);
    if r.Done? { ExprsAgree(cone, fuel - 1, es[1..], r.state, q.state); }
  }

  lemma {:induction false} ArmsAgree(cone: iset<string>, fuel: nat, v: Value, arms: seq<ExprArm>, default: Expression,
                                     st: State, other: State)
    requires Ready(cone, st, other) && ConeHolds(cone, v)
    requires Listed(ExprArmsLookups(arms), cone) && Listed(ExprLookups(default), cone)
    ensures SameValue(cone, EvalArms(fuel, v, arms, default, st), EvalArms(fuel, v, arms, default, other))
    decreases fuel, 1
  {
    hide Listed, ExprLookups, ExprArmsLookups, ConeIsClosed, Agree, EvalExpr, ConeHolds, MatchPattern;
    if fuel == 0 { return; }
    if arms == [] {
      ExprAgrees(cone, fuel - 1, default, st, other);
    } else {
      ExprArmsListed(cone, arms);
      var found := MatchPattern(arms[0].pattern, v);
      if found.Mismatch? {
        ArmsAgree(cone, fuel - 1, v, arms[1..], default, st, other);
      } else if found.Matched? {
        PatternHolds(cone, arms[0].pattern, v);
        BoundAgrees(cone, fuel - 1, arms[0].result, found.bindings, st, other);
      }
    }
  }

  lemma {:induction false} BoundAgrees(cone: iset<string>, fuel: nat, e: Expression, bs: seq<Binding>,
                                       st: State, other: State)
    requires Ready(cone, st, other) && Listed(ExprLookups(e), cone) && ConeHoldsLocals(cone, bs)
    ensures SameValue(cone, EvalBound(fuel, e, bs, st), EvalBound(fuel, e, bs, other))
    decreases fuel, 1
  {
    hide Listed, ExprLookups, ConeIsClosed, EvalExpr, ConeHolds, SameOn;
    if fuel == 0 { return; }
    PushAgrees(cone, st, other, bs);
    ExprAgrees(cone, fuel - 1, e, Push(st, bs), Push(other, bs));
    var r, q := EvalExpr(fuel - 1, e, Push(st, bs)), EvalExpr(fuel - 1, e, Push(other, bs));
    if r.Done? { PopAgrees(cone, r.state, q.state, |st.locals|); }
  }

  lemma {:induction false} ApplyAgrees(cone: iset<string>, fuel: nat, f: Value, args: seq<Value>, st: State, other: State)
    requires Ready(cone, st, other) && ConeHolds(cone, f) && ConeHoldsAll(cone, args)
    ensures SameValue(cone, Apply(fuel, f, args, st), Apply(fuel, f, args, other))
    decreases fuel, 1
  {
    hide Listed, BlockLookups, ExecBlock, SameOn;
    if fuel == 0 || !f.ClosureV? || |f.params| != |args| { return; }
    ParamsHold(cone, f.params, args, f.env);
    var env := f.env + BindParams(f.params, args);
    BlockAgrees(cone, fuel - 1, f.body, State(st.globals, env), State(other.globals, env));
  }

  lemma {:induction false} StmtAgrees(cone: iset<string>, fuel: nat, s: Statement, st: State, other: State)
    requires Ready(cone, st, other) && Listed(StmtLookups(s), cone)
    ensures SameControl(cone, ExecStmt(fuel, s, st), ExecStmt(fuel, s, other))
    decreases fuel, 3
  {
    hide Listed, StmtLookups, ExprLookups, OptionalLookups, ConeIsClosed, Agree, EvalExpr, EvalOptional, ConeHolds;
    if fuel == 0 { return; }
    StmtListed(cone, s);
    match s
    case Let(_, _, _, _, _, _) => LetAgrees(cone, fuel, s, st, other);
    case Assignment(_, _) => AssignmentAgrees(cone, fuel, s, st, other);
    case Return(result) => OptionalAgrees(cone, fuel - 1, result, st, other);
    case ExprStmt(expr) => ExprAgrees(cone, fuel - 1, expr, st, other);
    case If(_, _, _) => IfAgrees(cone, fuel, s, st, other);
    case While(condition, body) => WhileAgrees(cone, fuel - 1, condition, body, st, other);
    case For(_, _, _, _) => ForAgrees(cone, fuel, s, st, other);
    case Match(_, _, _) => MatchAgrees(cone, fuel, s, st, other);
    case _ =>
  }

  lemma {:induction false} LetAgrees(cone: iset<string>, fuel: nat, s: Statement, st: State, other: State)
    requires Ready(cone, st, other) && Listed(StmtLookups(s), cone) && s.Let? && 0 < fuel
    ensures SameControl(cone, ExecStmt(fuel, s, st), ExecStmt(fuel, s, other))
    decreases fuel, 1
  {
    hide Listed, StmtLookups, OptionalLookups, ConeIsClosed, Agree, EvalOptional, ConeHolds, Push;
    StmtListed(cone, s);
    OptionalAgrees(cone, fuel - 1, s.init, st, other);
    var r, q := EvalOptional(fuel - 1, s.init, st), EvalOptional(fuel - 1, s.init, other);
    if r.Done? {
      OneLocalHolds(cone, s.name, r.value);
      PushAgrees(cone, r.state, q.state, [Binding(s.name, r.value)]);
    }
  }

  lemma {:induction false} AssignmentAgrees(cone: iset<string>, fuel: nat, s: Statement, st: State, other: State)
    requires Ready(cone, st, other) && Listed(StmtLookups(s), cone) && s.Assignment? && 0 < fuel
    ensures SameControl(cone, ExecStmt(fuel, s, st), ExecStmt(fuel, s, other))
    decreases fuel, 1
  {
    hide Listed, StmtLookups, ExprLookups, ConeIsClosed, Agree, EvalExpr, ConeHolds, Write, Resolve;
    StmtListed(cone, s);
    if !s.target.Variable? { return; }
    ExprAgrees(cone, fuel - 1, s.value, st, other);
    var r, q := EvalExpr(fuel - 1, s.value, st), EvalExpr(fuel - 1, s.value, other);
    if r.Done? {
      ResolveAgrees(cone, r.state, q.state, s.target.name);
      if !Resolve(r.state, s.target.name).Unbound? {
        WriteAgrees(cone, r.state, q.state, s.target.name, r.value);
      }
    }
  }

  lemma {:induction false} OptionalAgrees(cone: iset<string>, fuel: nat, e: Option<Expression>, st: State, other: State)
    requires Ready(cone, st, other) && Listed(OptionalLookups(e), cone)
    ensures SameValue(cone, EvalOptional(fuel, e, st), EvalOptional(fuel, e, other))
    decreases fuel, 1
  {
    hide Listed, ExprLookups, ConeIsClosed, Agree, EvalExpr;
    if fuel == 0 { return; }
    if e.Some? { ExprAgrees(cone, fuel - 1, e.value, st, other); }
  }

  lemma {:induction false} BlockAgrees(cone: iset<string>, fuel: nat, ss: seq<Statement>, st: State, other: State)
    requires Ready(cone, st, other) && Listed(BlockLookups(ss), cone)
    ensures SameControl(cone, ExecBlock(fuel, ss, st), ExecBlock(fuel, ss, other))
    decreases fuel, 2
  {
    hide Listed, StmtLookups, BlockLookups, ConeIsClosed, Agree, ExecStmt, ConeHolds;
    if fuel == 0 || ss == [] { return; }
    BlockListed(cone, ss);
    StmtAgrees(cone, fuel - 1, ss[0], st, other);
    var r, q := ExecStmt(fuel - 1, ss[0], st), ExecStmt(fuel - 1, ss[0], other);
    if r.Done? && r.value.Normal? { BlockAgrees(cone, fuel - 1, ss[1..], r.state, q.state); }
  }

  lemma {:induction false} ScopedAgrees(cone: iset<string>, fuel: nat, ss: seq<Statement>, bs: seq<Binding>,
                                        st: State, other: State)
    requires Ready(cone, st, other) && Listed(BlockLookups(ss), cone) && ConeHoldsLocals(cone, bs)
    ensures SameControl(cone, ExecScoped(fuel, ss, bs, st), ExecScoped(fuel, ss, bs, other))
    decreases fuel, 1
  {
    hide Listed, BlockLookups, ConeIsClosed, ExecBlock, ConeHolds, SameOn;
    if fuel == 0 { return; }
    PushAgrees(cone, st, other, bs);
    BlockAgrees(cone, fuel - 1, ss, Push(st, bs), Push(other, bs));
    var r, q := ExecBlock(fuel - 1, ss, Push(st, bs)), ExecBlock(fuel - 1, ss, Push(other, bs));
    if r.Done? { PopAgrees(cone, r.state, q.state, |st.locals|); }
  }

  lemma {:induction false} IfAgrees(cone: iset<string>, fuel: nat, s: Statement, st: State, other: State)
    requires Ready(cone, st, other) && Listed(StmtLookups(s), cone) && s.If? && 0 < fuel
    ensures SameControl(cone, ExecStmt(fuel, s, st), ExecStmt(fuel, s, other))
    decreases fuel, 1
  {
    hide Listed, StmtLookups, ExprLookups, BlockLookups, ConeIsClosed, Agree, EvalExpr, ExecScoped, ConeHolds;
    StmtListed(cone, s);
    ExprAgrees(cone, fuel - 1, s.condition, st, other);
    var r, q := EvalExpr(fuel - 1, s.condition, st), EvalExpr(fuel - 1, s.condition, other);
    if r.Done? {
      ScopedAgrees(cone, fuel - 1, s.thenBranch, [], r.state, q.state);
      if s.elseBranch.Else? { ScopedAgrees(cone, fuel - 1, s.elseBranch.body, [], r.state, q.state); }
    }
  }

  lemma {:induction false} MatchAgrees(cone: iset<string>, fuel: nat, s: Statement, st: State, other: State)
    requires Ready(cone, st, other) && Listed(StmtLookups(s), cone) && s.Match? && 0 < fuel
    ensures SameControl(cone, ExecStmt(fuel, s, st), ExecStmt(fuel, s, other))
    decreases fuel, 2
  {
    hide Listed, StmtLookups, ExprLookups, BlockLookups, StmtArmsLookups, ConeIsClosed, Agree, EvalExpr, ExecArms, ConeHolds;
    StmtListed(cone, s);
    ExprAgrees(cone, fuel - 1, s.subject, st, other);
    var r, q := EvalExpr(fuel - 1, s.subject, st), EvalExpr(fuel - 1, s.subject, other);
    if r.Done? { StmtArmsAgree(cone, fuel - 1, r.value, s.arms, s.default, r.state, q.state); }
  }

  lemma {:induction false} StmtArmsAgree(cone: iset<string>, fuel: nat, v: Value, arms: seq<StmtArm>,
                                         default: seq<Statement>, st: State, other: State)
    requires Ready(cone, st, other) && ConeHolds(cone, v)
    requires Listed(StmtArmsLookups(arms), cone) && Listed(BlockLookups(default), cone)
    ensures SameControl(cone, ExecArms(fuel, v, arms, default, st), ExecArms(fuel, v, arms, default, other))
    decreases fuel, 1
  {
    hide Listed, BlockLookups, StmtArmsLookups, ConeIsClosed, Agree, ExecScoped, ConeHolds, MatchPattern;
    if fuel == 0 { return; }
    if arms == [] {
      ScopedAgrees(cone, fuel - 1, default, [], st, other);
    } else {
      StmtArmsListed(cone, arms);
      var found := MatchPattern(arms[0].pattern, v);
      if found.Mismatch? {
        StmtArmsAgree(cone, fuel - 1, v, arms[1..], default, st, other);
      } else if found.Matched? {
        PatternHolds(cone, arms[0].pattern, v);
        ScopedAgrees(cone, fuel - 1, arms[0].body, found.bindings, st, other);
      }
    }
  }

  lemma {:induction false} WhileAgrees(cone: iset<string>, fuel: nat, condition: Expression, body: seq<Statement>,
                                       st: State, other: State)
    requires Ready(cone, st, other) && Listed(ExprLookups(condition), cone) && Listed(BlockLookups(body), cone)
    ensures SameControl(cone, ExecWhile(fuel, condition, body, st), ExecWhile(fuel, condition, body, other))
    decreases fuel, 1
  {
    hide Listed, ExprLookups, BlockLookups, ConeIsClosed, Agree, EvalExpr, RepeatWhile, ConeHolds;
    if fuel == 0 { return; }
    ExprAgrees(cone, fuel - 1, condition, st, other);
    var r, q := EvalExpr(fuel - 1, condition, st), EvalExpr(fuel - 1, condition, other);
    if r.Done? { RoundAgrees(cone, fuel - 1, condition, body, r.state, q.state); }
  }

  lemma {:induction false} RoundAgrees(cone: iset<string>, fuel: nat, condition: Expression, body: seq<Statement>,
                                       st: State, other: State)
    requires Ready(cone, st, other) && Listed(ExprLookups(condition), cone) && Listed(BlockLookups(body), cone)
    ensures SameControl(cone, RepeatWhile(fuel, condition, body, st), RepeatWhile(fuel, condition, body, other))
    decreases fuel, 1
  {
    hide Listed, ExprLookups, BlockLookups, ConeIsClosed, Agree, ExecScoped, ExecWhile, ConeHolds;
    if fuel == 0 { return; }
    ScopedAgrees(cone, fuel - 1, body, [], st, other);
    var r, q := ExecScoped(fuel - 1, body, [], st), ExecScoped(fuel - 1, body, [], other);
    if r.Done? { WhileAgrees(cone, fuel - 1, condition, body, r.state, q.state); }
  }

  lemma {:induction false} ForAgrees(cone: iset<string>, fuel: nat, s: Statement, st: State, other: State)
    requires Ready(cone, st, other) && Listed(StmtLookups(s), cone) && s.For? && 0 < fuel
    ensures SameControl(cone, ExecStmt(fuel, s, st), ExecStmt(fuel, s, other))
    decreases fuel, 1
  {
    hide Listed, StmtLookups, ExprLookups, BlockLookups, ConeIsClosed, Agree, EvalExpr, ExecFor;
    StmtListed(cone, s);
    ExprAgrees(cone, fuel - 1, s.iterable, st, other);
    var r, q := EvalExpr(fuel - 1, s.iterable, st), EvalExpr(fuel - 1, s.iterable, other);
    if r.Done? && r.value.ListV? {
      ItemsAgree(cone, fuel - 1, s.variable, s.counter, r.value.items, 0, s.body, r.state, q.state);
    }
  }

  lemma {:induction false} ItemsAgree(cone: iset<string>, fuel: nat, variable: string, counter: Option<string>,
                                      items: seq<Value>, k: nat, body: seq<Statement>, st: State, other: State)
    requires Ready(cone, st, other) && Listed(BlockLookups(body), cone) && ConeHoldsAll(cone, items)
    ensures SameControl(cone, ExecFor(fuel, variable, counter, items, k, body, st),
                        ExecFor(fuel, variable, counter, items, k, body, other))
    decreases fuel, 1
  {
    hide Listed, BlockLookups, ConeIsClosed, Agree, RepeatFor, ConeHolds;
    if fuel == 0 || |items| <= k { return; }
    ItemAgrees(cone, fuel - 1, variable, counter, items, k, body, st, other);
  }

  lemma {:induction false} ItemAgrees(cone: iset<string>, fuel: nat, variable: string, counter: Option<string>,
                                      items: seq<Value>, k: nat, body: seq<Statement>, st: State, other: State)
    requires Ready(cone, st, other) && Listed(BlockLookups(body), cone) && ConeHoldsAll(cone, items) && k < |items|
    ensures SameControl(cone, RepeatFor(fuel, variable, counter, items, k, body, st),
                        RepeatFor(fuel, variable, counter, items, k, body, other))
    decreases fuel, 1
  {
    hide Listed, BlockLookups, ConeIsClosed, Agree, ExecScoped, ExecFor, ConeHolds, LoopBindings;
    if fuel == 0 { return; }
    assert ConeHolds(cone, items[k]);
    LoopHolds(cone, variable, counter, items[k], k);
    var bs := LoopBindings(variable, counter, items[k], k);
    ScopedAgrees(cone, fuel - 1, body, bs, st, other);
    var r, q := ExecScoped(fuel - 1, body, bs, st), ExecScoped(fuel - 1, body, bs, other);
    if r.Done? { ItemsAgree(cone, fuel - 1, variable, counter, items, k + 1, body, r.state, q.state); }
  }

  // ---- whole programs

  lemma AddedIsFound(env: seq<Binding>, name: string, v: Value, n: string)
    ensures Found(env + [Binding(name, v)], n) == if n == name then Some(v) else Found(env, n)
  {
    assert (env + [Binding(name, v)])[..|env|] == env;
  }

  lemma GlobalAdded(cone: iset<string>, st: State, other: State, name: string, v: Value)
    requires ConeIsClosed(cone, st) && Agree(cone, st, other) && ConeHolds(cone, v)
    ensures var b := Binding(name, v);
      ConeIsClosed(cone, st.(globals := st.globals + [b])) &&
      Agree(cone, st.(globals := st.globals + [b]), other.(globals := other.globals + [b]))
  {
    hide ConeHoldsLocals, Found, ConeHolds;
    var b := Binding(name, v);
    forall n | n in cone
      ensures Found(st.globals + [b], n) == Found(other.globals + [b], n)
      ensures Found(st.globals + [b], n).Some? ==> ConeHolds(cone, Found(st.globals + [b], n).value)
    {
      assert Found(st.globals, n) == Found(other.globals, n);
      AddedIsFound(st.globals, name, v, n);
      AddedIsFound(other.globals, name, v, n);
    }
  }

  lemma TopAgrees(cone: iset<string>, fuel: nat, s: Statement, st: State, other: State)
    requires Ready(cone, st, other) && Listed(StmtLookups(s), cone)
    ensures SameControl(cone, ExecTop(fuel, s, st), ExecTop(fuel, s, other))
  {
    hide Listed, StmtLookups, OptionalLookups, ConeIsClosed, Agree, EvalOptional, ExecStmt;
    StmtListed(cone, s);
    if s.Function? {
      FunctionHolds(cone, s.params, s.body);
      GlobalAdded(cone, st, other, s.name, ClosureV(Names(s.params), s.body, []));
    } else if s.Let? {
      OptionalAgrees(cone, fuel, s.init, st, other);
      var r, q := EvalOptional(fuel, s.init, st), EvalOptional(fuel, s.init, other);
      if r.Done? { GlobalAdded(cone, r.state, q.state, s.name, r.value); }
    } else if !IsDeclaration(s) {
      StmtAgrees(cone, fuel, s, st, other);
    }
  }

  lemma FunctionHolds(cone: iset<string>, params: seq<Param>, body: seq<Statement>)
    requires Listed(BlockLookups(body), cone)
    ensures ConeHolds(cone, ClosureV(Names(params), body, []))
  {
  }

  /** The main result.  Let a set of names hold what the code looks up and what the bodies of
      the functions in it look up.  Then globals outside the set, whatever they are called,
      wherever they stand and whatever they hold, change neither the outcome nor any local nor
      any global of the set. */
  lemma {:induction false} RunsDependOnlyOnTheCone(cone: iset<string>, fuel: nat, ss: seq<Statement>,
                                                   st: State, other: State)
    requires ConeIsClosed(cone, st) && Agree(cone, st, other)
    requires Listed(BlockLookups(ss), cone)
    ensures SameControl(cone, ExecModule(fuel, ss, st), ExecModule(fuel, ss, other))
  {
    hide Listed, StmtLookups, BlockLookups, ConeIsClosed, Agree, ExecTop, ConeHolds;
    if ss == [] { return; }
    BlockListed(cone, ss);
    TopAgrees(cone, fuel, ss[0], st, other);
    var r, q := ExecTop(fuel, ss[0], st), ExecTop(fuel, ss[0], other);
    if r.Done? && r.value.Normal? { RunsDependOnlyOnTheCone(cone, fuel, ss[1..], r.state, q.state); }
  }

  // ---- what code lists stands for what it looks up

  /** No name with a dot is looked up but not listed. */
  ghost predicate ListsItsLookups(ss: seq<Statement>) {
    forall n | n in BlockLookups(ss) && '.' in n :: n in BlockDeps(ss)
  }

  /** A set that holds what is listed holds what is looked up, if it holds a dotted name
      whenever it holds the root, or if the code lists the dotted names it assigns. */
  lemma ListedIsLookedUp(cone: iset<string>, ss: seq<Statement>)
    requires Listed(BlockDeps(ss), cone)
    requires (forall n :: Root(n) in cone ==> n in cone) || ListsItsLookups(ss)
    ensures Listed(BlockLookups(ss), cone)
  {
    hide BlockDeps, BlockLookups;
    BlockIsListed(ss);
    forall n | n in BlockLookups(ss) ensures n in cone {
      assert Accounted(n, BlockDeps(ss));
      if n !in BlockDeps(ss) { assert '.' in n && Root(n) in cone; }
    }
  }

  /** Why one of the two is needed: a statement lists the variable it assigns exactly when
      that name has no dots, as a name that the renamer has prefixed does. */
  lemma AssignedNameIsListedExactly(name: string, value: Scalar)
    ensures name in StmtDeps(Assignment(Variable(name), Literal(value))) <==> '.' !in name
  {
    var target := Variable(name);
    assert TargetDeps(target) == [Root(name)];
    assert ExprDeps(Literal(value)) == [];
    assert StmtDeps(Assignment(target, Literal(value))) == [Root(name)];
  }
}
