/**
  A reference evaluator for the statements and expressions whose meaning the
  renamer has to preserve: let, variable assignment, return, if, while, for,
  match on flat patterns, calls and closures; an ascription or macro wrapper means
  what it wraps.  Everything else is `Stuck`.

  Local variables form one stack of bindings: a block pops what it pushed, a
  lookup takes the innermost binding, a closure captures the stack by value.
  `fuel` bounds the depth of the evaluation, so that a diverging program is
  `Timeout` at every fuel and not a missing definition.
*/
module Semantics {
  import opened Wrappers
  import opened Ast

  datatype Value =
    | ScalarV(scalar: Scalar)
    | ListV(items: seq<Value>)
    | TaggedV(tag: Operator, item: Value)
    | VariantV(enumName: string, variant: string, payloads: seq<Value>)
    | ClosureV(params: seq<string>, body: seq<Statement>, env: seq<Binding>)

  datatype Binding = Binding(name: string, value: Value)

  datatype State = State(globals: seq<Binding>, locals: seq<Binding>)

  datatype Eval<T> = Stuck | Timeout | Done(value: T, state: State)

  datatype Control = Normal | Returned(value: Value) | Breaking | Continuing

  datatype Place = Unbound | Local(i: nat) | Global(j: nat)

  /** The position of the innermost binding of `name`, or -1. */
  function Lookup(env: seq<Binding>, name: string): (i: int)
    ensures -1 <= i < |env|
    ensures 0 <= i ==> env[i].name == name
  {
    if env == [] then -1
    else if env[|env| - 1].name == name then |env| - 1
    else Lookup(env[..|env| - 1], name)
  }

  function Resolve(st: State, name: string): (p: Place)
    ensures p.Local? ==> p.i < |st.locals|
    ensures p.Global? ==> p.j < |st.globals|
  {
    var i := Lookup(st.locals, name);
    if 0 <= i then Local(i)
    else
      var j := Lookup(st.globals, name);
      if 0 <= j then Global(j) else Unbound
  }

  function Read(st: State, p: Place): Value
    requires p.Local? ==> p.i < |st.locals|
    requires p.Global? ==> p.j < |st.globals|
    requires !p.Unbound?
  {
    if p.Local? then st.locals[p.i].value else st.globals[p.j].value
  }

  function Write(st: State, p: Place, v: Value): State
    requires p.Local? ==> p.i < |st.locals|
    requires p.Global? ==> p.j < |st.globals|
    requires !p.Unbound?
  {
    if p.Local? then st.(locals := st.locals[p.i := Binding(st.locals[p.i].name, v)])
    else st.(globals := st.globals[p.j := Binding(st.globals[p.j].name, v)])
  }

  function Push(st: State, bindings: seq<Binding>): State {
    st.(locals := st.locals + bindings)
  }

  /** Drops every local pushed since the stack held `depth` bindings. */
  function Pop(st: State, depth: nat): State {
    if depth <= |st.locals| then st.(locals := st.locals[..depth]) else st
  }

  function Names(params: seq<Param>): (r: seq<string>)
    ensures |r| == |params|
  {
    seq(|params|, i requires 0 <= i < |params| => params[i].name)
  }

  function BindParams(params: seq<string>, args: seq<Value>): (r: seq<Binding>)
    requires |params| == |args|
    ensures |r| == |params|
  {
    seq(|params|, i requires 0 <= i < |params| => Binding(params[i], args[i]))
  }

  function ApplyOperator(op: Operator, args: seq<Value>): Option<Value> {
    match op
    case Binary(symbol) =>
      if |args| == 2 && args[0].ScalarV? && args[1].ScalarV? then
        ApplyBinary(symbol, args[0].scalar, args[1].scalar)
      else None
    case ListOf => Some(ListV(args))
    case TupleOf => Some(ListV(args))
    case IndexOf =>
      if |args| == 2 && args[0].ListV? && args[1].ScalarV? && args[1].scalar.IntLit?
         && 0 <= args[1].scalar.i < |args[0].items|
      then Some(args[0].items[args[1].scalar.i]) else None
    case OkOf => Tagged(op, args)
    case ErrOf => Tagged(op, args)
    case SomeOf => Tagged(op, args)
    case BoxOf => Tagged(op, args)
    case _ => None
  }

  function Tagged(op: Operator, args: seq<Value>): Option<Value> {
    if |args| == 1 then Some(TaggedV(op, args[0])) else None
  }

  function ApplyBinary(symbol: string, x: Scalar, y: Scalar): Option<Value> {
    if symbol == "==" then Some(ScalarV(BoolLit(x == y)))
    else if x.IntLit? && y.IntLit? then
      if symbol == "+" then Some(ScalarV(IntLit(x.i + y.i)))
      else if symbol == "-" then Some(ScalarV(IntLit(x.i - y.i)))
      else if symbol == "*" then Some(ScalarV(IntLit(x.i * y.i)))
      else if symbol == "<" then Some(ScalarV(BoolLit(x.i < y.i)))
      else None
    else None
  }

  datatype Matching = BadPattern | Mismatch | Matched(bindings: seq<Binding>)

  /** A flat pattern is a literal, a variant path, or a variant over identifiers and literals. */
  function MatchPattern(pattern: Expression, v: Value): Matching {
    match pattern
    case Literal(value) => if v == ScalarV(value) then Matched([]) else Mismatch
    case VariantPath(enumName, variant, _) =>
      if v.VariantV? && v.enumName == enumName && v.variant == variant && v.payloads == [] then Matched([])
      else Mismatch
    case Variant(enumName, variant, payloads, _) =>
      if v.VariantV? && v.enumName == enumName && v.variant == variant && |v.payloads| == |payloads|
      then MatchPayloads(payloads, v.payloads) else Mismatch
    case _ => BadPattern
  }

  function MatchPayloads(payloads: seq<Expression>, vs: seq<Value>): Matching
    requires |payloads| == |vs|
  {
    if payloads == [] then Matched([])
    else
      var rest := MatchPayloads(payloads[1..], vs[1..]);
      if rest.BadPattern? then BadPattern
      else match payloads[0]
        case Identifier(name, _) =>
          if rest.Matched? then Matched([Binding(name, vs[0])] + rest.bindings) else rest
        case Literal(value) => if vs[0] == ScalarV(value) then rest else Mismatch
        case _ => BadPattern
  }

  function EvalExpr(fuel: nat, e: Expression, st: State): Eval<Value>
    decreases fuel
  {
    if fuel == 0 then Timeout else
    match e
    case Literal(value) => Done(ScalarV(value), st)
    case Identifier(name, _) =>
      var p := Resolve(st, name);
      if p.Unbound? then Stuck else Done(Read(st, p), st)
    case Node(op, children, _) =>
      (match EvalExprs(fuel - 1, children, st)
       case Stuck => Stuck
       case Timeout => Timeout
       case Done(vs, st1) =>
         var v := ApplyOperator(op, vs);
         if v.None? then Stuck else Done(v.value, st1))
    case Call(callee, args, _, _) =>
      (match EvalExprs(fuel - 1, args, st)
       case Stuck => Stuck
       case Timeout => Timeout
       case Done(vs, st1) =>
         var p := Resolve(st1, callee);
         if p.Unbound? then Stuck else Apply(fuel - 1, Read(st1, p), vs, st1))
    case Closure(params, body, _, _) => Done(ClosureV(Names(params), body, st.locals), st)
    case MatchExpr(subject, arms, default, _) =>
      (match EvalExpr(fuel - 1, subject, st)
       case Stuck => Stuck
       case Timeout => Timeout
       case Done(v, st1) => EvalArms(fuel - 1, v, arms, default, st1))
    case VariantPath(enumName, variant, _) => Done(VariantV(enumName, variant, []), st)
    case Variant(enumName, variant, payloads, _) =>
      (match EvalExprs(fuel - 1, payloads, st)
       case Stuck => Stuck
       case Timeout => Timeout
       case Done(vs, st1) => Done(VariantV(enumName, variant, vs), st1))
    case Ascription(inner, _, _) => EvalExpr(fuel - 1, inner, st)
    case UseMacro(inner) => EvalExpr(fuel - 1, inner, st)
    case MacroCall(inner) => EvalExpr(fuel - 1, inner, st)
  }

  function EvalExprs(fuel: nat, es: seq<Expression>, st: State): Eval<seq<Value>>
    decreases fuel
  {
    if fuel == 0 then Timeout
    else if es == [] then Done([], st)
    else
      match EvalExpr(fuel - 1, es[0], st)
      case Stuck => Stuck
      case Timeout => Timeout
      case Done(v, st1) =>
        match EvalExprs(fuel - 1, es[1..], st1)
        case Stuck => Stuck
        case Timeout => Timeout
        case Done(vs, st2) => Done([v] + vs, st2)
  }

  function EvalArms(fuel: nat, v: Value, arms: seq<ExprArm>, default: Expression, st: State): Eval<Value>
    decreases fuel
  {
    if fuel == 0 then Timeout
    else if arms == [] then EvalExpr(fuel - 1, default, st)
    else
      match MatchPattern(arms[0].pattern, v)
      case BadPattern => Stuck
      case Mismatch => EvalArms(fuel - 1, v, arms[1..], default, st)
      case Matched(bindings) => EvalBound(fuel - 1, arms[0].result, bindings, st)
  }

  /** Evaluates under extra bindings and pops them again. */
  function EvalBound(fuel: nat, e: Expression, bs: seq<Binding>, st: State): Eval<Value>
    decreases fuel
  {
    if fuel == 0 then Timeout
    else
      match EvalExpr(fuel - 1, e, Push(st, bs))
      case Stuck => Stuck
      case Timeout => Timeout
      case Done(r, st1) => Done(r, Pop(st1, |st.locals|))
  }

  /** A call runs the body on the captured locals and gives the caller its own back. */
  function Apply(fuel: nat, f: Value, args: seq<Value>, st: State): Eval<Value>
    decreases fuel
  {
    if fuel == 0 then Timeout
    else if !f.ClosureV? || |f.params| != |args| then Stuck
    else
      match ExecBlock(fuel - 1, f.body, State(st.globals, f.env + BindParams(f.params, args)))
      case Stuck => Stuck
      case Timeout => Timeout
      case Done(control, st1) =>
        var caller := State(st1.globals, st.locals);
        match control
        case Normal => Done(ScalarV(NoneLit), caller)
        case Returned(v) => Done(v, caller)
        case _ => Stuck
  }

  function ExecStmt(fuel: nat, s: Statement, st: State): Eval<Control>
    decreases fuel
  {
    if fuel == 0 then Timeout else
    match s
    case Let(name, _, init, _, _, _) =>
      (match EvalOptional(fuel - 1, init, st)
       case Stuck => Stuck
       case Timeout => Timeout
       case Done(v, st1) => Done(Normal, Push(st1, [Binding(name, v)])))
    case Assignment(target, value) =>
      if !target.Variable? then Stuck else
      (match EvalExpr(fuel - 1, value, st)
       case Stuck => Stuck
       case Timeout => Timeout
       case Done(v, st1) =>
         var p := Resolve(st1, target.name);
         if p.Unbound? then Stuck else Done(Normal, Write(st1, p, v)))
    case Return(result) =>
      (match EvalOptional(fuel - 1, result, st)
       case Stuck => Stuck
       case Timeout => Timeout
       case Done(v, st1) => Done(Returned(v), st1))
    case If(condition, thenBranch, elseBranch) =>
      (match EvalExpr(fuel - 1, condition, st)
       case Stuck => Stuck
       case Timeout => Timeout
       case Done(v, st1) =>
         if v == ScalarV(BoolLit(true)) then ExecScoped(fuel - 1, thenBranch, [], st1)
         else if v == ScalarV(BoolLit(false)) then
           if elseBranch.NoElse? then Done(Normal, st1) else ExecScoped(fuel - 1, elseBranch.body, [], st1)
         else Stuck)
    case While(condition, body) => ExecWhile(fuel - 1, condition, body, st)
    case For(variable, counter, iterable, body) =>
      (match EvalExpr(fuel - 1, iterable, st)
       case Stuck => Stuck
       case Timeout => Timeout
       case Done(v, st1) =>
         if v.ListV? then ExecFor(fuel - 1, variable, counter, v.items, 0, body, st1) else Stuck)
    case ExprStmt(expr) =>
      (match EvalExpr(fuel - 1, expr, st)
       case Stuck => Stuck
       case Timeout => Timeout
       case Done(_, st1) => Done(Normal, st1))
    case Break => Done(Breaking, st)
    case Continue => Done(Continuing, st)
    case Match(subject, arms, default) =>
      (match EvalExpr(fuel - 1, subject, st)
       case Stuck => Stuck
       case Timeout => Timeout
       case Done(v, st1) => ExecArms(fuel - 1, v, arms, default, st1))
    case _ => Stuck
  }

  function EvalOptional(fuel: nat, e: Option<Expression>, st: State): Eval<Value>
    decreases fuel
  {
    if fuel == 0 then Timeout
    else match e case None => Done(ScalarV(NoneLit), st) case Some(x) => EvalExpr(fuel - 1, x, st)
  }

  function ExecBlock(fuel: nat, ss: seq<Statement>, st: State): Eval<Control>
    decreases fuel
  {
    if fuel == 0 then Timeout
    else if ss == [] then Done(Normal, st)
    else
      match ExecStmt(fuel - 1, ss[0], st)
      case Stuck => Stuck
      case Timeout => Timeout
      case Done(control, st1) =>
        if control.Normal? then ExecBlock(fuel - 1, ss[1..], st1) else Done(control, st1)
  }

  /** Runs a block with extra bindings in front and pops everything it pushed. */
  function ExecScoped(fuel: nat, ss: seq<Statement>, bindings: seq<Binding>, st: State): Eval<Control>
    decreases fuel
  {
    if fuel == 0 then Timeout
    else
      match ExecBlock(fuel - 1, ss, Push(st, bindings))
      case Stuck => Stuck
      case Timeout => Timeout
      case Done(control, st1) => Done(control, Pop(st1, |st.locals|))
  }

  function ExecArms(fuel: nat, v: Value, arms: seq<StmtArm>, default: seq<Statement>, st: State): Eval<Control>
    decreases fuel
  {
    if fuel == 0 then Timeout
    else if arms == [] then ExecScoped(fuel - 1, default, [], st)
    else
      match MatchPattern(arms[0].pattern, v)
      case BadPattern => Stuck
      case Mismatch => ExecArms(fuel - 1, v, arms[1..], default, st)
      case Matched(bindings) => ExecScoped(fuel - 1, arms[0].body, bindings, st)
  }

  function ExecWhile(fuel: nat, condition: Expression, body: seq<Statement>, st: State): Eval<Control>
    decreases fuel
  {
    if fuel == 0 then Timeout
    else
      match EvalExpr(fuel - 1, condition, st)
      case Stuck => Stuck
      case Timeout => Timeout
      case Done(v, st1) =>
        if v == ScalarV(BoolLit(false)) then Done(Normal, st1)
        else if v == ScalarV(BoolLit(true)) then RepeatWhile(fuel - 1, condition, body, st1)
        else Stuck
  }

  /** One round of a while loop whose condition held. */
  function RepeatWhile(fuel: nat, condition: Expression, body: seq<Statement>, st: State): Eval<Control>
    decreases fuel
  {
    if fuel == 0 then Timeout
    else
      match ExecScoped(fuel - 1, body, [], st)
      case Stuck => Stuck
      case Timeout => Timeout
      case Done(control, st1) =>
        match control
        case Breaking => Done(Normal, st1)
        case Returned(r) => Done(control, st1)
        case _ => ExecWhile(fuel - 1, condition, body, st1)
  }

  function LoopBindings(variable: string, counter: Option<string>, item: Value, k: nat): seq<Binding> {
    [Binding(variable, item)] +
    (if counter.Some? then [Binding(counter.value, ScalarV(IntLit(k)))] else [])
  }

  function ExecFor(fuel: nat, variable: string, counter: Option<string>, items: seq<Value>, k: nat,
                   body: seq<Statement>, st: State): Eval<Control>
    decreases fuel
  {
    if fuel == 0 then Timeout
    else if |items| <= k then Done(Normal, st)
    else RepeatFor(fuel - 1, variable, counter, items, k, body, st)
  }

  function RepeatFor(fuel: nat, variable: string, counter: Option<string>, items: seq<Value>, k: nat,
                     body: seq<Statement>, st: State): Eval<Control>
    requires k < |items|
    decreases fuel
  {
    if fuel == 0 then Timeout
    else
      match ExecScoped(fuel - 1, body, LoopBindings(variable, counter, items[k], k), st)
      case Stuck => Stuck
      case Timeout => Timeout
      case Done(control, st1) =>
        match control
        case Breaking => Done(Normal, st1)
        case Returned(r) => Done(control, st1)
        case _ => ExecFor(fuel - 1, variable, counter, items, k + 1, body, st1)
  }

  predicate IsDeclaration(s: Statement) {
    s.Type? || s.Enum? || s.Impl? || s.ExternFunction? || s.Module? || s.Load? || s.LoadLocal?
  }

  /** One top-level statement: functions and lets become globals, other declarations
      do nothing at run time, the rest runs. */
  function ExecTop(fuel: nat, s: Statement, st: State): Eval<Control> {
    match s
    case Function(name, _, params, body, _, _, _) =>
      Done(Normal, st.(globals := st.globals + [Binding(name, ClosureV(Names(params), body, []))]))
    case Let(name, _, init, _, _, _) =>
      (match EvalOptional(fuel, init, st)
       case Stuck => Stuck
       case Timeout => Timeout
       case Done(v, st1) => Done(Normal, st1.(globals := st1.globals + [Binding(name, v)])))
    case _ => if IsDeclaration(s) then Done(Normal, st) else ExecStmt(fuel, s, st)
  }

  /** A whole module: its statements in order, stopping at the first that does not end normally. */
  function ExecModule(fuel: nat, ss: seq<Statement>, st: State): Eval<Control> {
    if ss == [] then Done(Normal, st)
    else
      match ExecTop(fuel, ss[0], st)
      case Stuck => Stuck
      case Timeout => Timeout
      case Done(control, st1) =>
        if control.Normal? then ExecModule(fuel, ss[1..], st1) else Done(control, st1)
  }
}
