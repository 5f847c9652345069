/**
  What stands in the text of a program, without scopes or numbers: every bound name with its
  type, the depth of its scope and whether it is inside an `unsafe` block; the functions, the
  facts, the `unsafe` blocks and the scopes.  The model of a program is exactly that.
*/
module ScopeOutline {
  import opened Wrappers
  import opened Ast
  import opened Text
  import opened Dependencies
  import opened ScopeEvents
  import opened ScopeTree

  datatype Written = Written(binding: NewBinding, depth: nat, inUnsafe: bool)

  datatype Defined = Defined(name: string, params: seq<DataType>, ret: DataType, isMethod: bool)

  datatype Outline = Outline(bindings: seq<Written>, functions: seq<Defined>, facts: seq<Fact>,
                             unsafeBlocks: nat, scopes: nat)

  /** Where a piece of text stands: in the `impl` block of a type, how deep, and whether in an
      `unsafe` block. */
  datatype Place = Place(owner: Option<string>, depth: nat, inUnsafe: bool)

  const NOTHING := Outline([], [], [], 0, 0)

  function Then(a: Outline, b: Outline): Outline {
    Outline(a.bindings + b.bindings, a.functions + b.functions, a.facts + b.facts,
            a.unsafeBlocks + b.unsafeBlocks, a.scopes + b.scopes)
  }

  // ---- the text

  function Deeper(p: Place): Place { p.(depth := p.depth + 1) }

  function InBlock(o: Outline): Outline { o.(scopes := o.scopes + 1) }

  function Bound(b: NewBinding, p: Place): Outline {
    NOTHING.(bindings := [Written(b, p.depth, p.inUnsafe)])
  }

  /** A name that is bound to a value of its own. */
  function Local(name: string, ty: DataType): NewBinding { NewBinding(name, ty, Value, None, false, false) }

  predicate PointsOrOwns(ty: DataType) { ty.Ref? || ty.RefMut? || ty.BoxType? }

  function KindOfType(ty: DataType): BindingKind
    requires PointsOrOwns(ty)
  {
    if ty.Ref? then SharedRef else if ty.RefMut? then MutableRef else Boxed
  }

  function ParamText(name: string, ty: DataType): NewBinding {
    NewBinding(name, ty, if PointsOrOwns(ty) then KindOfType(ty) else Parameter, None, false, false)
  }

  predicate IsReferenceTo(e: Expression, isMutable: bool) { e.Node? && e.op == Reference(isMutable) }

  /** A `let`: its type decides what it is, or else the form of its value. */
  function LetText(name: string, ty: DataType, init: Option<Expression>, isConstant: bool, isStatic: bool): NewBinding {
    NewBinding(name, ty,
               if PointsOrOwns(ty) then KindOfType(ty)
               else if init.None? then Value
               else if IsReferenceTo(init.value, true) then MutableRef
               else if IsReferenceTo(init.value, false) then SharedRef
               else if init.value.Node? && init.value.op == BoxOf then Boxed
               else Value,
               if init.Some? && BorrowsVariable(init.value) then Some(init.value.children[0].name) else None,
               isConstant, isStatic)
  }

  function Noted(facts: seq<Fact>): Outline { NOTHING.(facts := facts) }

  function BoundParams(params: seq<Param>, p: Place): Outline
  {
    if params == [] then NOTHING else Then(Bound(ParamText(params[0].name, params[0].ty), p), BoundParams(params[1..], p))
  }

  function BoundCaptures(captures: seq<Param>, p: Place): Outline
  {
    if captures == [] then NOTHING else Then(Bound(Local(captures[0].name, captures[0].ty), p), BoundCaptures(captures[1..], p))
  }

  function BoundPayloads(payloads: seq<Expression>, p: Place): Outline {
    if payloads == [] then NOTHING
    else if payloads[0].Identifier? then Then(Bound(Local(payloads[0].name, ANYTHING), p), BoundPayloads(payloads[1..], p))
    else BoundPayloads(payloads[1..], p)
  }

  function BoundInPattern(pattern: Expression, p: Place): Outline {
    if pattern.Variant? then BoundPayloads(pattern.payloads, p) else NOTHING
  }

  /** `&x` and `&mut x`, for the variable `x`. */
  predicate BorrowsVariable(e: Expression) {
    e.Node? && e.op.Reference? && e.children != [] && e.children[0].Identifier?
  }

  function Borrowed(borrower: Option<string>, e: Expression): Outline {
    if BorrowsVariable(e) then Noted([Borrow(e.children[0].name, borrower, e.op.isMutable)]) else NOTHING
  }

  function ExprText(e: Expression, p: Place): Outline
    decreases e, 1
  {
    match e
    case Literal(_) => NOTHING
    case Identifier(_, _) => NOTHING
    case VariantPath(_, _, _) => NOTHING
    case Node(_, children, _) => Then(Borrowed(None, e), ExprsText(children, p))
    case Call(_, args, _, _) => ExprsText(args, p)
    case Closure(params, body, _, captures) =>
      InBlock(Then(Then(BoundCaptures(captures, Deeper(p)), BoundParams(params, Deeper(p))), BlockText(body, Deeper(p))))
    case MatchExpr(subject, arms, default, _) =>
      Then(Then(ExprText(subject, p), ExprArmsText(arms, p)), ExprText(default, p))
    case Variant(_, _, payloads, _) => ExprsText(payloads, p)
    case Ascription(inner, _, _) => ExprText(inner, p)
    case UseMacro(inner) => ExprText(inner, p)
    case MacroCall(inner) => ExprText(inner, p)
  }

  function ExprsText(es: seq<Expression>, p: Place): Outline
    decreases es, 0
  {
    if es == [] then NOTHING else Then(ExprText(es[0], p), ExprsText(es[1..], p))
  }

  function ExprArmsText(arms: seq<ExprArm>, p: Place): Outline
    decreases arms, 1
  {
    if arms == [] then NOTHING else Then(ExprArmText(arms[0], p), ExprArmsText(arms[1..], p))
  }

  function ExprArmText(arm: ExprArm, p: Place): Outline
    decreases arm, 0
  {
    var ExprArm(pattern, result) := arm;
    InBlock(Then(BoundInPattern(pattern, Deeper(p)), ExprText(result, Deeper(p))))
  }

  function StmtArmsText(arms: seq<StmtArm>, p: Place): Outline
    decreases arms, 1
  {
    if arms == [] then NOTHING else Then(StmtArmText(arms[0], p), StmtArmsText(arms[1..], p))
  }

  function StmtArmText(arm: StmtArm, p: Place): Outline
    decreases arm, 0
  {
    var StmtArm(pattern, body) := arm;
    InBlock(Then(BoundInPattern(pattern, Deeper(p)), BlockText(body, Deeper(p))))
  }

  function OptionalText(e: Option<Expression>, p: Place): Outline
    decreases e, 0
  {
    match e case Some(x) => ExprText(x, p) case None => NOTHING
  }

  function TargetText(target: Target, p: Place): Outline
    decreases target, 0
  {
    match target case Index(base, index) => Then(ExprText(base, p), ExprText(index, p)) case _ => NOTHING
  }

  /** A function inside `impl T` is called `T.name`. */
  function CalledName(name: string, p: Place): string {
    Canonical(match p.owner case Some(owner) => owner + "." + name case None => name)
  }

  function TypesOf(params: seq<Param>): seq<DataType> {
    if params == [] then [] else [params[0].ty] + TypesOf(params[1..])
  }

  function StmtText(s: Statement, p: Place): Outline
    decreases s, 1
  {
    match s
    case Let(name, ty, init, _, isConstant, isStatic) =>
      Then(Bound(LetText(name, ty, init, isConstant, isStatic), p), OptionalText(init, p))
    case Assignment(target, value) =>
      Then(Then(Borrowed(BindingName(target), value), TargetText(target, p)), ExprText(value, p))
    case Function(name, _, params, body, ret, _, isMethod) =>
      Then(NOTHING.(functions := [Defined(CalledName(name, p), TypesOf(params), ret, isMethod)]),
           InBlock(Then(BoundParams(params, Deeper(p)), BlockText(body, Deeper(p)))))
    case Return(result) => OptionalText(result, p)
    case If(condition, thenBranch, elseBranch) =>
      Then(Then(ExprText(condition, p), InBlock(BlockText(thenBranch, Deeper(p)))),
           match elseBranch case NoElse => NOTHING case Else(b) => InBlock(BlockText(b, Deeper(p))))
    case While(condition, body) => Then(ExprText(condition, p), InBlock(BlockText(body, Deeper(p))))
    case For(variable, counter, iterable, body) =>
      Then(ExprText(iterable, p),
           InBlock(Then(Then(Bound(Local(variable, ANYTHING), Deeper(p)),
                             match counter case Some(n) => Bound(Local(n, I64), Deeper(p)) case None => NOTHING),
                        BlockText(body, Deeper(p)))))
    case Find(variable, iterable, body) =>
      Then(ExprText(iterable, p), InBlock(Then(Bound(Local(variable, ANYTHING), Deeper(p)), BlockText(body, Deeper(p)))))
    case ExprStmt(expr) => ExprText(expr, p)
    case Match(subject, arms, default) =>
      Then(Then(ExprText(subject, p), StmtArmsText(arms, p)), InBlock(BlockText(default, Deeper(p))))
    case Impl(_, typeName, _, methods) => BlockText(methods, p.(owner := Some(typeName)))
    case Type(_, _, _, fields, _) => BlockText(fields, p)
    case Unsafe(body) =>
      var inner := InBlock(BlockText(body, Deeper(p).(inUnsafe := true)));
      inner.(unsafeBlocks := inner.unsafeBlocks + 1)
    case Drop(value) =>
      Then(ExprText(value, p), if value.Identifier? then Noted([Dropped(value.name)]) else NOTHING)
    case Move(moved, value) =>
      Then(ExprText(value, p), Noted([Moved(moved, if value.Identifier? then Some(value.name) else None)]))
    case _ => NOTHING
  }

  function BlockText(ss: seq<Statement>, p: Place): Outline
    decreases ss, 0
  {
    if ss == [] then NOTHING else Then(StmtText(ss[0], p), BlockText(ss[1..], p))
  }

  // ---- reading events

  /** What was read so far, and which of the open scopes are bodies of `unsafe` blocks. */
  datatype Reading = Reading(out: Outline, open: seq<bool>)

  function Read(r: Reading, e: Event): (q: Reading)
    requires r.open != []
    ensures q.open != []
  {
    match e
    case Open(isUnsafe) =>
      Reading(r.out.(scopes := r.out.scopes + 1, unsafeBlocks := r.out.unsafeBlocks + if isUnsafe then 1 else 0),
              r.open + [isUnsafe])
    case Close => if |r.open| > 1 then r.(open := r.open[..|r.open| - 1]) else r
    case Bind(b) => r.(out := r.out.(bindings := r.out.bindings + [Written(b, |r.open| - 1, true in r.open)]))
    case Declare(name, params, ret, isMethod) =>
      r.(out := r.out.(functions := r.out.functions + [Defined(name, params, ret, isMethod)]))
    case Record(fact) => r.(out := r.out.(facts := r.out.facts + [fact]))
  }

  function ReadAll(r: Reading, es: seq<Event>): (q: Reading)
    requires r.open != []
    ensures q.open != []
    decreases |es|
  {
    if es == [] then r else ReadAll(Read(r, es[0]), es[1..])
  }

  lemma {:induction false} ReadInTwo(r: Reading, a: seq<Event>, b: seq<Event>)
    requires r.open != []
    ensures ReadAll(r, a + b) == ReadAll(ReadAll(r, a), b)
    decreases |a|
  {
    if a == [] {
      assert a + b == b;
    } else {
      ReadInTwo(Read(r, a[0]), a[1..], b);
      assert (a + b)[1..] == a[1..] + b;
    }
  }

  /** The events `es` say `o` and close every scope they open. */
  ghost predicate Says(r: Reading, es: seq<Event>, o: Outline)
    requires r.open != []
  {
    ReadAll(r, es) == Reading(Then(r.out, o), r.open)
  }

  function Said(r: Reading, o: Outline): Reading { r.(out := Then(r.out, o)) }

  lemma SaysNothing(r: Reading)
    requires r.open != []
    ensures Says(r, [], NOTHING)
  {
  }

  lemma SaysOne(r: Reading, e: Event, o: Outline)
    requires r.open != [] && Read(r, e) == Said(r, o)
    ensures Says(r, [e], o)
  {
    assert ReadAll(r, [e]) == ReadAll(Read(r, e), []);
  }

  lemma SaysBoth(r: Reading, a: seq<Event>, oa: Outline, b: seq<Event>, ob: Outline)
    requires r.open != [] && Says(r, a, oa) && Says(Said(r, oa), b, ob)
    ensures Says(r, a + b, Then(oa, ob))
  {
    hide ReadAll;
    ReadInTwo(r, a, b);
    assert Then(Then(r.out, oa), ob) == Then(r.out, Then(oa, ob));
  }

  lemma SaysScoped(r: Reading, isUnsafe: bool, inner: seq<Event>, o: Outline)
    requires r.open != [] && Says(Read(r, Open(isUnsafe)), inner, o)
    ensures Says(r, Scoped(isUnsafe, inner),
                 o.(scopes := o.scopes + 1, unsafeBlocks := o.unsafeBlocks + if isUnsafe then 1 else 0))
  {
    var inside := Read(r, Open(isUnsafe));
    var es := Scoped(isUnsafe, inner);
    assert es[0] == Open(isUnsafe) && es[1..] == inner + [Close];
    ReadInTwo(inside, inner, [Close]);
    var q := Said(inside, o);
    assert ReadAll(q, [Close]) == ReadAll(Read(q, Close), []);
    assert q.open[..|r.open|] == r.open;
  }

  /** Where the text stands that these events come from. */
  function PlaceOf(owner: Option<string>, open: seq<bool>): Place
    requires open != []
  {
    Place(owner, |open| - 1, true in open)
  }

  lemma PlaceInside(owner: Option<string>, open: seq<bool>, isUnsafe: bool)
    requires open != []
    ensures PlaceOf(owner, open + [isUnsafe]) ==
            if isUnsafe then Deeper(PlaceOf(owner, open)).(inUnsafe := true) else Deeper(PlaceOf(owner, open))
  {
    assert true in open + [isUnsafe] <==> true in open || isUnsafe;
  }

  // ---- rows of bindings and facts

  lemma {:induction false} ParamsSay(r: Reading, owner: Option<string>, params: seq<Param>)
    requires r.open != []
    ensures Says(r, ParamEvents(params), BoundParams(params, PlaceOf(owner, r.open)))
    decreases |params|
  {
    hide ReadAll, Says;
    if params == [] {
      SaysNothing(r);
    } else {
      var p := PlaceOf(owner, r.open);
      var es := ParamEvents(params);
      assert es[1..] == ParamEvents(params[1..]) && es == [es[0]] + es[1..];
      var o := Bound(ParamText(params[0].name, params[0].ty), p);
      SaysOne(r, es[0], o);
      ParamsSay(Said(r, o), owner, params[1..]);
      SaysBoth(r, [es[0]], o, es[1..], BoundParams(params[1..], p));
    }
  }

  lemma {:induction false} CapturesSay(r: Reading, owner: Option<string>, captures: seq<Param>)
    requires r.open != []
    ensures Says(r, CaptureEvents(captures), BoundCaptures(captures, PlaceOf(owner, r.open)))
    decreases |captures|
  {
    hide ReadAll, Says;
    if captures == [] {
      SaysNothing(r);
    } else {
      var p := PlaceOf(owner, r.open);
      var es := CaptureEvents(captures);
      assert es[1..] == CaptureEvents(captures[1..]) && es == [es[0]] + es[1..];
      var o := Bound(Local(captures[0].name, captures[0].ty), p);
      SaysOne(r, es[0], o);
      CapturesSay(Said(r, o), owner, captures[1..]);
      SaysBoth(r, [es[0]], o, es[1..], BoundCaptures(captures[1..], p));
    }
  }

  lemma {:induction false} PayloadsSay(r: Reading, owner: Option<string>, payloads: seq<Expression>)
    requires r.open != []
    ensures Says(r, PayloadEvents(payloads), BoundPayloads(payloads, PlaceOf(owner, r.open)))
    decreases |payloads|
  {
    hide ReadAll, Says;
    if payloads == [] {
      SaysNothing(r);
    } else if payloads[0].Identifier? {
      var p, e := PlaceOf(owner, r.open), Plain(payloads[0].name, ANYTHING);
      var o := Bound(Local(payloads[0].name, ANYTHING), p);
      SaysOne(r, e, o);
      PayloadsSay(Said(r, o), owner, payloads[1..]);
      SaysBoth(r, [e], o, PayloadEvents(payloads[1..]), BoundPayloads(payloads[1..], p));
    } else {
      PayloadsSay(r, owner, payloads[1..]);
    }
  }

  lemma PatternSays(r: Reading, owner: Option<string>, pattern: Expression)
    requires r.open != []
    ensures Says(r, PatternEvents(pattern), BoundInPattern(pattern, PlaceOf(owner, r.open)))
  {
    hide ReadAll, Says;
    if pattern.Variant? { PayloadsSay(r, owner, pattern.payloads); } else { SaysNothing(r); }
  }

  lemma BorrowSays(r: Reading, borrower: Option<string>, e: Expression)
    requires r.open != []
    ensures Says(r, BorrowEvents(borrower, e), Borrowed(borrower, e))
  {
    hide ReadAll, Says;
    if BorrowsVariable(e) {
      SaysOne(r, Record(Borrow(e.children[0].name, borrower, e.op.isMutable)), Borrowed(borrower, e));
    } else {
      SaysNothing(r);
    }
  }

  /** Bindings at the start of a safe scope, and its contents. */
  lemma SaysRowInScope(r: Reading, row: seq<Event>, orow: Outline, inner: seq<Event>, o: Outline)
    requires r.open != []
    requires Says(Read(r, Open(false)), row, orow) && Says(Said(Read(r, Open(false)), orow), inner, o)
    ensures Says(r, Scoped(false, row + inner), InBlock(Then(orow, o)))
  {
    hide ReadAll, Says, Scoped;
    SaysBoth(Read(r, Open(false)), row, orow, inner, o);
    SaysScoped(r, false, row + inner, Then(orow, o));
  }

  // ---- the walk: what the events of a tree say is what its text holds

  lemma {:induction false} ExprSays(r: Reading, e: Expression, owner: Option<string>)
    requires r.open != []
    ensures Says(r, ExprEvents(e, owner), ExprText(e, PlaceOf(owner, r.open)))
    decreases e, 1
  {
    hide ReadAll, Says, Scoped, Read, Then;
    var p := PlaceOf(owner, r.open);
    match e
    case Node(_, children, _) =>
      BorrowSays(r, None, e);
      ExprsSay(Said(r, Borrowed(None, e)), children, owner);
      SaysBoth(r, BorrowEvents(None, e), Borrowed(None, e), ExprsEvents(children, owner), ExprsText(children, p));
    case Call(_, args, _, _) => ExprsSay(r, args, owner);
    case Closure(_, _, _, _) => ClosureSays(r, e, owner);
    case MatchExpr(subject, arms, default, _) =>
      var a, b, c := ExprText(subject, p), ExprArmsText(arms, p), ExprText(default, p);
      ExprSays(r, subject, owner);
      ExprArmsSay(Said(r, a), arms, owner);
      SaysBoth(r, ExprEvents(subject, owner), a, ExprArmsEvents(arms, owner), b);
      ExprSays(Said(r, Then(a, b)), default, owner);
      SaysBoth(r, ExprEvents(subject, owner) + ExprArmsEvents(arms, owner), Then(a, b), ExprEvents(default, owner), c);
    case Variant(_, _, payloads, _) => ExprsSay(r, payloads, owner);
    case Ascription(inner, _, _) => ExprSays(r, inner, owner);
    case UseMacro(inner) => ExprSays(r, inner, owner);
    case MacroCall(inner) => ExprSays(r, inner, owner);
    case _ => SaysNothing(r);
  }

  lemma {:induction false} ClosureSays(r: Reading, e: Expression, owner: Option<string>)
    requires r.open != [] && e.Closure?
    ensures Says(r, ExprEvents(e, owner), ExprText(e, PlaceOf(owner, r.open)))
    decreases e, 0
  {
    hide ReadAll, Says, Scoped, Then;
    var Closure(params, body, _, captures) := e;
    PlaceInside(owner, r.open, false);
    var inside, p := Read(r, Open(false)), Deeper(PlaceOf(owner, r.open));
    var a, b := BoundCaptures(captures, p), BoundParams(params, p);
    CapturesSay(inside, owner, captures);
    ParamsSay(Said(inside, a), owner, params);
    SaysBoth(inside, CaptureEvents(captures), a, ParamEvents(params), b);
    BlockSays(Said(inside, Then(a, b)), body, owner);
    SaysRowInScope(r, CaptureEvents(captures) + ParamEvents(params), Then(a, b), BlockEvents(body, owner), BlockText(body, p));
  }

  lemma {:induction false} ExprsSay(r: Reading, es: seq<Expression>, owner: Option<string>)
    requires r.open != []
    ensures Says(r, ExprsEvents(es, owner), ExprsText(es, PlaceOf(owner, r.open)))
    decreases es, 0
  {
    hide ReadAll, Says, Then, ExprEvents, ExprText;
    var p := PlaceOf(owner, r.open);
    if es == [] {
      SaysNothing(r);
    } else {
      var o := ExprText(es[0], p);
      ExprSays(r, es[0], owner);
      ExprsSay(Said(r, o), es[1..], owner);
      SaysBoth(r, ExprEvents(es[0], owner), o, ExprsEvents(es[1..], owner), ExprsText(es[1..], p));
    }
  }

  lemma {:induction false} ExprArmsSay(r: Reading, arms: seq<ExprArm>, owner: Option<string>)
    requires r.open != []
    ensures Says(r, ExprArmsEvents(arms, owner), ExprArmsText(arms, PlaceOf(owner, r.open)))
    decreases arms, 1
  {
    hide ReadAll, Says, Then, ExprArmEvents, ExprArmText;
    var p := PlaceOf(owner, r.open);
    if arms == [] {
      SaysNothing(r);
    } else {
      var o := ExprArmText(arms[0], p);
      ExprArmSays(r, arms[0], owner);
      ExprArmsSay(Said(r, o), arms[1..], owner);
      SaysBoth(r, ExprArmEvents(arms[0], owner), o, ExprArmsEvents(arms[1..], owner), ExprArmsText(arms[1..], p));
    }
  }

  lemma {:induction false} ExprArmSays(r: Reading, arm: ExprArm, owner: Option<string>)
    requires r.open != []
    ensures Says(r, ExprArmEvents(arm, owner), ExprArmText(arm, PlaceOf(owner, r.open)))
    decreases arm, 0
  {
    hide ReadAll, Says, Scoped, Then;
    var ExprArm(pattern, result) := arm;
    PlaceInside(owner, r.open, false);
    var inside, p := Read(r, Open(false)), Deeper(PlaceOf(owner, r.open));
    var o := BoundInPattern(pattern, p);
    PatternSays(inside, owner, pattern);
    ExprSays(Said(inside, o), result, owner);
    SaysRowInScope(r, PatternEvents(pattern), o, ExprEvents(result, owner), ExprText(result, p));
  }

  lemma {:induction false} StmtArmsSay(r: Reading, arms: seq<StmtArm>, owner: Option<string>)
    requires r.open != []
    ensures Says(r, StmtArmsEvents(arms, owner), StmtArmsText(arms, PlaceOf(owner, r.open)))
    decreases arms, 1
  {
    hide ReadAll, Says, Then, StmtArmEvents, StmtArmText;
    var p := PlaceOf(owner, r.open);
    if arms == [] {
      SaysNothing(r);
    } else {
      var o := StmtArmText(arms[0], p);
      StmtArmSays(r, arms[0], owner);
      StmtArmsSay(Said(r, o), arms[1..], owner);
      SaysBoth(r, StmtArmEvents(arms[0], owner), o, StmtArmsEvents(arms[1..], owner), StmtArmsText(arms[1..], p));
    }
  }

  lemma {:induction false} StmtArmSays(r: Reading, arm: StmtArm, owner: Option<string>)
    requires r.open != []
    ensures Says(r, StmtArmEvents(arm, owner), StmtArmText(arm, PlaceOf(owner, r.open)))
    decreases arm, 0
  {
    hide ReadAll, Says, Scoped, Then;
    var StmtArm(pattern, body) := arm;
    PlaceInside(owner, r.open, false);
    var inside, p := Read(r, Open(false)), Deeper(PlaceOf(owner, r.open));
    var o := BoundInPattern(pattern, p);
    PatternSays(inside, owner, pattern);
    BlockSays(Said(inside, o), body, owner);
    SaysRowInScope(r, PatternEvents(pattern), o, BlockEvents(body, owner), BlockText(body, p));
  }

  lemma {:induction false} OptionalSays(r: Reading, e: Option<Expression>, owner: Option<string>)
    requires r.open != []
    ensures Says(r, OptionalEvents(e, owner), OptionalText(e, PlaceOf(owner, r.open)))
    decreases e, 0
  {
    hide ReadAll, Says, ExprEvents, ExprText;
    match e case Some(x) => ExprSays(r, x, owner); case None => SaysNothing(r);
  }

  lemma {:induction false} TargetSays(r: Reading, target: Target, owner: Option<string>)
    requires r.open != []
    ensures Says(r, TargetEvents(target, owner), TargetText(target, PlaceOf(owner, r.open)))
    decreases target, 0
  {
    hide ReadAll, Says, Then, ExprEvents, ExprText;
    var p := PlaceOf(owner, r.open);
    match target
    case Index(base, index) =>
      ExprSays(r, base, owner);
      ExprSays(Said(r, ExprText(base, p)), index, owner);
      SaysBoth(r, ExprEvents(base, owner), ExprText(base, p), ExprEvents(index, owner), ExprText(index, p));
    case _ => SaysNothing(r);
  }

  lemma {:induction false} BlockSays(r: Reading, ss: seq<Statement>, owner: Option<string>)
    requires r.open != []
    ensures Says(r, BlockEvents(ss, owner), BlockText(ss, PlaceOf(owner, r.open)))
    decreases ss, 0
  {
    hide ReadAll, Says, Then, StmtEvents, StmtText;
    var p := PlaceOf(owner, r.open);
    if ss == [] {
      SaysNothing(r);
    } else {
      var o := StmtText(ss[0], p);
      StmtSays(r, ss[0], owner);
      BlockSays(Said(r, o), ss[1..], owner);
      SaysBoth(r, StmtEvents(ss[0], owner), o, BlockEvents(ss[1..], owner), BlockText(ss[1..], p));
    }
  }

  /** A block in a scope of its own. */
  lemma {:induction false} ScopeSays(r: Reading, isUnsafe: bool, ss: seq<Statement>, owner: Option<string>)
    requires r.open != []
    ensures var p := PlaceOf(owner, r.open);
      var o := BlockText(ss, if isUnsafe then Deeper(p).(inUnsafe := true) else Deeper(p));
      Says(r, Scoped(isUnsafe, BlockEvents(ss, owner)),
           o.(scopes := o.scopes + 1, unsafeBlocks := o.unsafeBlocks + if isUnsafe then 1 else 0))
    decreases ss, 1
  {
    hide ReadAll, Says, Scoped, Then, BlockEvents, BlockText;
    PlaceInside(owner, r.open, isUnsafe);
    var inside := Read(r, Open(isUnsafe));
    BlockSays(inside, ss, owner);
    SaysScoped(r, isUnsafe, BlockEvents(ss, owner), BlockText(ss, PlaceOf(owner, inside.open)));
  }

  lemma {:induction false} StmtSays(r: Reading, s: Statement, owner: Option<string>)
    requires r.open != []
    ensures Says(r, StmtEvents(s, owner), StmtText(s, PlaceOf(owner, r.open)))
    decreases s, 2
  {
    hide ReadAll, Says, Scoped, Then, StmtEvents, StmtText;
    if s.If? || s.While? || s.For? || s.Find? || s.Match? {
      ControlSays(r, s, owner);
    } else {
      OtherSays(r, s, owner);
    }
  }

  lemma {:induction false} ControlSays(r: Reading, s: Statement, owner: Option<string>)
    requires r.open != [] && (s.If? || s.While? || s.For? || s.Find? || s.Match?)
    ensures Says(r, StmtEvents(s, owner), StmtText(s, PlaceOf(owner, r.open)))
    decreases s, 1
  {
    hide ReadAll, Says, Scoped, Then, ExprEvents, ExprText, BlockEvents, BlockText, Read;
    var p := PlaceOf(owner, r.open);
    match s
    case If(_, _, _) => IfSays(r, s, owner);
    case While(condition, body) =>
      var o := ExprText(condition, p);
      ExprSays(r, condition, owner);
      ScopeSays(Said(r, o), false, body, owner);
      SaysBoth(r, ExprEvents(condition, owner), o, Scoped(false, BlockEvents(body, owner)), InBlock(BlockText(body, Deeper(p))));
    case For(_, _, _, _) => ForSays(r, s, owner);
    case Find(variable, iterable, body) =>
      var o := ExprText(iterable, p);
      ExprSays(r, iterable, owner);
      OneNameSays(Said(r, o), owner, variable, ANYTHING);
      LoopSays(Said(r, o), [Plain(variable, ANYTHING)], Bound(Local(variable, ANYTHING), Deeper(p)), body, owner);
      SaysBoth(r, ExprEvents(iterable, owner), o, Scoped(false, [Plain(variable, ANYTHING)] + BlockEvents(body, owner)),
               InBlock(Then(Bound(Local(variable, ANYTHING), Deeper(p)), BlockText(body, Deeper(p)))));
    case Match(subject, arms, default) =>
      var a, b := ExprText(subject, p), StmtArmsText(arms, p);
      ExprSays(r, subject, owner);
      StmtArmsSay(Said(r, a), arms, owner);
      SaysBoth(r, ExprEvents(subject, owner), a, StmtArmsEvents(arms, owner), b);
      ScopeSays(Said(r, Then(a, b)), false, default, owner);
      SaysBoth(r, ExprEvents(subject, owner) + StmtArmsEvents(arms, owner), Then(a, b),
               Scoped(false, BlockEvents(default, owner)), InBlock(BlockText(default, Deeper(p))));
  }

  lemma OneNameSays(r: Reading, owner: Option<string>, name: string, ty: DataType)
    requires r.open != []
    ensures Says(Read(r, Open(false)), [Plain(name, ty)], Bound(Local(name, ty), Deeper(PlaceOf(owner, r.open))))
  {
    hide ReadAll, Says;
    PlaceInside(owner, r.open, false);
    SaysOne(Read(r, Open(false)), Plain(name, ty), Bound(Local(name, ty), Deeper(PlaceOf(owner, r.open))));
  }

  /** A loop body under one binding or two. */
  lemma {:induction false} LoopSays(r: Reading, row: seq<Event>, orow: Outline, body: seq<Statement>, owner: Option<string>)
    requires r.open != [] && Says(Read(r, Open(false)), row, orow)
    ensures Says(r, Scoped(false, row + BlockEvents(body, owner)),
                 InBlock(Then(orow, BlockText(body, Deeper(PlaceOf(owner, r.open))))))
    decreases body, 1
  {
    hide ReadAll, Says, Scoped, Then, BlockEvents, BlockText;
    PlaceInside(owner, r.open, false);
    var inside := Read(r, Open(false));
    BlockSays(Said(inside, orow), body, owner);
    SaysRowInScope(r, row, orow, BlockEvents(body, owner), BlockText(body, Deeper(PlaceOf(owner, r.open))));
  }

  lemma {:induction false} ForSays(r: Reading, s: Statement, owner: Option<string>)
    requires r.open != [] && s.For?
    ensures Says(r, StmtEvents(s, owner), StmtText(s, PlaceOf(owner, r.open)))
    decreases s, 0
  {
    hide ReadAll, Says, Scoped, ExprEvents, ExprText, BlockEvents, BlockText;
    var For(variable, counter, iterable, body) := s;
    var p := PlaceOf(owner, r.open);
    var o, b := ExprText(iterable, p), Bound(Local(variable, ANYTHING), Deeper(p));
    var rest := if counter.Some? then [Plain(counter.value, I64)] else [];
    var orest := if counter.Some? then Bound(Local(counter.value, I64), Deeper(p)) else NOTHING;
    ExprSays(r, iterable, owner);
    PlaceInside(owner, r.open, false);
    var inside := Read(Said(r, o), Open(false));
    OneNameSays(Said(r, o), owner, variable, ANYTHING);
    if counter.Some? { SaysOne(Said(inside, b), rest[0], orest); } else { SaysNothing(Said(inside, b)); }
    SaysBoth(inside, [Plain(variable, ANYTHING)], b, rest, orest);
    LoopSays(Said(r, o), [Plain(variable, ANYTHING)] + rest, Then(b, orest), body, owner);
    SaysBoth(r, ExprEvents(iterable, owner), o,
             Scoped(false, [Plain(variable, ANYTHING)] + rest + BlockEvents(body, owner)),
             InBlock(Then(Then(b, orest), BlockText(body, Deeper(p)))));
  }

  lemma {:induction false} IfSays(r: Reading, s: Statement, owner: Option<string>)
    requires r.open != [] && s.If?
    ensures Says(r, StmtEvents(s, owner), StmtText(s, PlaceOf(owner, r.open)))
    decreases s, 0
  {
    hide ReadAll, Says, Scoped, Then, ExprEvents, ExprText, BlockEvents, BlockText, Read;
    var p := PlaceOf(owner, r.open);
    var a, b := ExprText(s.condition, p), InBlock(BlockText(s.thenBranch, Deeper(p)));
    ExprSays(r, s.condition, owner);
    ScopeSays(Said(r, a), false, s.thenBranch, owner);
    var front, inner := ExprEvents(s.condition, owner), Scoped(false, BlockEvents(s.thenBranch, owner));
    SaysBoth(r, front, a, inner, b);
    match s.elseBranch
    case NoElse =>
      SaysNothing(Said(r, Then(a, b)));
      SaysBoth(r, front + inner, Then(a, b), [], NOTHING);
    case Else(body) =>
      ScopeSays(Said(r, Then(a, b)), false, body, owner);
      SaysBoth(r, front + inner, Then(a, b), Scoped(false, BlockEvents(body, owner)), InBlock(BlockText(body, Deeper(p))));
  }

  lemma {:induction false} OtherSays(r: Reading, s: Statement, owner: Option<string>)
    requires r.open != [] && !(s.If? || s.While? || s.For? || s.Find? || s.Match?)
    ensures Says(r, StmtEvents(s, owner), StmtText(s, PlaceOf(owner, r.open)))
    decreases s, 1
  {
    hide ReadAll, Says, Scoped, Then, ExprEvents, ExprText, BlockEvents, BlockText, OptionalEvents, OptionalText;
    var p := PlaceOf(owner, r.open);
    match s
    case Let(_, _, _, _, _, _) => LetSays(r, s, owner);
    case Assignment(_, _) => AssignmentSays(r, s, owner);
    case Function(_, _, _, _, _, _, _) => FunctionSays(r, s, owner);
    case Return(result) => OptionalSays(r, result, owner);
    case ExprStmt(expr) => ExprSays(r, expr, owner);
    case Impl(_, typeName, _, methods) => BlockSays(r, methods, Some(typeName));
    case Type(_, _, _, fields, _) => BlockSays(r, fields, owner);
    case Unsafe(body) => ScopeSays(r, true, body, owner);
    case Drop(value) => DropSays(r, s, owner);
    case Move(_, _) => MoveSays(r, s, owner);
    case _ => SaysNothing(r);
  }

  lemma {:induction false} LetSays(r: Reading, s: Statement, owner: Option<string>)
    requires r.open != [] && s.Let?
    ensures Says(r, StmtEvents(s, owner), StmtText(s, PlaceOf(owner, r.open)))
    decreases s, 0
  {
    hide ReadAll, Says, OptionalEvents, OptionalText, LetBinding, LetText;
    var Let(name, ty, init, _, isConstant, isStatic) := s;
    var p, b := PlaceOf(owner, r.open), LetText(name, ty, init, isConstant, isStatic);
    LetIsItsText(name, ty, init, isConstant, isStatic);
    SaysOne(r, Bind(b), Bound(b, p));
    OptionalSays(Said(r, Bound(b, p)), init, owner);
    SaysBoth(r, [Bind(b)], Bound(b, p), OptionalEvents(init, owner), OptionalText(init, p));
  }

  lemma {:induction false} DropSays(r: Reading, s: Statement, owner: Option<string>)
    requires r.open != [] && s.Drop?
    ensures Says(r, StmtEvents(s, owner), StmtText(s, PlaceOf(owner, r.open)))
    decreases s, 0
  {
    hide ReadAll, Says, ExprEvents, ExprText;
    var o := ExprText(s.value, PlaceOf(owner, r.open));
    ExprSays(r, s.value, owner);
    if s.value.Identifier? {
      var fact := Dropped(s.value.name);
      SaysOne(Said(r, o), Record(fact), Noted([fact]));
      SaysBoth(r, ExprEvents(s.value, owner), o, DropEvents(s.value), Noted([fact]));
    } else {
      SaysNothing(Said(r, o));
      SaysBoth(r, ExprEvents(s.value, owner), o, DropEvents(s.value), NOTHING);
    }
  }

  lemma {:induction false} MoveSays(r: Reading, s: Statement, owner: Option<string>)
    requires r.open != [] && s.Move?
    ensures Says(r, StmtEvents(s, owner), StmtText(s, PlaceOf(owner, r.open)))
    decreases s, 0
  {
    hide ReadAll, Says, ExprEvents, ExprText;
    var o, fact := ExprText(s.value, PlaceOf(owner, r.open)), Moved(s.moved, IdentifierName(s.value));
    ExprSays(r, s.value, owner);
    SaysOne(Said(r, o), Record(fact), Noted([fact]));
    SaysBoth(r, ExprEvents(s.value, owner), o, [Record(fact)], Noted([fact]));
  }

  lemma LetIsItsText(name: string, ty: DataType, init: Option<Expression>, isConstant: bool, isStatic: bool)
    ensures LetBinding(name, ty, init, isConstant, isStatic) == LetText(name, ty, init, isConstant, isStatic)
  {
  }

  lemma {:induction false} AssignmentSays(r: Reading, s: Statement, owner: Option<string>)
    requires r.open != [] && s.Assignment?
    ensures Says(r, StmtEvents(s, owner), StmtText(s, PlaceOf(owner, r.open)))
    decreases s, 0
  {
    hide ReadAll, Says, Then, Read, ExprEvents, ExprText, TargetEvents, TargetText, BorrowEvents, Borrowed;
    var p := PlaceOf(owner, r.open);
    var name := BindingName(s.target);
    var a, b, c := Borrowed(name, s.value), TargetText(s.target, p), ExprText(s.value, p);
    BorrowSays(r, name, s.value);
    TargetSays(Said(r, a), s.target, owner);
    SaysBoth(r, BorrowEvents(name, s.value), a, TargetEvents(s.target, owner), b);
    ExprSays(Said(r, Then(a, b)), s.value, owner);
    SaysBoth(r, BorrowEvents(name, s.value) + TargetEvents(s.target, owner), Then(a, b), ExprEvents(s.value, owner), c);
  }

  lemma {:induction false} TypesAre(params: seq<Param>)
    ensures ParamTypes(params) == TypesOf(params)
  {
    if params != [] {
      TypesAre(params[1..]);
      assert ParamTypes(params) == [params[0].ty] + ParamTypes(params[1..]);
    }
  }

  lemma {:induction false} FunctionSays(r: Reading, s: Statement, owner: Option<string>)
    requires r.open != [] && s.Function?
    ensures Says(r, StmtEvents(s, owner), StmtText(s, PlaceOf(owner, r.open)))
    decreases s, 0
  {
    hide ReadAll, Says, Scoped, BlockEvents, BlockText, ParamEvents, BoundParams;
    var Function(name, _, params, body, ret, _, isMethod) := s;
    var p := PlaceOf(owner, r.open);
    TypesAre(params);
    var declare := Declare(FunctionName(owner, name), ParamTypes(params), ret, isMethod);
    var a := NOTHING.(functions := [Defined(CalledName(name, p), TypesOf(params), ret, isMethod)]);
    SaysOne(r, declare, a);
    PlaceInside(owner, r.open, false);
    ParamsSay(Read(Said(r, a), Open(false)), owner, params);
    LoopSays(Said(r, a), ParamEvents(params), BoundParams(params, Deeper(p)), body, owner);
    SaysBoth(r, [declare], a, Scoped(false, ParamEvents(params) + BlockEvents(body, owner)),
             InBlock(Then(BoundParams(params, Deeper(p)), BlockText(body, Deeper(p)))));
  }

  // ---- the model that the events build

  function TextOf(b: BindingInfo): Written {
    Written(b.binding, b.scopeDepth, b.declaredInUnsafe)
  }

  function TextsOf(bindings: seq<BindingInfo>): (r: seq<Written>)
    ensures |r| == |bindings|
  {
    seq(|bindings|, i requires 0 <= i < |bindings| => TextOf(bindings[i]))
  }

  function FactsOf(facts: seq<FactInfo>): (r: seq<Fact>)
    ensures |r| == |facts|
  {
    seq(|facts|, i requires 0 <= i < |facts| => facts[i].fact)
  }

  /** The functions by name; of two with one name the later one stays. */
  function LastOfEach(defined: seq<Defined>): map<string, Defined> {
    if defined == [] then map[]
    else
      var last := defined[|defined| - 1];
      LastOfEach(defined[..|defined| - 1])[last.name := last]
  }

  function DefinedOf(functions: map<string, FunctionInfo>): map<string, Defined> {
    map n | n in functions :: Defined(n, functions[n].params, functions[n].ret, functions[n].isMethod)
  }

  /** The model holds what the text holds. */
  ghost predicate Holds(m: Model, o: Outline) {
    TextsOf(m.bindings) == o.bindings && FactsOf(m.facts) == o.facts && DefinedOf(m.functions) == LastOfEach(o.functions) &&
    |m.bodies| == o.unsafeBlocks && |m.scopes| == o.scopes + 1
  }

  ghost predicate Follows(m: Model, r: Reading) {
    r.open != [] && |m.stack| == |r.open| && Holds(m, r.out) &&
    (forall i | 0 <= i < |m.stack| :: m.stack[i] < |m.scopes| && (m.stack[i] in m.bodies <==> r.open[i])) &&
    forall b | b in m.bodies :: b < |m.scopes|
  }

  lemma {:induction false} UnsafeIsOpen(stack: seq<nat>, bodies: set<nat>, open: seq<bool>)
    requires |stack| == |open| && forall i | 0 <= i < |stack| :: stack[i] in bodies <==> open[i]
    ensures UnsafeDepth(stack, bodies) > 0 <==> true in open
  {
    if stack != [] {
      var n := |stack| - 1;
      UnsafeIsOpen(stack[..n], bodies, open[..n]);
      assert open == open[..n] + [open[n]];
    }
  }

  lemma EventFollows(m: Model, r: Reading, e: Event)
    requires Follows(m, r)
    ensures Follows(Applied(m, e), Read(r, e))
  {
    hide UnsafeDepth, LastOfEach, TextsOf, FactsOf, DefinedOf;
    UnsafeIsOpen(m.stack, m.bodies, r.open);
    match e
    case Bind(b) => OneMoreText(m.bindings, Applied(m, e).bindings[|m.bindings|]);
    case Record(fact) => OneMoreFact(m.facts, FactInfo(fact, Top(m)));
    case Declare(name, params, ret, isMethod) =>
      OneMoreDefined(m.functions, r.out.functions, name, FunctionInfo(params, ret, isMethod, |m.scopes|));
    case _ =>
  }

  lemma OneMoreText(bindings: seq<BindingInfo>, b: BindingInfo)
    ensures TextsOf(bindings + [b]) == TextsOf(bindings) + [TextOf(b)]
  {
  }

  lemma OneMoreFact(facts: seq<FactInfo>, f: FactInfo)
    ensures FactsOf(facts + [f]) == FactsOf(facts) + [f.fact]
  {
  }

  lemma OneMoreDefined(functions: map<string, FunctionInfo>, defined: seq<Defined>, name: string, f: FunctionInfo)
    requires DefinedOf(functions) == LastOfEach(defined)
    ensures DefinedOf(functions[name := f]) == LastOfEach(defined + [Defined(name, f.params, f.ret, f.isMethod)])
  {
    var last := Defined(name, f.params, f.ret, f.isMethod);
    assert (defined + [last])[..|defined|] == defined;
    assert DefinedOf(functions[name := f]) == DefinedOf(functions)[name := last];
  }

  lemma {:induction false} EventsFollow(m: Model, r: Reading, es: seq<Event>)
    requires Follows(m, r)
    ensures m.stack != [] && Follows(AppliedAll(m, es), ReadAll(r, es))
    decreases |es|
  {
    hide Applied, Read, Holds;
    if es != [] {
      EventFollows(m, r, es[0]);
      EventsFollow(Applied(m, es[0]), Read(r, es[0]), es[1..]);
    }
  }

  /** The main result: for every program the model's bindings are the bound names of the text
      in order, each with its type, its depth and whether it stands in an `unsafe` block; its
      functions and facts are those of the text; there are as many unsafe bodies as `unsafe`
      blocks, and one scope more than the constructs that open one. */
  lemma TheModelIsTheText(program: seq<Statement>)
    ensures Holds(AppliedAll(EMPTY, BlockEvents(program, None)), BlockText(program, Place(None, 0, false)))
  {
    hide AppliedAll, ReadAll, BlockEvents, BlockText;
    var r := Reading(NOTHING, [false]);
    var o := BlockText(program, PlaceOf(None, r.open));
    assert Follows(EMPTY, r);
    BlockSays(r, program, None);
    EventsFollow(EMPTY, r, BlockEvents(program, None));
    assert Then(NOTHING, o) == o;
  }
}
