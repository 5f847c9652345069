/**
  What a program asks of the scope builder, as a list of events in source order: open
  and close a scope, bind a name in the innermost scope, record a function or a fact.
*/
module ScopeEvents {
  import opened Wrappers
  import opened Ast
  import opened Text
  import opened Dependencies

  datatype BindingKind = Value | SharedRef | MutableRef | Boxed | Parameter

  datatype NewBinding = NewBinding(name: string, ty: DataType, kind: BindingKind, target: Option<string>,
                                   isConstant: bool, isStatic: bool)

  /** A borrower without a name of its own is `None`. */
  datatype Fact =
    | Borrow(owner: string, borrower: Option<string>, isMutable: bool)
    | Moved(target: string, source: Option<string>)
    | Dropped(name: string)

  datatype Event =
    | Open(isUnsafe: bool)
    | Close
    | Bind(binding: NewBinding)
    | Declare(name: string, params: seq<DataType>, ret: DataType, isMethod: bool)
    | Record(fact: Fact)

  const ANYTHING := Primitive("anything")
  const I64 := Primitive("i64")

  function Scoped(isUnsafe: bool, inner: seq<Event>): seq<Event> {
    [Open(isUnsafe)] + inner + [Close]
  }

  // ---- bindings

  function TypeKind(ty: DataType, otherwise: BindingKind): BindingKind {
    match ty
    case Ref(_) => SharedRef
    case RefMut(_) => MutableRef
    case BoxType => Boxed
    case _ => otherwise
  }

  /** A binding's type decides its kind; failing that, the form of its value does. */
  function ValueKind(ty: DataType, init: Option<Expression>): BindingKind {
    TypeKind(ty,
      match init
      case Some(Node(Reference(isMutable), _, _)) => if isMutable then MutableRef else SharedRef
      case Some(Node(BoxOf, _, _)) => Boxed
      case _ => Value)
  }

  function IdentifierName(e: Expression): Option<string> {
    match e case Identifier(name, _) => Some(name) case _ => None
  }

  /** The variable that a reference expression refers to. */
  function ReferenceTarget(e: Expression): Option<string> {
    match e
    case Node(Reference(_), children, _) => if children == [] then None else IdentifierName(children[0])
    case _ => None
  }

  function LetBinding(name: string, ty: DataType, init: Option<Expression>, isConstant: bool, isStatic: bool): NewBinding {
    NewBinding(name, ty, ValueKind(ty, init),
               match init case Some(e) => ReferenceTarget(e) case None => None, isConstant, isStatic)
  }

  function Plain(name: string, ty: DataType): Event {
    Bind(NewBinding(name, ty, Value, None, false, false))
  }

  function ParamEvents(params: seq<Param>): (r: seq<Event>)
    ensures |r| == |params|
  {
    seq(|params|, i requires 0 <= i < |params| =>
      Bind(NewBinding(params[i].name, params[i].ty, TypeKind(params[i].ty, Parameter), None, false, false)))
  }

  function CaptureEvents(captures: seq<Param>): seq<Event> {
    seq(|captures|, i requires 0 <= i < |captures| => Plain(captures[i].name, captures[i].ty))
  }

  /** The identifiers directly inside an enum pattern. */
  function PatternEvents(pattern: Expression): seq<Event> {
    match pattern case Variant(_, _, payloads, _) => PayloadEvents(payloads) case _ => []
  }

  function PayloadEvents(payloads: seq<Expression>): seq<Event> {
    if payloads == [] then []
    else
      match payloads[0]
      case Identifier(name, _) => [Plain(name, ANYTHING)] + PayloadEvents(payloads[1..])
      case _ => PayloadEvents(payloads[1..])
  }

  function BorrowEvents(borrower: Option<string>, e: Expression): seq<Event> {
    match ReferenceTarget(e)
    case Some(owner) => [Record(Borrow(owner, borrower, e.op.isMutable))]
    case None => []
  }

  function DropEvents(e: Expression): seq<Event> {
    match IdentifierName(e) case Some(name) => [Record(Dropped(name))] case None => []
  }

  function FunctionName(owner: Option<string>, name: string): string {
    Canonical(if owner.Some? then owner.value + "." + name else name)
  }

  function ParamTypes(params: seq<Param>): (r: seq<DataType>)
    ensures |r| == |params|
  {
    seq(|params|, i requires 0 <= i < |params| => params[i].ty)
  }

  // ---- the walk; `owner` is the type of the innermost `impl` block

  function ExprEvents(e: Expression, owner: Option<string>): seq<Event>
    decreases e, 1
  {
    match e
    case Node(_, children, _) => BorrowEvents(None, e) + ExprsEvents(children, owner)
    case Call(_, args, _, _) => ExprsEvents(args, owner)
    case Closure(params, body, _, captures) =>
      Scoped(false, CaptureEvents(captures) + ParamEvents(params) + BlockEvents(body, owner))
    case MatchExpr(subject, arms, default, _) =>
      ExprEvents(subject, owner) + ExprArmsEvents(arms, owner) + ExprEvents(default, owner)
    case Variant(_, _, payloads, _) => ExprsEvents(payloads, owner)
    case Ascription(inner, _, _) => ExprEvents(inner, owner)
    case UseMacro(inner) => ExprEvents(inner, owner)
    case MacroCall(inner) => ExprEvents(inner, owner)
    case _ => []
  }

  function ExprsEvents(es: seq<Expression>, owner: Option<string>): seq<Event>
    decreases es, 0
  {
    if es == [] then [] else ExprEvents(es[0], owner) + ExprsEvents(es[1..], owner)
  }

  function ExprArmsEvents(arms: seq<ExprArm>, owner: Option<string>): seq<Event>
    decreases arms, 0
  {
    if arms == [] then [] else ExprArmEvents(arms[0], owner) + ExprArmsEvents(arms[1..], owner)
  }

  function ExprArmEvents(arm: ExprArm, owner: Option<string>): seq<Event>
    decreases arm, 0
  {
    var ExprArm(pattern, result) := arm;
    Scoped(false, PatternEvents(pattern) + ExprEvents(result, owner))
  }

  function StmtArmsEvents(arms: seq<StmtArm>, owner: Option<string>): seq<Event>
    decreases arms, 0
  {
    if arms == [] then [] else StmtArmEvents(arms[0], owner) + StmtArmsEvents(arms[1..], owner)
  }

  function StmtArmEvents(arm: StmtArm, owner: Option<string>): seq<Event>
    decreases arm, 0
  {
    var StmtArm(pattern, body) := arm;
    Scoped(false, PatternEvents(pattern) + BlockEvents(body, owner))
  }

  function OptionalEvents(e: Option<Expression>, owner: Option<string>): seq<Event>
    decreases e, 0
  {
    match e case Some(x) => ExprEvents(x, owner) case None => []
  }

  function TargetEvents(target: Target, owner: Option<string>): seq<Event>
    decreases target, 0
  {
    match target case Index(base, index) => ExprEvents(base, owner) + ExprEvents(index, owner) case _ => []
  }

  function FunctionEvents(name: string, params: seq<Param>, body: seq<Statement>, ret: DataType, isMethod: bool,
                          owner: Option<string>): seq<Event>
    decreases body, 1
  {
    [Declare(FunctionName(owner, name), ParamTypes(params), ret, isMethod)] +
    Scoped(false, ParamEvents(params) + BlockEvents(body, owner))
  }

  function StmtEvents(s: Statement, owner: Option<string>): seq<Event>
    decreases s, 1
  {
    match s
    case Let(name, ty, init, _, isConstant, isStatic) =>
      [Bind(LetBinding(name, ty, init, isConstant, isStatic))] + OptionalEvents(init, owner)
    case Assignment(target, value) =>
      BorrowEvents(BindingName(target), value) + TargetEvents(target, owner) + ExprEvents(value, owner)
    case Function(name, _, params, body, ret, _, isMethod) => FunctionEvents(name, params, body, ret, isMethod, owner)
    case Return(result) => OptionalEvents(result, owner)
    case If(condition, thenBranch, elseBranch) =>
      ExprEvents(condition, owner) + Scoped(false, BlockEvents(thenBranch, owner)) +
      (match elseBranch case NoElse => [] case Else(b) => Scoped(false, BlockEvents(b, owner)))
    case While(condition, body) => ExprEvents(condition, owner) + Scoped(false, BlockEvents(body, owner))
    case For(variable, counter, iterable, body) =>
      ExprEvents(iterable, owner) +
      Scoped(false, [Plain(variable, ANYTHING)] +
             (if counter.Some? then [Plain(counter.value, I64)] else []) + BlockEvents(body, owner))
    case Find(variable, iterable, body) =>
      ExprEvents(iterable, owner) + Scoped(false, [Plain(variable, ANYTHING)] + BlockEvents(body, owner))
    case ExprStmt(expr) => ExprEvents(expr, owner)
    case Match(subject, arms, default) =>
      ExprEvents(subject, owner) + StmtArmsEvents(arms, owner) + Scoped(false, BlockEvents(default, owner))
    case Impl(_, typeName, _, methods) => BlockEvents(methods, Some(typeName))
    case Type(_, _, _, fields, _) => BlockEvents(fields, owner)
    case Unsafe(body) => Scoped(true, BlockEvents(body, owner))
    case Drop(value) => ExprEvents(value, owner) + DropEvents(value)
    case Move(moved, value) => ExprEvents(value, owner) + [Record(Moved(moved, IdentifierName(value)))]
    case _ => []
  }

  function BlockEvents(ss: seq<Statement>, owner: Option<string>): seq<Event>
    decreases ss, 0
  {
    if ss == [] then [] else StmtEvents(ss[0], owner) + BlockEvents(ss[1..], owner)
  }
}
