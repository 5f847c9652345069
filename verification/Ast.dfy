/**
  The part of the syntax tree that the loader, the dependency collector, the
  incremental analysis and the scope builder walk over.  Source positions are
  dropped.  Expression nodes that every pass treats alike (visit the children in
  order, visit the attached types) share the constructor `Node`, tagged by the
  operator they stand for.
*/
module Ast {
  import opened Wrappers

  datatype Visibility = Public | Private | Protected

  datatype DataType =
    | Primitive(name: string)
    | StructNamed(name: string)
    | EnumNamed(name: string)
    | DynTrait(name: string)
    | Vector(element: DataType)
    | Slice(element: DataType)
    | Array(element: DataType, size: nat)
    | Maybe(element: DataType)
    | Ref(element: DataType)
    | RefMut(element: DataType)
    | ResultOf(ok: DataType, err: DataType)
    | MapOf(key: DataType, value: DataType)
    | BoxType
    | Pointer(pointee: DataType)
    | FnType(inputs: seq<DataType>, output: DataType)
    | Generic(name: string)

  datatype Param = Param(name: string, ty: DataType)

  datatype Scalar = IntLit(i: int) | StrLit(s: string) | BoolLit(b: bool) | NoneLit

  /** The expression forms that only carry children and types. */
  datatype Operator =
    | Binary(symbol: string)
    | Unary(symbol: string)
    | ListOf
    | DictOf
    | TupleOf
    | IndexOf
    | Member(member: string)
    | NamedArg(arg: string)
    | Reference(isMutable: bool)
    | Dereference
    | BoxOf
    | Pipeline(safe: bool)
    | TryOf
    | OkOf
    | ErrOf
    | SomeOf

  datatype Expression =
    | Literal(value: Scalar)
    | Identifier(name: string, ty: DataType)
    | Node(op: Operator, children: seq<Expression>, types: seq<DataType>)
    | Call(callee: string, args: seq<Expression>, typeArgs: seq<DataType>, ty: DataType)
    | Closure(params: seq<Param>, body: seq<Statement>, ret: DataType, captures: seq<Param>)
    | MatchExpr(subject: Expression, arms: seq<ExprArm>, default: Expression, ty: DataType)
    | VariantPath(enumName: string, variant: string, ty: DataType)
    | Variant(enumName: string, variant: string, payloads: seq<Expression>, ty: DataType)
    | Ascription(inner: Expression, target: DataType, ty: DataType)
    | UseMacro(inner: Expression)
    | MacroCall(inner: Expression)

  datatype ExprArm = ExprArm(pattern: Expression, result: Expression)

  datatype Target =
    | Variable(name: string)
    | Field(path: string)
    | Index(base: Expression, index: Expression)
    | Deref(base: Expression)

  datatype StmtArm = StmtArm(pattern: Expression, body: seq<Statement>)

  datatype Else = NoElse | Else(body: seq<Statement>)

  datatype EnumVariantDef = EnumVariantDef(enumName: string, variant: string, types: seq<DataType>)

  datatype Statement =
    | Let(name: string, ty: DataType, init: Option<Expression>, visibility: Visibility,
          isConstant: bool, isStatic: bool)
    | Assignment(target: Target, value: Expression)
    | Function(name: string, typeParams: seq<string>, params: seq<Param>, body: seq<Statement>,
               ret: DataType, visibility: Visibility, isMethod: bool)
    | Return(result: Option<Expression>)
    | If(condition: Expression, thenBranch: seq<Statement>, elseBranch: Else)
    | While(condition: Expression, body: seq<Statement>)
    | For(variable: string, counter: Option<string>, iterable: Expression, body: seq<Statement>)
    | Find(variable: string, iterable: Expression, body: seq<Statement>)
    | ExprStmt(expr: Expression)
    | Break
    | Continue
    | Match(subject: Expression, arms: seq<StmtArm>, default: seq<Statement>)
    | Type(name: string, typeParams: seq<string>, parent: Option<string>, fields: seq<Statement>,
           visibility: Visibility)
    | Enum(name: string, variants: seq<EnumVariantDef>, visibility: Visibility)
    | Impl(traitName: Option<string>, typeName: string, typeParams: seq<string>, methods: seq<Statement>)
    | Unsafe(body: seq<Statement>)
    | Drop(value: Expression)
    | Move(moved: string, value: Expression)
    | ExternFunction(name: string, libName: string, params: seq<Param>, ret: DataType, visibility: Visibility)
    | Module(name: string)
    | Load(path: seq<string>, alias: Option<string>, items: Option<seq<string>>)
    | LoadLocal(relPath: seq<string>, absolute: bool)

  /** The name a statement publishes to the files that load it. */
  function ExportName(s: Statement): Option<string> {
    match s
    case Let(name, _, _, vis, _, _) => if vis == Public then Some(name) else None
    case Function(name, _, _, _, _, vis, _) => if vis == Public then Some(name) else None
    case Type(name, _, _, _, vis) => if vis == Public then Some(name) else None
    case Enum(name, _, vis) => if vis == Public then Some(name) else None
    case ExternFunction(name, _, _, _, vis) => if vis == Public then Some(name) else None
    case Module(name) => Some(name)
    case Load(path, alias, _) =>
      Some(if alias.Some? then alias.value else if path == [] then "" else path[|path| - 1])
    case _ => None
  }

  function ParamNames(ps: seq<Param>): (r: set<string>) {
    set p | p in ps :: p.name
  }
}
