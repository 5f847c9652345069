/** Which names count as bound in a program: those of its binders, however deep. */
module BoundNames {
  import opened Wrappers
  import opened Ast
  import opened Dependencies

  // ---- a statement and all statements inside it

  function StmtParts(s: Statement): seq<Statement>
    decreases s, 1
  {
    [s] +
    (match s
     case Function(_, _, _, body, _, _, _) => BlockParts(body)
     case If(_, thenBranch, elseBranch) =>
       BlockParts(thenBranch) + (match elseBranch case NoElse => [] case Else(b) => BlockParts(b))
     case While(_, body) => BlockParts(body)
     case For(_, _, _, body) => BlockParts(body)
     case Find(_, _, body) => BlockParts(body)
     case Match(_, arms, default) => ArmsParts(arms) + BlockParts(default)
     case Unsafe(body) => BlockParts(body)
     case Type(_, _, _, fields, _) => BlockParts(fields)
     case Impl(_, _, _, methods) => BlockParts(methods)
     case _ => [])
  }

  function BlockParts(ss: seq<Statement>): seq<Statement>
    decreases ss, 0
  {
    if ss == [] then [] else StmtParts(ss[0]) + BlockParts(ss[1..])
  }

  function ArmsParts(arms: seq<StmtArm>): seq<Statement>
    decreases arms, 1
  {
    if arms == [] then [] else ArmParts(arms[0]) + ArmsParts(arms[1..])
  }

  function ArmParts(arm: StmtArm): seq<Statement>
    decreases arm, 0
  {
    var StmtArm(_, body) := arm;
    BlockParts(body)
  }

  // ---- binders

  /** What a statement itself binds, not counting what is inside it. */
  function Binder(s: Statement): set<string> {
    match s
    case Let(name, _, _, _, _, _) => {name}
    case Move(moved, _) => {moved}
    case Function(_, _, params, _, _, _, _) => ParamNames(params)
    case For(variable, Some(counter), _, _) => {variable, counter}
    case For(variable, None, _, _) => {variable}
    case Find(variable, _, _) => {variable}
    case _ => {}
  }

  /** The expression that is searched for closures: only one that is returned, evaluated for its
      effect, or dropped. */
  function Searched(s: Statement): Option<Expression> {
    match s case Return(result) => result case ExprStmt(expr) => Some(expr) case Drop(value) => Some(value) case _ => None
  }

  ghost predicate BoundBy(s: Statement, name: string) {
    name in Binder(s) || (Searched(s).Some? && name in ExprBinds(Searched(s).value))
  }

  ghost predicate BoundIn(parts: seq<Statement>, name: string) {
    exists s | s in parts :: BoundBy(s, name)
  }

  lemma BoundInBoth(a: seq<Statement>, b: seq<Statement>, name: string)
    ensures BoundIn(a + b, name) <==> BoundIn(a, name) || BoundIn(b, name)
  {
    hide BoundBy;
    if BoundIn(a, name) {
      var s :| s in a && BoundBy(s, name);
      assert s in a + b;
    }
    if BoundIn(b, name) {
      var s :| s in b && BoundBy(s, name);
      assert s in a + b;
    }
  }

  lemma BoundInOne(s: Statement, rest: seq<Statement>, name: string)
    ensures BoundIn([s] + rest, name) <==> BoundBy(s, name) || BoundIn(rest, name)
  {
    hide BoundBy;
    BoundInBoth([s], rest, name);
    assert s in [s];
  }

  /** A name counts as bound exactly when some statement, at any depth, binds it. */
  lemma {:induction false} StmtBindsExactly(s: Statement, name: string)
    ensures name in StmtBinds(s) <==> BoundIn(StmtParts(s), name)
    decreases s, 1
  {
    hide BlockBinds, BlockParts, BoundIn, ExprBinds, StmtArmsBind, ArmsParts;
    match s
    case If(_, _, _) => IfBindsExactly(s, name);
    case Match(_, arms, default) =>
      ArmsBindExactly(arms, name);
      BlockBindsExactly(default, name);
      BoundInBoth(ArmsParts(arms), BlockParts(default), name);
      BoundInOne(s, ArmsParts(arms) + BlockParts(default), name);
    case Function(_, _, _, body, _, _, _) => BodyBindsExactly(s, body, name);
    case While(_, body) => BodyBindsExactly(s, body, name);
    case For(_, _, _, body) => BodyBindsExactly(s, body, name);
    case Find(_, _, body) => BodyBindsExactly(s, body, name);
    case Unsafe(body) => BodyBindsExactly(s, body, name);
    case Type(_, _, _, fields, _) => BodyBindsExactly(s, fields, name);
    case Impl(_, _, _, methods) => BodyBindsExactly(s, methods, name);
    case _ =>
      BoundInOne(s, [], name);
      NothingBinds(name);
  }

  lemma NothingBinds(name: string)
    ensures !BoundIn([], name)
  {
  }

  lemma {:induction false} BodyBindsExactly(s: Statement, body: seq<Statement>, name: string)
    requires match s
      case Type(_, _, _, fields, _) => body == fields
      case Impl(_, _, _, methods) => body == methods
      case _ => (s.Function? || s.While? || s.For? || s.Find? || s.Unsafe?) && body == s.body
    ensures name in BlockBinds(body) <==> BoundIn(BlockParts(body), name)
    ensures BoundIn([s] + BlockParts(body), name) <==> BoundBy(s, name) || name in BlockBinds(body)
    decreases s, 0
  {
    BlockBindsExactly(body, name);
    BoundInOne(s, BlockParts(body), name);
  }

  lemma {:induction false} IfBindsExactly(s: Statement, name: string)
    requires s.If?
    ensures name in StmtBinds(s) <==> BoundIn(StmtParts(s), name)
    decreases s, 0
  {
    hide BlockBinds, BlockParts, BoundIn;
    var rest := match s.elseBranch case NoElse => [] case Else(b) => BlockParts(b);
    BlockBindsExactly(s.thenBranch, name);
    match s.elseBranch { case NoElse => NothingBinds(name); case Else(b) => BlockBindsExactly(b, name); }
    BoundInBoth(BlockParts(s.thenBranch), rest, name);
    BoundInOne(s, BlockParts(s.thenBranch) + rest, name);
  }

  lemma {:induction false} BlockBindsExactly(ss: seq<Statement>, name: string)
    ensures name in BlockBinds(ss) <==> BoundIn(BlockParts(ss), name)
    decreases ss, 0
  {
    hide StmtBinds, StmtParts, BoundIn;
    if ss == [] {
      NothingBinds(name);
    } else {
      StmtBindsExactly(ss[0], name);
      BlockBindsExactly(ss[1..], name);
      BoundInBoth(StmtParts(ss[0]), BlockParts(ss[1..]), name);
    }
  }

  lemma {:induction false} ArmsBindExactly(arms: seq<StmtArm>, name: string)
    ensures name in StmtArmsBind(arms) <==> BoundIn(ArmsParts(arms), name)
    decreases arms, 1
  {
    hide StmtArmBinds, ArmParts, BoundIn;
    if arms == [] {
      NothingBinds(name);
    } else {
      ArmBindsExactly(arms[0], name);
      ArmsBindExactly(arms[1..], name);
      BoundInBoth(ArmParts(arms[0]), ArmsParts(arms[1..]), name);
    }
  }

  lemma {:induction false} ArmBindsExactly(arm: StmtArm, name: string)
    ensures name in StmtArmBinds(arm) <==> BoundIn(ArmParts(arm), name)
    decreases arm, 0
  {
    BlockBindsExactly(arm.body, name);
  }
}
