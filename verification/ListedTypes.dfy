/**
  Which type names of a signature the collector lists: those of the parameters, unless they
  stand behind a reference, a pointer, a function type or the error side of a result.
*/
module ListedTypes {
  import opened Wrappers
  import opened Ast
  import opened Text
  import opened Dependencies
  import opened Invalidation
  import opened Reuse

  /** The name stands somewhere in the type. */
  predicate Mentions(t: DataType, name: string) {
    match t
    case StructNamed(n) => n == name
    case EnumNamed(n) => n == name
    case DynTrait(n) => n == name
    case Vector(e) => Mentions(e, name)
    case Slice(e) => Mentions(e, name)
    case Array(e, _) => Mentions(e, name)
    case Maybe(e) => Mentions(e, name)
    case Ref(e) => Mentions(e, name)
    case RefMut(e) => Mentions(e, name)
    case Pointer(e) => Mentions(e, name)
    case ResultOf(ok, err) => Mentions(ok, name) || Mentions(err, name)
    case MapOf(k, v) => Mentions(k, name) || Mentions(v, name)
    case FnType(inputs, output) => (exists e | e in inputs :: Mentions(e, name)) || Mentions(output, name)
    case _ => false
  }

  /** It stands behind none of the types that the collector does not look into. */
  predicate InTheOpen(t: DataType, name: string) {
    match t
    case Vector(e) => InTheOpen(e, name)
    case Slice(e) => InTheOpen(e, name)
    case Array(e, _) => InTheOpen(e, name)
    case Maybe(e) => InTheOpen(e, name)
    case ResultOf(ok, err) => InTheOpen(ok, name) && !Mentions(err, name)
    case MapOf(k, v) => InTheOpen(k, name) && InTheOpen(v, name)
    case Ref(e) => !Mentions(e, name)
    case RefMut(e) => !Mentions(e, name)
    case Pointer(e) => !Mentions(e, name)
    case FnType(_, _) => !Mentions(t, name)
    case _ => true
  }

  lemma {:induction false} ListedTypeIsMentioned(t: DataType, name: string)
    ensures name in TypeDeps(t) ==> Mentions(t, name)
    ensures InTheOpen(t, name) ==> (name in TypeDeps(t) <==> Mentions(t, name))
  {
    match t
    case Vector(e) => ListedTypeIsMentioned(e, name);
    case Slice(e) => ListedTypeIsMentioned(e, name);
    case Array(e, _) => ListedTypeIsMentioned(e, name);
    case Maybe(e) => ListedTypeIsMentioned(e, name);
    case ResultOf(ok, _) => ListedTypeIsMentioned(ok, name);
    case MapOf(k, v) =>
      ListedTypeIsMentioned(k, name);
      ListedTypeIsMentioned(v, name);
    case _ =>
  }

  lemma {:induction false} ParamsAreListed(ps: seq<Param>, name: string)
    ensures name in ParamDeps(ps) <==> exists p | p in ps :: name in TypeDeps(p.ty)
  {
    hide TypeDeps;
    if ps != [] {
      ParamsAreListed(ps[1..], name);
      assert ps == [ps[0]] + ps[1..];
    }
  }

  /** A type in a parameter is listed; a type that stands in the return type alone is not. */
  lemma SignatureIsListedExactly(f: Statement, name: string)
    requires f.Function? && name !in BlockDeps(f.body) && forall p | p in f.params :: InTheOpen(p.ty, name)
    ensures name in StmtDeps(f) <==> exists p | p in f.params :: Mentions(p.ty, name)
  {
    hide BlockDeps, TypeDeps, Mentions, InTheOpen;
    ParamsAreListed(f.params, name);
    assert StmtDeps(f) == ParamDeps(f.params) + BlockDeps(f.body);
    forall p | p in f.params ensures name in TypeDeps(p.ty) <==> Mentions(p.ty, name) {
      ListedTypeIsMentioned(p.ty, name);
    }
  }

  lemma {:induction false} TypesAreListed(ts: seq<DataType>, name: string)
    ensures name in TypesDeps(ts) <==> exists t | t in ts :: name in TypeDeps(t)
  {
    hide TypeDeps;
    if ts != [] {
      TypesAreListed(ts[1..], name);
      assert TypesDeps(ts) == TypeDeps(ts[0]) + TypesDeps(ts[1..]);
      assert forall t :: t in ts <==> t == ts[0] || t in ts[1..];
      assert name in TypeDeps(ts[0]) ==> exists t | t in ts :: name in TypeDeps(t) by { assert ts[0] in ts; }
    }
  }

  /** An enum lists the types of its payloads. */
  lemma {:induction false} PayloadTypesAreListedExactly(vs: seq<EnumVariantDef>, name: string)
    ensures name in VariantDeps(vs) <==> exists v, t | v in vs && t in v.types :: name in TypeDeps(t)
  {
    hide TypeDeps;
    if vs != [] {
      PayloadTypesAreListedExactly(vs[1..], name);
      TypesAreListed(vs[0].types, name);
      assert vs == [vs[0]] + vs[1..];
    }
  }

  /** A foreign function lists its library and its whole signature, the return type with it. */
  lemma ForeignSignatureIsListedExactly(f: Statement, name: string)
    requires f.ExternFunction?
    ensures name in StmtDeps(f) <==>
      name == f.libName || (exists p | p in f.params :: name in TypeDeps(p.ty)) || name in TypeDeps(f.ret)
  {
    hide TypeDeps;
    ParamsAreListed(f.params, name);
  }

  /** Nor are the annotation of a variable or a field and the parent of a type listed: they may
      be anything. */
  lemma AnnotationsAndParentsAreNotListed(s: Statement, ty: DataType, parent: Option<string>)
    ensures s.Let? ==> StmtDeps(s.(ty := ty)) == StmtDeps(s)
    ensures s.Type? ==> StmtDeps(s.(parent := parent)) == StmtDeps(s)
  {
  }

  lemma ChangedUnit(b: Unit, a: Unit, u: Unit)
    requires b.key == a.key && u.key != a.key && Differ(b, a) && !DependsOn(u, a.key)
    ensures Seeds([b, u], [a, u]) == {a.key}
    ensures LeastClosed({a.key}, {a.key}, [a, u])
  {
    hide DependsOn;
    ByKeyOfTwo(b, u);
    ByKeyOfTwo(a, u);
  }

  /** So an edit of a type does not reach a function that only returns it. */
  lemma EditOfAReturnTypeReachesNobody(t: Tools, before: Statement, after: Statement, f: Statement)
    requires before.Type? && after.Type? && before.name == after.name && before.fields == after.fields == []
    requires t.stamp(before) != t.stamp(after) && f.Function? && f.name != after.name && f.ret == StructNamed(after.name)
    requires forall d | d in Spellings(after.name) :: d !in ParamDeps(f.params) + BlockDeps(f.body)
    ensures var was, now := Units(t, [before, f]), Units(t, [after, f]);
            Mentions(f.ret, after.name) && after.name in Seeds(was, now) && UnitOf(t, f) in now && f.name !in Seeds(was, now) &&
            LeastClosed(Seeds(was, now), Seeds(was, now), now)
  {
    hide Units, Seeds, LeastClosed, Spellings, ParamDeps, BlockDeps;
    UnitsOfTwo(t, before, f);
    UnitsOfTwo(t, after, f);
    var b, a, u := UnitOf(t, before), UnitOf(t, after), UnitOf(t, f);
    assert u in [a, u];
    ChangedUnit(b, a, u);
  }
}
