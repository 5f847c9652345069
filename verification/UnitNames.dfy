/**
  Unit keys spell what statements declare: whoever lists a declared name depends on the
  unit that declares it.
*/
module UnitNames {
  import opened Wrappers
  import opened Ast
  import opened Sequences
  import opened Text
  import opened Dependencies
  import opened Invalidation
  import opened Reuse

  /** The name under which the rest of the program refers to a top-level statement. */
  function DeclaredName(s: Statement): Option<string> {
    match s
    case Let(name, _, _, _, _, _) => Some(name)
    case Function(name, _, _, _, _, _, _) => Some(name)
    case Type(name, _, _, _, _) => Some(name)
    case Enum(name, _, _) => Some(name)
    case ExternFunction(name, _, _, _, _) => Some(name)
    case Module(name) => Some(name)
    case _ => None
  }

  /** The name of a field or of a method. */
  function MemberName(child: Statement): Option<string> {
    match child
    case Let(name, _, _, _, _, _) => Some(name)
    case Function(name, _, _, _, _, _, _) => Some(name)
    case _ => None
  }

  /** A variable or foreign function that the file keeps to itself: its unit is keyed by
      its printed text and not by its name. */
  predicate KeyedByText(s: Statement) {
    (s.Let? || s.ExternFunction?) && s.visibility != Public
  }

  lemma DeclaredNameIsSpelledExactly(t: Tools, s: Statement, name: string)
    requires DeclaredName(s) == Some(name)
    ensures name in Spellings(UnitKey(t, s)) <==> KeyedByText(s) ==> name in Spellings(t.show(s))
  {
    if !KeyedByText(s) { assert Spellings(UnitKey(t, s))[0] == name; }
  }

  lemma SuffixIsUnique(front: string, x: string, rest: string, y: string, c: char)
    requires c !in x && c !in y && front + [c] + x == rest + [c] + y
    ensures x == y
  {
    var s := front + [c] + x;
    assert s[|front|] == c && s[|rest|] == c;
    assert s[|front| + 1..] == x && s[|rest| + 1..] == y;
    assert forall k | |front| < k < |s| :: s[k] == x[k - |front| - 1];
    assert forall k | |rest| < k < |s| :: s[k] == y[k - |rest| - 1];
  }

  lemma SuffixAfter(front: string, c: char, name: string)
    ensures LastSuffix(front + [c] + name, c) == Some(name) <==> c !in name
  {
    hide LastSuffix;
    var s := front + [c] + name;
    assert s[|front|] == c;
    var r := LastSuffix(s, c).value;
    if c !in name { SuffixIsUnique(front, name, s[..|s| - |r| - 1], r, c); }
  }

  lemma MarkBeforeSuffix(s: string, c: char)
    ensures LastSuffix(s, c).Some? ==> s[|s| - |LastSuffix(s, c).value| - 1] == c
  {
    hide LastSuffix;
    var r := LastSuffix(s, c);
    if r.Some? { assert (s[..|s| - |r.value| - 1] + [c] + r.value)[|s| - |r.value| - 1] == c; }
  }

  lemma NoOtherSuffix(front: string, c: char, other: char, name: string)
    requires c != other
    ensures LastSuffix(front + [c] + name, other) != Some(name)
  {
    hide LastSuffix;
    MarkBeforeSuffix(front + [c] + name, other);
    assert (front + [c] + name)[|front|] == c;
  }

  /** A method is spelled by its name exactly when the name has no '.', a field exactly when
      it has no '#'. */
  lemma MemberNameIsSpelledExactly(parentKey: string, child: Statement, i: nat, name: string)
    requires MemberName(child) == Some(name)
    ensures name in Spellings(ChildKey(parentKey, child, i)) <==> (if child.Let? then '#' else '.') !in name
  {
    hide LastSuffix;
    var key := ChildKey(parentKey, child, i);
    var front, mark := if child.Let? then parentKey else MethodOwner(parentKey), if child.Let? then '#' else '.';
    assert key == front + [mark] + name;
    SuffixAfter(front, mark, name);
    NoOtherSuffix(front, mark, if child.Let? then '.' else '#', name);
    assert |key| > |name|;
    OneOfTwo(LastSuffix(key, '.'), LastSuffix(key, '#'), key, name);
  }

  lemma OneOfTwo(a: Option<string>, b: Option<string>, key: string, name: string)
    requires key != name
    ensures name in [key] + OptionalName(a) + OptionalName(b) <==> a == Some(name) || b == Some(name)
  {
    var s := [key] + OptionalName(a) + OptionalName(b);
    if a == Some(name) { assert s[1] == name; }
    if b == Some(name) { assert s[|s| - 1] == name; }
  }

  // ---- users of an edited declaration are checked again

  /** The unit of `u` is new, edited or gone. */
  predicate Edited(previous: seq<Unit>, current: seq<Unit>, u: Unit) {
    !(u in current <==> u in previous)
  }

  lemma UsersOfAnEditedUnit(previous: seq<Unit>, current: seq<Unit>, s: set<string>, declaring: Unit, name: string, user: Unit)
    requires UniqueKeys(previous) && UniqueKeys(current)
    requires Seeds(previous, current) <= s && Closed(s, current)
    requires Edited(previous, current, declaring) && name in Spellings(declaring.key)
    requires user in current && name in user.deps
    ensures user.key in s
  {
    hide Seeds, Spellings;
    if declaring.key !in s {
      ValidUnitIsShared(previous, current, s, declaring);
      assert false;
    }
    assert DependsOn(user, declaring.key);
  }

  /** Whatever the edit of a declaration is, every unit that lists its name is checked again,
      save for a declaration that is keyed by its text. */
  lemma UsersOfAnEditAreInvalidated(t: Tools, cached: seq<Statement>, current: seq<Statement>, s: set<string>,
                                    declaration: Statement, name: string, user: Unit)
    requires UniqueKeys(Units(t, cached)) && UniqueKeys(Units(t, current))
    requires Seeds(Units(t, cached), Units(t, current)) <= s && Closed(s, Units(t, current))
    requires DeclaredName(declaration) == Some(name) && !KeyedByText(declaration)
    requires Edited(Units(t, cached), Units(t, current), UnitOf(t, declaration))
    requires user in Units(t, current) && name in user.deps
    ensures user.key in s
  {
    hide Units, UniqueKeys, Seeds, Closed, UnitKey, Spellings;
    DeclaredNameIsSpelledExactly(t, declaration, name);
    UsersOfAnEditedUnit(Units(t, cached), Units(t, current), s, UnitOf(t, declaration), name, user);
  }

  /** The same for the users of an edited field or method. */
  lemma UsersOfAnEditedMemberAreInvalidated(t: Tools, cached: seq<Statement>, current: seq<Statement>, s: set<string>,
                                            container: Statement, i: nat, name: string, user: Unit)
    requires UniqueKeys(Units(t, cached)) && UniqueKeys(Units(t, current))
    requires Seeds(Units(t, cached), Units(t, current)) <= s && Closed(s, Units(t, current))
    requires Children(container).Some? && i < |Children(container).value|
    requires var child := Children(container).value[i];
             MemberName(child) == Some(name) && (if child.Let? then '#' else '.') !in name
    requires Edited(Units(t, cached), Units(t, current), ChildUnits(t, container)[i])
    requires user in Units(t, current) && name in user.deps
    ensures user.key in s
  {
    hide Units, UniqueKeys, Seeds, Closed, Spellings;
    MemberNameIsSpelledExactly(UnitKey(t, container), Children(container).value[i], i, name);
    UsersOfAnEditedUnit(Units(t, cached), Units(t, current), s, ChildUnits(t, container)[i], name, user);
  }

  lemma OneUnitReplaced(b: Unit, a: Unit, u: Unit)
    requires b.key != a.key && u.key != a.key && u.key != b.key
    requires !DependsOn(u, a.key) && !DependsOn(u, b.key)
    ensures Seeds([b, u], [a, u]) == {a.key, b.key}
    ensures LeastClosed({a.key, b.key}, {a.key, b.key}, [a, u])
  {
    hide DependsOn;
    ByKeyOfTwo(b, u);
    ByKeyOfTwo(a, u);
  }

  /** An edit of a declaration that is keyed by its text reaches none of its users, unless
      they list a spelling of that text: the keys of the two versions are all there is to check. */
  lemma EditOfAPrivateVariableReachesNobody(t: Tools, before: Statement, after: Statement, f: Statement, name: string)
    requires before.Let? && after.Let? && KeyedByText(before) && KeyedByText(after) && f.Function?
    requires DeclaredName(before) == DeclaredName(after) == Some(name) && name in StmtDeps(f)
    requires f.name != t.show(before) && f.name != t.show(after) && t.show(before) != t.show(after)
    requires forall d | d in Spellings(t.show(before)) + Spellings(t.show(after)) :: d !in StmtDeps(f)
    ensures var was, now := Units(t, [before, f]), Units(t, [after, f]);
            UnitOf(t, f) in now && name in UnitOf(t, f).deps && f.name !in Seeds(was, now) &&
            LeastClosed(Seeds(was, now), Seeds(was, now), now)
  {
    hide Units, Seeds, LeastClosed, StmtDeps, Spellings;
    UnitsOfTwo(t, before, f);
    UnitsOfTwo(t, after, f);
    var b, a, u := UnitOf(t, before), UnitOf(t, after), UnitOf(t, f);
    assert u in [a, u];
    forall d | d in Spellings(b.key) ensures d !in u.deps { assert d in Spellings(b.key) + Spellings(a.key); }
    forall d | d in Spellings(a.key) ensures d !in u.deps { assert d in Spellings(b.key) + Spellings(a.key); }
    OneUnitReplaced(b, a, u);
  }
}
