/** Reachable-import selection: which exports of a module the rest of the program asks for. */
module Candidates {
  import opened Wrappers
  import opened Ast
  import opened Text
  import opened Sequences

  // ---- dotted names: candidates and exports are compared as these, after every "::" is
  // turned into "."

  /** The segments between the dots; there is always at least one. */
  function Segments(s: string): (r: seq<string>)
    ensures |r| > 0
  {
    if s == "" then [""]
    else Prepend(s[0], Segments(s[1..]))
  }

  /** The segments of a name that starts with `c`. */
  function Prepend(c: char, segments: seq<string>): seq<string>
    requires |segments| > 0
  {
    if c == '.' then [""] + segments else [[c] + segments[0]] + segments[1..]
  }

  lemma PrependToBoth(c: char, xs: seq<string>, ys: seq<string>)
    requires |xs| > 0
    ensures Prepend(c, xs + ys) == Prepend(c, xs) + ys
  {
  }

  function Join(segments: seq<string>): string {
    if segments == [] then ""
    else if |segments| == 1 then segments[0]
    else segments[0] + "." + Join(segments[1..])
  }

  predicate EndsWith<T(==)>(s: seq<T>, suffix: seq<T>) {
    |suffix| <= |s| && s[|s| - |suffix|..] == suffix
  }

  lemma EndsWithLast<T>(a: seq<T>, b: seq<T>)
    ensures EndsWith(a + b, b)
  {
  }

  lemma JoinPrepend(c: char, segments: seq<string>)
    requires |segments| > 0
    ensures Join(Prepend(c, segments)) == [c] + Join(segments)
  {
    var r := Prepend(c, segments);
    if c == '.' {
      assert r[0] == "" && r[1..] == segments;
      assert "" + "." + Join(segments) == "." + Join(segments);
    } else {
      assert r[0] == [c] + segments[0] && r[1..] == segments[1..];
      if |segments| > 1 {
        Associative([c], segments[0], "." + Join(segments[1..]));
        Associative(r[0], ".", Join(segments[1..]));
        Associative(segments[0], ".", Join(segments[1..]));
      }
    }
  }

  lemma {:induction false} SegmentsHaveNoDot(s: string, i: nat)
    requires i < |Segments(s)|
    ensures '.' !in Segments(s)[i]
  {
    if s != "" {
      if s[0] == '.' {
        if i > 0 { SegmentsHaveNoDot(s[1..], i - 1); }
      } else {
        SegmentsHaveNoDot(s[1..], i);
      }
    }
  }

  lemma {:induction false} JoinSegments(s: string)
    ensures Join(Segments(s)) == s
  {
    if s != "" {
      JoinSegments(s[1..]);
      JoinPrepend(s[0], Segments(s[1..]));
    }
  }

  lemma {:induction false} SegmentsOfBoth(a: string, b: string)
    ensures Segments(a + "." + b) == Segments(a) + Segments(b)
  {
    var s := a + "." + b;
    if a == "" {
      assert s[1..] == b;
    } else {
      SegmentsOfBoth(a[1..], b);
      assert s[1..] == a[1..] + "." + b;
      PrependToBoth(a[0], Segments(a[1..]), Segments(b));
    }
  }

  lemma {:induction false} JoinOfBoth(xs: seq<string>, ys: seq<string>)
    requires xs != [] && ys != []
    ensures Join(xs + ys) == Join(xs) + "." + Join(ys)
  {
    if |xs| == 1 {
      assert (xs + ys)[1..] == ys;
    } else {
      JoinOfBoth(xs[1..], ys);
      assert (xs + ys)[1..] == xs[1..] + ys;
    }
  }

  /** A dotted name ends with another, whole segments at a time. */
  lemma {:induction false} DottedSuffix(name: string, tail: string)
    ensures (name == tail || EndsWith(name, "." + tail)) <==> EndsWith(Segments(name), Segments(tail))
  {
    if EndsWith(name, "." + tail) {
      var front := name[..|name| - |tail| - 1];
      assert name == front + "." + tail by { assert name == front + ("." + tail); }
      SegmentsOfBoth(front, tail);
    }
    if EndsWith(Segments(name), Segments(tail)) {
      JoinSegments(name);
      JoinSegments(tail);
      JoinOfSuffix(Segments(name), Segments(tail));
    }
  }

  lemma JoinOfSuffix(segments: seq<string>, last: seq<string>)
    requires last != [] && EndsWith(segments, last)
    ensures Join(segments) == Join(last) || EndsWith(Join(segments), "." + Join(last))
  {
    var front := segments[..|segments| - |last|];
    assert segments == front + last;
    if front == [] {
      assert segments == last;
    } else {
      JoinOfBoth(front, last);
      Associative(Join(front), ".", Join(last));
      EndsWithLast(Join(front), "." + Join(last));
    }
  }

  // ---- candidate matching

  function CanonicalEach(names: seq<string>): seq<string> {
    seq(|names|, i requires 0 <= i < |names| => Canonical(names[i]))
  }

  /** `candidate_reaches_export_namespaced` */
  predicate ReachesExport(candidate: string, moduleSegments: seq<string>, name: string) {
    var c, e := Canonical(candidate), Canonical(name);
    if c == e || EndsWith(c, "." + e) then true
    else
      var namespace := Join(CanonicalEach(moduleSegments));
      if namespace == "" then false
      else
        var qualified := namespace + "." + e;
        c == qualified || EndsWith(c, "." + qualified)
  }

  lemma QualifiedEnds(c: string, namespace: string, e: string)
    requires var qualified := namespace + "." + e; c == qualified || EndsWith(c, "." + qualified)
    ensures EndsWith(c, "." + e)
  {
    var qualified := namespace + "." + e;
    if c == qualified {
      assert c == namespace + ("." + e);
    } else {
      var front := c[..|c| - |qualified| - 1];
      assert c == front + "." + qualified == (front + "." + namespace) + ("." + e);
    }
  }

  /** A candidate reaches an export exactly when the export's segments end the
      candidate's.  The module's own path never matters. */
  lemma ReachesIsSegmentSuffix(candidate: string, moduleSegments: seq<string>, name: string)
    ensures ReachesExport(candidate, moduleSegments, name) <==>
            EndsWith(Segments(Canonical(candidate)), Segments(Canonical(name)))
  {
    hide EndsWith, Segments, Join, Canonical;
    var c, e := Canonical(candidate), Canonical(name);
    DottedSuffix(c, e);
    var namespace := Join(CanonicalEach(moduleSegments));
    var qualified := namespace + "." + e;
    if c == qualified || EndsWith(c, "." + qualified) { QualifiedEnds(c, namespace, e); }
  }

  /** `candidate_references_namespace` */
  predicate ReferencesNamespace(candidate: string, namespace: string) {
    var c, n := Segments(Canonical(candidate)), Canonical(namespace);
    n != "" && exists i | 0 <= i < |c| - 1 :: c[i] == n
  }

  /** As text: the namespace stands at a segment boundary and a dot follows it. */
  lemma ReferencesIsInfix(candidate: string, namespace: string)
    ensures ReferencesNamespace(candidate, namespace) <==>
      (var c, n := Canonical(candidate), Canonical(namespace);
       n != "" && '.' !in n &&
       exists before, after: string :: c == before + n + "." + after && (before == "" || EndsWith(before, ".")))
  {
    var c, n := Canonical(candidate), Canonical(namespace);
    if ReferencesNamespace(candidate, namespace) {
      var i :| 0 <= i < |Segments(c)| - 1 && Segments(c)[i] == n;
      SegmentsHaveNoDot(c, i);
      SplitAt(c, i);
    }
    if n != "" && '.' !in n && exists before, after: string ::
        c == before + n + "." + after && (before == "" || EndsWith(before, ".")) {
      var before, after: string :| c == before + n + "." + after && (before == "" || EndsWith(before, "."));
      var i := InfixIsSegment(before, n, after);
    }
  }

  lemma InfixIsSegment(before: string, n: string, after: string) returns (i: nat)
    requires '.' !in n && (before == "" || EndsWith(before, "."))
    ensures var segs := Segments(before + n + "." + after); i < |segs| - 1 && segs[i] == n
  {
    SegmentsOfOne(n);
    SegmentsOfBoth(before + n, after);
    if before == "" {
      assert before + n == n;
      i := 0;
    } else {
      var front := before[..|before| - 1];
      assert before == front + ".";
      SegmentsOfBoth(front, n);
      i := |Segments(front)|;
    }
  }

  lemma {:induction false} SegmentsOfOne(s: string)
    requires '.' !in s
    ensures Segments(s) == [s]
  {
    if s != "" {
      SegmentsOfOne(s[1..]);
      assert [s[0]] + s[1..] == s;
    }
  }

  /** Cuts a dotted name around its `i`-th segment. */
  lemma SplitAt(s: string, i: nat)
    requires i < |Segments(s)| - 1
    ensures exists before, after: string ::
      s == before + Segments(s)[i] + "." + after && (before == "" || EndsWith(before, "."))
  {
    var segs := Segments(s);
    JoinSegments(s);
    var front, back := segs[..i + 1], segs[i + 1..];
    assert segs == front + back;
    JoinOfBoth(front, back);
    if i == 0 {
      assert Join(front) == segs[0];
      assert s == "" + segs[0] + "." + Join(back);
    } else {
      assert front == segs[..i] + [segs[i]];
      JoinOfBoth(segs[..i], [segs[i]]);
      var before := Join(segs[..i]) + ".";
      assert s == before + segs[i] + "." + Join(back);
      assert EndsWith(before, ".");
    }
  }

  // ---- selecting the exports of a module

  function Exports(statements: seq<Statement>): seq<string> {
    if statements == [] then []
    else
      var rest := Exports(statements[1..]);
      match ExportName(statements[0]) case Some(name) => [name] + rest case None => rest
  }

  ghost predicate Reached(candidates: set<string>, name: string) {
    exists c | c in candidates :: EndsWith(Segments(Canonical(c)), Segments(Canonical(name)))
  }

  /** The name a nested `load` is reached under. */
  function NamespaceOf(s: Statement): string
    requires s.Load?
  {
    if s.alias.Some? then s.alias.value else if s.path == [] then "" else s.path[|s.path| - 1]
  }

  ghost predicate IsNamespace(statements: seq<Statement>, name: string) {
    name != "" && exists s | s in statements :: s.Load? && NamespaceOf(s) == name
  }

  /** Module declarations travel with their module and are never picked by name. */
  ghost predicate Selectable(statements: seq<Statement>, name: string) {
    name in Exports(statements) && Module(name) !in statements
  }

  ghost function Selected(statements: seq<Statement>, candidates: set<string>): set<string> {
    set e | e in Exports(statements) && Selectable(statements, e) && Reached(candidates, e)
  }

  /** Something inside a nested module is referenced, but not the nested module itself. */
  ghost predicate NestedIsNeeded(statements: seq<Statement>, candidates: set<string>, name: string) {
    Selectable(statements, name) && !Reached(candidates, name) && IsNamespace(statements, name) &&
    exists c | c in candidates :: ReferencesNamespace(c, name)
  }

  ghost predicate NeedsNested(statements: seq<Statement>, candidates: set<string>) {
    exists e | e in Exports(statements) :: NestedIsNeeded(statements, candidates, e)
  }

  ghost predicate NeedsForeign(statements: seq<Statement>, candidates: set<string>) {
    exists s | s in statements :: s.ExternFunction? && s.visibility == Private && Reached(candidates, s.name)
  }

  /** The module is taken whole. */
  ghost predicate TakenWhole(statements: seq<Statement>, candidates: set<string>) {
    NeedsNested(statements, candidates) || NeedsForeign(statements, candidates) ||
    Selected(statements, candidates) == {}
  }

  predicate AnyReaches(candidates: set<string>, moduleSegments: seq<string>, name: string) {
    exists c | c in candidates :: ReachesExport(c, moduleSegments, name)
  }

  lemma AnyReachesIsReached(candidates: set<string>, moduleSegments: seq<string>, name: string)
    ensures AnyReaches(candidates, moduleSegments, name) <==> Reached(candidates, name)
  {
    forall c | c in candidates
      ensures ReachesExport(c, moduleSegments, name) <==>
              EndsWith(Segments(Canonical(c)), Segments(Canonical(name)))
    {
      ReachesIsSegmentSuffix(c, moduleSegments, name);
    }
  }

  /** `infer_reachable_import_items`: the exports to take, or `None` for all of the
      module.  The load path that led to the module makes no difference. */
  method InferReachableImportItems(statements: seq<Statement>, moduleSegments: seq<string>,
                                   candidates: set<string>)
    returns (items: Option<set<string>>)
    ensures items == if TakenWhole(statements, candidates) then None
                     else Some(Selected(statements, candidates))
  {
    if Exports(statements) == [] {
      assert Selected(statements, candidates) == {};
      return None;
    }
    var nonSelectable, namespaces := NestedNames(statements);
    var selected := SelectExports(statements, moduleSegments, candidates, nonSelectable, namespaces);
    if selected.None? { return None; }
    var foreign := AnyForeignReached(statements, moduleSegments, candidates);
    if foreign || selected.value == {} { return None; }
    return selected;
  }

  method NestedNames(statements: seq<Statement>) returns (nonSelectable: set<string>, namespaces: set<string>)
    ensures forall n :: n in nonSelectable <==> Module(n) in statements
    ensures forall n :: n in namespaces <==> IsNamespace(statements, n)
  {
    nonSelectable, namespaces := {}, {};
    for i := 0 to |statements|
      invariant forall n :: n in nonSelectable <==> Module(n) in statements[..i]
      invariant forall n :: n in namespaces <==> IsNamespace(statements[..i], n)
    {
      assert statements[..i + 1] == statements[..i] + [statements[i]];
      match statements[i] {
        case Module(name) => nonSelectable := nonSelectable + {name};
        case Load(_, _, _) =>
          var name := NamespaceOf(statements[i]);
          if name != "" { namespaces := namespaces + {name}; }
        case _ =>
      }
    }
    assert statements[..|statements|] == statements;
  }

  /** The reached exports, or `None` as soon as one needs the nested module. */
  method SelectExports(statements: seq<Statement>, moduleSegments: seq<string>, candidates: set<string>,
                       nonSelectable: set<string>, namespaces: set<string>)
    returns (selected: Option<set<string>>)
    requires forall n :: n in nonSelectable <==> Module(n) in statements
    requires forall n :: n in namespaces <==> IsNamespace(statements, n)
    ensures selected == if NeedsNested(statements, candidates) then None
                        else Some(Selected(statements, candidates))
  {
    var exports := Exports(statements);
    var taken := {};
    for i := 0 to |exports|
      invariant forall e :: e in taken <==> e in exports[..i] && Selectable(statements, e) && Reached(candidates, e)
      invariant forall e | e in exports[..i] :: !NestedIsNeeded(statements, candidates, e)
    {
      var e := exports[i];
      assert exports[..i + 1] == exports[..i] + [e];
      if e in nonSelectable { continue; }
      AnyReachesIsReached(candidates, moduleSegments, e);
      if AnyReaches(candidates, moduleSegments, e) {
        taken := taken + {e};
        continue;
      }
      if e in namespaces && exists c | c in candidates :: ReferencesNamespace(c, e) {
        assert NestedIsNeeded(statements, candidates, e);
        return None;
      }
    }
    assert exports[..|exports|] == exports;
    assert taken == Selected(statements, candidates);
    return Some(taken);
  }

  method AnyForeignReached(statements: seq<Statement>, moduleSegments: seq<string>, candidates: set<string>)
    returns (found: bool)
    ensures found <==> NeedsForeign(statements, candidates)
  {
    for i := 0 to |statements|
      invariant forall s | s in statements[..i] ::
        !(s.ExternFunction? && s.visibility == Private && Reached(candidates, s.name))
    {
      var s := statements[i];
      if s.ExternFunction? && s.visibility == Private {
        AnyReachesIsReached(candidates, moduleSegments, s.name);
        if AnyReaches(candidates, moduleSegments, s.name) { return true; }
      }
    }
    return false;
  }

  /** The exports that arrive. */
  ghost function Taken(statements: seq<Statement>, candidates: set<string>): set<string> {
    if TakenWhole(statements, candidates) then set e | e in Exports(statements)
    else Selected(statements, candidates)
  }

  /** Something selectable that no old candidate reaches, and a new one does. */
  ghost predicate NewlyReached(statements: seq<Statement>, candidates: set<string>, more: set<string>, name: string) {
    Selectable(statements, name) && !Reached(candidates, name) &&
    exists c | c in more - candidates :: EndsWith(Segments(Canonical(c)), Segments(Canonical(name)))
  }

  ghost predicate NothingIsAskedFor(statements: seq<Statement>, candidates: set<string>) {
    forall e | e in Exports(statements) :: !(Selectable(statements, e) && Reached(candidates, e))
  }

  /** More candidates can cost a module its exports, because a module that nothing is asked
      of is taken whole.  An export arrives no more exactly when none of the candidates
      reaches it, none of them needs a nested module or a private foreign function, and a
      new candidate reaches an export that either is the first to be asked for or is the
      nested module for whose sake the module was taken whole. */
  lemma AnExportIsLostExactly(statements: seq<Statement>, candidates: set<string>, more: set<string>, name: string)
    requires candidates <= more
    ensures name in Taken(statements, candidates) && name !in Taken(statements, more) <==>
      name in Exports(statements) && !(Selectable(statements, name) && Reached(more, name)) &&
      !NeedsNested(statements, more) && !NeedsForeign(statements, more) &&
      exists e :: NewlyReached(statements, candidates, more, e) &&
                  (NestedIsNeeded(statements, candidates, e) || NothingIsAskedFor(statements, candidates))
  {
    hide Selectable, NeedsNested, NeedsForeign, NewlyReached, NestedIsNeeded, NothingIsAskedFor;
    SelectedGrows(statements, candidates, more);
    if TakenWhole(statements, candidates) && !TakenWhole(statements, more) {
      var e := LossHasACause(statements, candidates, more);
    }
    if e :| NewlyReached(statements, candidates, more, e) &&
            (NestedIsNeeded(statements, candidates, e) || NothingIsAskedFor(statements, candidates)) {
      CauseOfALoss(statements, candidates, more, e);
    }
  }

  lemma LossHasACause(statements: seq<Statement>, candidates: set<string>, more: set<string>) returns (e: string)
    requires candidates <= more && TakenWhole(statements, candidates) && !TakenWhole(statements, more)
    ensures NewlyReached(statements, candidates, more, e)
    ensures NestedIsNeeded(statements, candidates, e) || NothingIsAskedFor(statements, candidates)
  {
    hide IsNamespace, ReferencesNamespace, EndsWith, Segments, Canonical;
    if NeedsForeign(statements, candidates) {
      ForeignStays(statements, candidates, more);
    } else if Selected(statements, candidates) == {} {
      assert NothingIsAskedFor(statements, candidates) by {
        forall x | x in Exports(statements) ensures !(Selectable(statements, x) && Reached(candidates, x)) {
          assert x !in Selected(statements, candidates);
        }
      }
      e :| e in Selected(statements, more);
    } else {
      e :| e in Exports(statements) && NestedIsNeeded(statements, candidates, e);
      assert !NestedIsNeeded(statements, more, e);
    }
    ReachedByANewOne(candidates, more, e);
  }

  lemma CauseOfALoss(statements: seq<Statement>, candidates: set<string>, more: set<string>, e: string)
    requires NewlyReached(statements, candidates, more, e)
    requires NestedIsNeeded(statements, candidates, e) || NothingIsAskedFor(statements, candidates)
    ensures TakenWhole(statements, candidates) && e in Selected(statements, more)
  {
    hide IsNamespace, ReferencesNamespace, EndsWith, Segments, Canonical;
    if NothingIsAskedFor(statements, candidates) { assert Selected(statements, candidates) == {}; }
  }

  /** What some candidate reaches is never lost. */
  lemma AReachedExportIsNeverLost(statements: seq<Statement>, candidates: set<string>, more: set<string>, name: string)
    requires candidates <= more && name in Selected(statements, candidates)
    ensures name in Taken(statements, more)
  {
    SelectedGrows(statements, candidates, more);
  }

  lemma ReachedByANewOne(candidates: set<string>, more: set<string>, name: string)
    requires Reached(more, name) && !Reached(candidates, name)
    ensures exists c | c in more - candidates :: EndsWith(Segments(Canonical(c)), Segments(Canonical(name)))
  {
  }

  lemma ForeignStays(statements: seq<Statement>, candidates: set<string>, more: set<string>)
    requires candidates <= more && NeedsForeign(statements, candidates)
    ensures NeedsForeign(statements, more)
  {
    var s :| s in statements && s.ExternFunction? && s.visibility == Private && Reached(candidates, s.name);
    ReachedStays(candidates, more, s.name);
  }

  lemma SelectedGrows(statements: seq<Statement>, candidates: set<string>, more: set<string>)
    requires candidates <= more
    ensures Selected(statements, candidates) <= Selected(statements, more)
  {
    forall e | e in Selected(statements, candidates) ensures e in Selected(statements, more) {
      ReachedStays(candidates, more, e);
    }
  }

  lemma ReachedStays(candidates: set<string>, more: set<string>, name: string)
    requires candidates <= more && Reached(candidates, name)
    ensures Reached(more, name)
  {
  }

  function PublicFunction(name: string): Statement {
    Function(name, [], [], [], Primitive("i64"), Public, false)
  }

  lemma FunctionsAreSelected(m: seq<Statement>, candidates: set<string>)
    requires forall s | s in m :: s.Function?
    ensures TakenWhole(m, candidates) <==> Selected(m, candidates) == {}
    ensures Selected(m, candidates) == set e | e in Exports(m) && Reached(candidates, e)
  {
    forall e ensures !IsNamespace(m, e) {}
    forall e ensures Module(e) !in m {}
  }

  lemma OneSegmentReaches(a: string, b: string)
    requires Canonical(a) == a && Canonical(b) == b && '.' !in a && '.' !in b
    ensures Reached({a}, b) <==> a == b
  {
    SegmentsOfOne(a);
    SegmentsOfOne(b);
    assert EndsWith([a], [b]) <==> a == b;
  }

  lemma ExportsOfTwo(a: string, b: string)
    ensures Exports([PublicFunction(a), PublicFunction(b)]) == [a, b]
  {
    var m := [PublicFunction(a), PublicFunction(b)];
    assert m[1..] == [m[1]] && m[1..][1..] == [];
    assert Exports(m[1..]) == [b];
  }

  lemma TakenOfFunctions(m: seq<Statement>, candidates: set<string>, wanted: set<string>)
    requires forall s | s in m :: s.Function?
    requires forall e | e in wanted :: e in Exports(m)
    requires forall e | e in Exports(m) :: e in wanted <==> Reached(candidates, e)
    ensures Taken(m, candidates) == if wanted == {} then set e | e in Exports(m) else wanted
  {
    FunctionsAreSelected(m, candidates);
    assert Selected(m, candidates) == wanted;
  }

  lemma NothingIsReached(name: string)
    ensures !Reached({}, name)
  {
  }

  /** Of two public functions with different one-segment names, both arrive when nothing
      is asked for, and only the first when the first is. */
  lemma WideningCanNarrow(a: string, b: string)
    requires a != b && Canonical(a) == a && Canonical(b) == b && '.' !in a && '.' !in b
    ensures var m := [PublicFunction(a), PublicFunction(b)]; Taken(m, {}) == {a, b} && Taken(m, {a}) == {a}
  {
    var m := [PublicFunction(a), PublicFunction(b)];
    ExportsOfTwo(a, b);
    OneSegmentReaches(a, a);
    OneSegmentReaches(a, b);
    NothingIsReached(a);
    NothingIsReached(b);
    TakenOfFunctions(m, {}, {});
    TakenOfFunctions(m, {a}, {a});
  }
}
