/**
  The order of statements, and of `load` statements in particular, does not matter:
  two programs whose files hold the same statements in different orders reach the same
  files, refer to the same names, select the same exports of every module, and expand
  to the same statements.
*/
module LoadOrder {
  import opened Wrappers
  import opened Ast
  import opened Candidates
  import opened Renamer
  import opened ImportGraph
  import opened ImportExpansion

  ghost predicate Same<T(!new)>(a: seq<T>, b: seq<T>) {
    forall x :: x in a <==> x in b
  }

  ghost predicate SameOption<T(!new)>(a: Option<seq<T>>, b: Option<seq<T>>) {
    (a.Some? <==> b.Some?) && (a.Some? ==> Same(a.value, b.value))
  }

  /** `v` is `w` with the statements of its files in other orders. */
  ghost predicate Reordered(w: World, v: World) {
    v == w.(parse := v.parse) && forall c :: SameOption(w.parse(c), v.parse(c))
  }

  /** Picking items from a module does not depend on the order of its statements. */
  ghost predicate OrderBlind(w: World) {
    forall a, b, items, path | Same(a, b) :: SameOption(w.select(a, items, path), w.select(b, items, path))
  }

  lemma CandidatesAgree(a: seq<Statement>, b: seq<Statement>)
    requires Same(a, b)
    ensures CandidatesOf(a) == CandidatesOf(b)
  {
    assert Mentioned(a) == Mentioned(b);
    assert BoundNames(a) == BoundNames(b);
  }

  lemma EdgesAgree(w: World, v: World, c: Path, d: Path)
    requires Reordered(w, v)
    ensures Edge(w, c, d) <==> Edge(v, c, d)
  {
    assert SameOption(w.parse(c), v.parse(c));
    forall s ensures ScanTarget(w, c, s) == ScanTarget(v, c, s) { TargetsAgree(w, v, c, s); }
  }

  lemma {:induction false} ResolvedAgree(w: World, v: World, path: seq<string>)
    requires Reordered(w, v)
    ensures LongestResolved(w, path) == LongestResolved(v, path)
  {
    if path != [] { ResolvedAgree(w, v, path[..|path| - 1]); }
  }

  lemma TargetsAgree(w: World, v: World, c: Path, s: Statement)
    requires Reordered(w, v)
    ensures ScanTarget(w, c, s) == ScanTarget(v, c, s)
  {
    if IsLoad(s) { ResolvedAgree(w, v, s.path); }
  }

  lemma ReachesAgree(w: World, v: World, c: Path, d: Path)
    requires Reordered(w, v)
    ensures Reaches(w, c, d) <==> Reaches(v, c, d)
  {
    forall walk ensures Walk(w, walk) <==> Walk(v, walk) {
      forall i | 0 <= i < |walk| - 1 ensures Edge(w, walk[i], walk[i + 1]) <==> Edge(v, walk[i], walk[i + 1]) {
        EdgesAgree(w, v, walk[i], walk[i + 1]);
      }
    }
  }

  lemma ScopesAgree(w: World, v: World, root: Path, files: set<Path>, files': set<Path>)
    requires Reordered(w, v) && IsReach(w, root, files) && IsReach(v, root, files')
    ensures files == files' && ScopeOf(w, files) == ScopeOf(v, files')
  {
    forall d ensures d in files <==> d in files' { ReachesAgree(w, v, root, d); }
    forall c | c in files && w.parse(c).Some?
      ensures v.parse(c).Some? && CandidatesOf(w.parse(c).value) == CandidatesOf(v.parse(c).value)
    {
      assert SameOption(w.parse(c), v.parse(c));
      CandidatesAgree(w.parse(c).value, v.parse(c).value);
    }
    forall c | v.parse(c).Some? ensures w.parse(c).Some? { assert SameOption(w.parse(c), v.parse(c)); }
  }

  // ---- selection

  lemma {:induction false} ExportsAre(ss: seq<Statement>, name: string)
    ensures name in Exports(ss) <==> exists s | s in ss :: ExportName(s) == Some(name)
  {
    if ss != [] {
      ExportsAre(ss[1..], name);
      assert ss == [ss[0]] + ss[1..];
    }
  }

  lemma ExportsAgree(a: seq<Statement>, b: seq<Statement>)
    requires Same(a, b)
    ensures Same(Exports(a), Exports(b))
  {
    forall name ensures name in Exports(a) <==> name in Exports(b) {
      ExportsAre(a, name);
      ExportsAre(b, name);
    }
  }

  lemma SelectionAgrees(a: seq<Statement>, b: seq<Statement>, scope: set<string>)
    requires Same(a, b)
    ensures Selected(a, scope) == Selected(b, scope) && (TakenWhole(a, scope) <==> TakenWhole(b, scope))
  {
    ExportsAgree(a, b);
    forall n ensures Selectable(a, n) <==> Selectable(b, n) {}
    forall n ensures IsNamespace(a, n) <==> IsNamespace(b, n) {}
    assert Selected(a, scope) == Selected(b, scope);
    NestedAgrees(a, b, scope);
    NestedAgrees(b, a, scope);
  }

  lemma NestedAgrees(a: seq<Statement>, b: seq<Statement>, scope: set<string>)
    requires Same(a, b) && Same(Exports(a), Exports(b))
    ensures NeedsNested(a, scope) ==> NeedsNested(b, scope)
  {
    forall e | e in Exports(a) && NestedIsNeeded(a, scope, e) ensures NestedIsNeeded(b, scope, e) {}
  }

  lemma WantedAgree(w: World, v: World, scope: set<string>, s: Statement, target: Path)
    requires Reordered(w, v) && s.Load?
    ensures Wanted(w, scope, s, target) == Wanted(v, scope, s, target)
  {
    assert SameOption(w.parse(target), v.parse(target));
    if w.parse(target).Some? { SelectionAgrees(w.parse(target).value, v.parse(target).value, scope); }
  }

  /** Whatever a load statement selects from its target, it selects it under every order. */
  lemma SelectionIgnoresLoadOrder(w: World, v: World, root: Path, files: set<Path>, files': set<Path>,
                                  s: Statement, target: Path)
    requires Reordered(w, v) && IsReach(w, root, files) && IsReach(v, root, files') && s.Load?
    ensures Wanted(w, ScopeOf(w, files), s, target) == Wanted(v, ScopeOf(v, files'), s, target)
  {
    ScopesAgree(w, v, root, files, files');
    WantedAgree(w, v, ScopeOf(w, files), s, target);
  }

  // ---- expansion

  lemma RenamedAgree(w: World, name: string, target: Path, a: seq<Expanded>, b: seq<Expanded>)
    requires Same(a, b)
    ensures Same(Renamed(w, name, target, a), Renamed(w, name, target, b))
  {
    RenamedInto(w, name, target, a, b);
    RenamedInto(w, name, target, b, a);
  }

  lemma RenamedInto(w: World, name: string, target: Path, a: seq<Expanded>, b: seq<Expanded>)
    requires Same(a, b)
    ensures forall e | e in Renamed(w, name, target, a) :: e in Renamed(w, name, target, b)
  {
    var p := w.prefixOf(name, target);
    forall prefix ensures ExportedUnder(a, p, prefix) == ExportedUnder(b, p, prefix) {}
    forall i | 0 <= i < |a| ensures Renamed(w, name, target, a)[i] in Renamed(w, name, target, b) {
      assert a[i] in a;
      var j :| 0 <= j < |b| && b[j] == a[i];
      assert Renamed(w, name, target, b)[j] == Renamed(w, name, target, a)[i];
    }
  }

  lemma PlainAgree(a: seq<Statement>, b: seq<Statement>, origin: Path)
    requires Same(a, b)
    ensures Same(Plain(a, origin), Plain(b, origin))
  {
    PlainInto(a, b, origin);
    PlainInto(b, a, origin);
  }

  lemma PlainInto(a: seq<Statement>, b: seq<Statement>, origin: Path)
    requires Same(a, b)
    ensures forall e | e in Plain(a, origin) :: e in Plain(b, origin)
  {
    forall i | 0 <= i < |a| ensures Plain(a, origin)[i] in Plain(b, origin) {
      assert a[i] in a;
      var j :| 0 <= j < |b| && b[j] == a[i];
      assert Plain(b, origin)[j] == Plain(a, origin)[i];
    }
  }

  ghost predicate EachExpands(w: World, scope: set<string>, c: Path, ss: seq<Statement>, n: nat) {
    forall s | s in ss :: ExpandOne(w, scope, c, s, n).Some?
  }

  ghost predicate FromSome(w: World, scope: set<string>, c: Path, ss: seq<Statement>, n: nat, e: Expanded) {
    exists s | s in ss :: ExpandOne(w, scope, c, s, n).Some? && e in ExpandOne(w, scope, c, s, n).value
  }

  /** A file expands when each of its statements does, to the expansions of all of them. */
  lemma {:induction false} AllIsUnion(w: World, scope: set<string>, c: Path, ss: seq<Statement>, n: nat)
    ensures ExpandAll(w, scope, c, ss, n).Some? <==> EachExpands(w, scope, c, ss, n)
    ensures ExpandAll(w, scope, c, ss, n).Some? ==>
      forall e :: e in ExpandAll(w, scope, c, ss, n).value <==> FromSome(w, scope, c, ss, n, e)
  {
    hide ExpandOne;
    if ss != [] {
      var k := |ss| - 1;
      AllIsUnion(w, scope, c, ss[..k], n);
      assert ss == ss[..k] + [ss[k]];
      forall s ensures s in ss <==> s in ss[..k] || s == ss[k] {}
      if ExpandAll(w, scope, c, ss, n).Some? {
        forall e ensures e in ExpandAll(w, scope, c, ss, n).value <==> FromSome(w, scope, c, ss, n, e) {
          assert FromSome(w, scope, c, ss, n, e) <==>
            FromSome(w, scope, c, ss[..k], n, e) || e in ExpandOne(w, scope, c, ss[k], n).value;
        }
      }
    }
  }

  lemma {:induction false} ExpansionsAgree(w: World, v: World, scope: set<string>, c: Path, n: nat)
    requires Reordered(w, v) && OrderBlind(w)
    ensures SameOption(Expansion(w, scope, c, n), Expansion(v, scope, c, n))
    decreases n, 0
  {
    assert SameOption(w.parse(c), v.parse(c));
    if n > 0 && w.parse(c).Some? { AllAgree(w, v, scope, c, w.parse(c).value, v.parse(c).value, n - 1); }
  }

  lemma {:induction false} AllAgree(w: World, v: World, scope: set<string>, c: Path,
                                    a: seq<Statement>, b: seq<Statement>, n: nat)
    requires Reordered(w, v) && OrderBlind(w) && Same(a, b)
    ensures SameOption(ExpandAll(w, scope, c, a, n), ExpandAll(v, scope, c, b, n))
    decreases n, 5
  {
    hide ExpandOne;
    AllIsUnion(w, scope, c, a, n);
    AllIsUnion(v, scope, c, b, n);
    forall s ensures SameOption(ExpandOne(w, scope, c, s, n), ExpandOne(v, scope, c, s, n)) {
      OneAgrees(w, v, scope, c, s, n);
    }
    assert EachExpands(w, scope, c, a, n) <==> EachExpands(v, scope, c, b, n);
    forall e ensures FromSome(w, scope, c, a, n, e) <==> FromSome(v, scope, c, b, n, e) {}
  }

  lemma {:induction false} OneAgrees(w: World, v: World, scope: set<string>, c: Path, s: Statement, n: nat)
    requires Reordered(w, v) && OrderBlind(w)
    ensures SameOption(ExpandOne(w, scope, c, s, n), ExpandOne(v, scope, c, s, n))
    decreases n, 4
  {
    if IsLoad(s) {
      if w.resolve(s.path).Some? {
        LoadAgrees(w, v, scope, s, w.resolve(s.path).value, n);
      } else if |s.path| >= 3 {
        GroupAgrees(w, v, scope, s, n);
      }
    } else if s.LoadLocal? {
      LocalAgrees(w, v, scope, c, s, n);
    }
  }

  lemma {:induction false} LoadAgrees(w: World, v: World, scope: set<string>, s: Statement, target: Path, n: nat)
    requires Reordered(w, v) && OrderBlind(w) && IsLoad(s)
    ensures SameOption(ExpandLoad(w, scope, s, target, n), ExpandLoad(v, scope, s, target, n))
    decreases n, 3
  {
    hide Wanted, Renamed, Whole, Picked;
    WantedAgree(w, v, scope, s, target);
    if Wanted(w, scope, s, target).Some? {
      var wanted := Wanted(w, scope, s, target).value;
      if wanted.Some? {
        PickedAgrees(w, v, scope, target, wanted.value, n);
      } else {
        WholeAgrees(w, v, scope, target, n);
      }
      var x, y := Imported(w, scope, target, wanted, n), Imported(v, scope, target, wanted, n);
      if x.Some? { RenamedByAgree(w, v, LoadName(s.path, s.alias), target, x.value, y.value); }
    }
  }

  lemma RenamedByAgree(w: World, v: World, name: string, target: Path, a: seq<Expanded>, b: seq<Expanded>)
    requires Reordered(w, v) && Same(a, b)
    ensures Same(Renamed(w, name, target, a), Renamed(v, name, target, b))
  {
    RenamedAgree(w, name, target, a, b);
    assert Renamed(w, name, target, b) == Renamed(v, name, target, b);
  }

  lemma {:induction false} GroupAgrees(w: World, v: World, scope: set<string>, s: Statement, n: nat)
    requires Reordered(w, v) && OrderBlind(w) && IsLoad(s) && |s.path| >= 3
    ensures SameOption(ExpandGroup(w, scope, s, n), ExpandGroup(v, scope, s, n))
    decreases n, 3
  {
    hide Whole, Picked;
    var found := w.resolve(s.path[..|s.path| - 1]);
    if found.Some? {
      WholeAgrees(w, v, scope, found.value, n);
      if Whole(w, scope, found.value, n).Some? {
        var all, all' := Whole(w, scope, found.value, n).value, Whole(v, scope, found.value, n).value;
        var group := s.path[|s.path| - 1];
        assert GroupItems(all, group) == GroupItems(all', group);
        PickedAgrees(w, v, scope, found.value, GroupItems(all, group), n);
      }
    }
  }

  lemma {:induction false} LocalAgrees(w: World, v: World, scope: set<string>, c: Path, s: Statement, n: nat)
    requires Reordered(w, v) && OrderBlind(w) && s.LoadLocal?
    ensures SameOption(ExpandLocal(w, scope, c, s, n), ExpandLocal(v, scope, c, s, n))
    decreases n, 3
  {
    hide Whole, Renamed;
    var found := w.resolveLocal(c, s.relPath, s.absolute);
    if found.Some? {
      WholeAgrees(w, v, scope, found.value, n);
      if Whole(w, scope, found.value, n).Some? {
        RenamedByAgree(w, v, if s.relPath == [] then "" else s.relPath[|s.relPath| - 1], found.value,
                       Whole(w, scope, found.value, n).value, Whole(v, scope, found.value, n).value);
      }
    }
  }

  lemma {:induction false} WholeAgrees(w: World, v: World, scope: set<string>, path: Path, n: nat)
    requires Reordered(w, v) && OrderBlind(w)
    ensures SameOption(Whole(w, scope, path, n), Whole(v, scope, path, n))
    decreases n, 1
  {
    if w.canonical(path).Some? { ExpansionsAgree(w, v, scope, w.canonical(path).value, n); }
  }

  lemma {:induction false} PickedAgrees(w: World, v: World, scope: set<string>, path: Path, items: set<string>, n: nat)
    requires Reordered(w, v) && OrderBlind(w)
    ensures SameOption(Picked(w, scope, path, items, n), Picked(v, scope, path, items, n))
    decreases n, 2
  {
    hide Whole, Plain;
    assert SameOption(w.parse(path), v.parse(path));
    if w.parse(path).Some? {
      PlainAgree(w.parse(path).value, v.parse(path).value, path);
      assert HasLoads(w.parse(path).value) <==> HasLoads(v.parse(path).value);
      WholeAgrees(w, v, scope, path, n);
    }
  }

  /** The order of statements is no part of what a program means to the loader. */
  lemma LoadOrderDoesNotMatter(w: World, v: World, root: Path, files: set<Path>, files': set<Path>, n: nat)
    requires Reordered(w, v) && OrderBlind(w) && IsReach(w, root, files) && IsReach(v, root, files')
    ensures files == files'
    ensures SameOption(Expansion(w, ScopeOf(w, files), root, n), Expansion(v, ScopeOf(v, files'), root, n))
  {
    ScopesAgree(w, v, root, files, files');
    ExpansionsAgree(w, v, ScopeOf(w, files), root, n);
  }
}
