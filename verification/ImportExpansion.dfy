/**
  What a file expands to when every load in it is replaced by the loaded statements,
  written without a memo and without a stack of active files, to a bounded depth.
  A file that lies on a cycle of followed loads has no expansion at any depth.
*/
module ImportExpansion {
  import opened Wrappers
  import opened Ast
  import opened Candidates
  import opened Renamer
  import opened ImportGraph

  function LoadName(path: seq<string>, alias: Option<string>): string {
    if alias.Some? then alias.value
    else if path == ["kioto"] || path == [] then ""
    else path[|path| - 1]
  }

  predicate HasLoads(ss: seq<Statement>) {
    exists s | s in ss :: s.Load?
  }

  function Plain(ss: seq<Statement>, origin: Path): seq<Expanded> {
    seq(|ss|, i requires 0 <= i < |ss| => Expanded(ss[i], origin))
  }

  /** What to take from `target`: the items asked for, or the reachable exports, or all. */
  ghost function Wanted(w: World, scope: set<string>, s: Statement, target: Path): Option<Option<set<string>>>
    requires s.Load?
  {
    if s.items.Some? then Some(Some(set n | n in s.items.value))
    else match w.parse(target)
      case None => None
      case Some(ss) => Some(if TakenWhole(ss, scope) then None else Some(Selected(ss, scope)))
  }

  /** The exports of a group: `load a::b::group` takes the `group::*` exports of `a::b`. */
  ghost function GroupItems(all: seq<Expanded>, group: string): set<string> {
    set e | e in all && ExportName(e.statement).Some? && (group + "::") <= ExportName(e.statement).value
      :: ExportName(e.statement).value
  }

  ghost function Expansion(w: World, scope: set<string>, c: Path, depth: nat): Option<seq<Expanded>>
    decreases depth, 0, 0
  {
    if depth == 0 then None
    else match w.parse(c)
      case None => None
      case Some(ss) => ExpandAll(w, scope, c, ss, depth - 1)
  }

  ghost function ExpandAll(w: World, scope: set<string>, c: Path, ss: seq<Statement>, depth: nat): Option<seq<Expanded>>
    decreases depth, 5, |ss|
  {
    if ss == [] then Some([])
    else
      var n := |ss| - 1;
      match (ExpandAll(w, scope, c, ss[..n], depth), ExpandOne(w, scope, c, ss[n], depth))
      case (Some(front), Some(last)) => Some(front + last)
      case _ => None
  }

  ghost function ExpandOne(w: World, scope: set<string>, c: Path, s: Statement, depth: nat): Option<seq<Expanded>>
    decreases depth, 4, 0
  {
    if IsLoad(s) then
      match w.resolve(s.path)
      case Some(target) => ExpandLoad(w, scope, s, target, depth)
      case None => if |s.path| < 3 then None else ExpandGroup(w, scope, s, depth)
    else if s.LoadLocal? then ExpandLocal(w, scope, c, s, depth)
    else Some([Expanded(s, c)])
  }

  ghost function ExpandLoad(w: World, scope: set<string>, s: Statement, target: Path, depth: nat): Option<seq<Expanded>>
    requires IsLoad(s)
    decreases depth, 3, 0
  {
    match Wanted(w, scope, s, target)
    case None => None
    case Some(wanted) =>
      match Imported(w, scope, target, wanted, depth)
      case None => None
      case Some(ss) =>
        var name := LoadName(s.path, s.alias);
        Some(if name == "" then ss else Renamed(w, name, target, ss))
  }

  /** All of `target`, or the wanted items of it. */
  ghost function Imported(w: World, scope: set<string>, target: Path, wanted: Option<set<string>>, depth: nat)
    : Option<seq<Expanded>>
    decreases depth, 2, 1
  {
    if wanted.Some? then Picked(w, scope, target, wanted.value, depth) else Whole(w, scope, target, depth)
  }

  ghost function ExpandGroup(w: World, scope: set<string>, s: Statement, depth: nat): Option<seq<Expanded>>
    requires IsLoad(s) && |s.path| >= 3
    decreases depth, 3, 0
  {
    match w.resolve(s.path[..|s.path| - 1])
    case None => None
    case Some(target) =>
      match Whole(w, scope, target, depth)
      case None => None
      case Some(all) =>
        var items := GroupItems(all, s.path[|s.path| - 1]);
        if items == {} then None else Picked(w, scope, target, items, depth)
  }

  ghost function ExpandLocal(w: World, scope: set<string>, c: Path, s: Statement, depth: nat): Option<seq<Expanded>>
    requires s.LoadLocal?
    decreases depth, 3, 0
  {
    match w.resolveLocal(c, s.relPath, s.absolute)
    case None => None
    case Some(target) =>
      match Whole(w, scope, target, depth)
      case None => None
      case Some(ss) =>
        var name := if s.relPath == [] then "" else s.relPath[|s.relPath| - 1];
        Some(Renamed(w, name, target, ss) + [Expanded(s, c)])
  }

  ghost function Renamed(w: World, name: string, target: Path, imported: seq<Expanded>): seq<Expanded> {
    seq(|imported|, i requires 0 <= i < |imported| => RenameLoaded(imported[i], imported, w.prefixOf(name, target)))
  }

  ghost function Whole(w: World, scope: set<string>, path: Path, depth: nat): Option<seq<Expanded>>
    decreases depth, 1, 0
  {
    match w.canonical(path)
    case None => None
    case Some(c) => Expansion(w, scope, c, depth)
  }

  /** A module without loads of its own is picked from as it was parsed. */
  ghost function Picked(w: World, scope: set<string>, path: Path, items: set<string>, depth: nat): Option<seq<Expanded>>
    decreases depth, 2, 0
  {
    match w.parse(path)
    case None => None
    case Some(ss) =>
      if !HasLoads(ss) then w.select(Plain(ss, path), items, path)
      else match Whole(w, scope, path, depth)
        case None => None
        case Some(all) => w.select(all, items, path)
  }

  // ---- depth

  lemma {:induction false} MoreDepth(w: World, scope: set<string>, c: Path, n: nat, m: nat)
    requires n <= m && Expansion(w, scope, c, n).Some?
    ensures Expansion(w, scope, c, m) == Expansion(w, scope, c, n)
    decreases n, 0, 0
  {
    MoreDepthAll(w, scope, c, w.parse(c).value, n - 1, m - 1);
  }

  lemma {:induction false} MoreDepthAll(w: World, scope: set<string>, c: Path, ss: seq<Statement>, n: nat, m: nat)
    requires n <= m && ExpandAll(w, scope, c, ss, n).Some?
    ensures ExpandAll(w, scope, c, ss, m) == ExpandAll(w, scope, c, ss, n)
    decreases n, 5, |ss|
  {
    if ss != [] {
      MoreDepthAll(w, scope, c, ss[..|ss| - 1], n, m);
      MoreDepthOne(w, scope, c, ss[|ss| - 1], n, m);
    }
  }

  lemma {:induction false} MoreDepthOne(w: World, scope: set<string>, c: Path, s: Statement, n: nat, m: nat)
    requires n <= m && ExpandOne(w, scope, c, s, n).Some?
    ensures ExpandOne(w, scope, c, s, m) == ExpandOne(w, scope, c, s, n)
    decreases n, 4, 0
  {
    if IsLoad(s) {
      if w.resolve(s.path).Some? {
        MoreDepthLoad(w, scope, s, w.resolve(s.path).value, n, m);
      } else {
        MoreDepthGroup(w, scope, s, n, m);
      }
    } else if s.LoadLocal? {
      MoreDepthLocal(w, scope, c, s, n, m);
    }
  }

  lemma {:induction false} MoreDepthLoad(w: World, scope: set<string>, s: Statement, target: Path, n: nat, m: nat)
    requires n <= m && IsLoad(s) && ExpandLoad(w, scope, s, target, n).Some?
    ensures ExpandLoad(w, scope, s, target, m) == ExpandLoad(w, scope, s, target, n)
    decreases n, 3, 0
  {
    match Wanted(w, scope, s, target).value
    case None => MoreDepthWhole(w, scope, target, n, m);
    case Some(items) => MoreDepthPicked(w, scope, target, items, n, m);
  }

  lemma {:induction false} MoreDepthGroup(w: World, scope: set<string>, s: Statement, n: nat, m: nat)
    requires n <= m && IsLoad(s) && |s.path| >= 3 && ExpandGroup(w, scope, s, n).Some?
    ensures ExpandGroup(w, scope, s, m) == ExpandGroup(w, scope, s, n)
    decreases n, 3, 0
  {
    var target := w.resolve(s.path[..|s.path| - 1]).value;
    MoreDepthWhole(w, scope, target, n, m);
    MoreDepthPicked(w, scope, target, GroupItems(Whole(w, scope, target, n).value, s.path[|s.path| - 1]), n, m);
  }

  lemma {:induction false} MoreDepthLocal(w: World, scope: set<string>, c: Path, s: Statement, n: nat, m: nat)
    requires n <= m && s.LoadLocal? && ExpandLocal(w, scope, c, s, n).Some?
    ensures ExpandLocal(w, scope, c, s, m) == ExpandLocal(w, scope, c, s, n)
    decreases n, 3, 0
  {
    MoreDepthWhole(w, scope, w.resolveLocal(c, s.relPath, s.absolute).value, n, m);
  }

  lemma {:induction false} MoreDepthWhole(w: World, scope: set<string>, path: Path, n: nat, m: nat)
    requires n <= m && Whole(w, scope, path, n).Some?
    ensures Whole(w, scope, path, m) == Whole(w, scope, path, n)
    decreases n, 1, 0
  {
    MoreDepth(w, scope, w.canonical(path).value, n, m);
  }

  lemma {:induction false} MoreDepthPicked(w: World, scope: set<string>, path: Path, items: set<string>, n: nat, m: nat)
    requires n <= m && Picked(w, scope, path, items, n).Some?
    ensures Picked(w, scope, path, items, m) == Picked(w, scope, path, items, n)
    decreases n, 2, 0
  {
    if HasLoads(w.parse(path).value) { MoreDepthWhole(w, scope, path, n, m); }
  }

  // ---- followed loads

  /** The file that expanding statement `s` of file `c` expands in turn. */
  ghost function Enters(w: World, scope: set<string>, c: Path, s: Statement): Option<Path> {
    if IsLoad(s) then
      match w.resolve(s.path)
      case Some(target) => EntersLoad(w, scope, s, target)
      case None => if |s.path| < 3 then None else CanonicalOf(w, w.resolve(s.path[..|s.path| - 1]))
    else if s.LoadLocal? then CanonicalOf(w, w.resolveLocal(c, s.relPath, s.absolute))
    else None
  }

  ghost function EntersLoad(w: World, scope: set<string>, s: Statement, target: Path): Option<Path>
    requires s.Load?
  {
    match Wanted(w, scope, s, target)
    case None => None
    case Some(None) => w.canonical(target)
    case Some(Some(_)) =>
      if w.parse(target).Some? && HasLoads(w.parse(target).value) then w.canonical(target) else None
  }

  ghost predicate Follows(w: World, scope: set<string>, c: Path, d: Path) {
    w.parse(c).Some? && exists s | s in w.parse(c).value :: Enters(w, scope, c, s) == Some(d)
  }

  lemma EntersIsScanned(w: World, scope: set<string>, c: Path, s: Statement, d: Path)
    requires Enters(w, scope, c, s) == Some(d)
    ensures CanonicalOf(w, ScanTarget(w, c, s)) == Some(d)
  {
    if IsLoad(s) && w.resolve(s.path).None? {
      assert LongestResolved(w, s.path) == LongestResolved(w, s.path[..|s.path| - 1]);
    }
  }

  lemma FollowsIsEdge(w: World, scope: set<string>, c: Path, d: Path)
    requires Follows(w, scope, c, d)
    ensures Edge(w, c, d)
  {
    var s :| s in w.parse(c).value && Enters(w, scope, c, s) == Some(d);
    EntersIsScanned(w, scope, c, s, d);
  }

  lemma EntersIsExpanded(w: World, scope: set<string>, c: Path, s: Statement, d: Path, n: nat)
    requires Enters(w, scope, c, s) == Some(d) && ExpandOne(w, scope, c, s, n).Some?
    ensures Expansion(w, scope, d, n).Some?
  {
    if IsLoad(s) {
      if w.resolve(s.path).Some? {
        LoadIsExpanded(w, scope, s, w.resolve(s.path).value, d, n);
      } else {
        assert ExpandGroup(w, scope, s, n).Some?;
        assert Whole(w, scope, w.resolve(s.path[..|s.path| - 1]).value, n).Some?;
      }
    } else {
      assert ExpandLocal(w, scope, c, s, n).Some?;
      assert Whole(w, scope, w.resolveLocal(c, s.relPath, s.absolute).value, n).Some?;
    }
  }

  lemma LoadIsExpanded(w: World, scope: set<string>, s: Statement, target: Path, d: Path, n: nat)
    requires IsLoad(s) && EntersLoad(w, scope, s, target) == Some(d) && ExpandLoad(w, scope, s, target, n).Some?
    ensures Expansion(w, scope, d, n).Some?
  {
    match Wanted(w, scope, s, target).value
    case None => assert Whole(w, scope, target, n).Some?;
    case Some(items) =>
      assert Picked(w, scope, target, items, n).Some?;
      assert Whole(w, scope, target, n).Some?;
  }

  lemma {:induction false} EachIsExpanded(w: World, scope: set<string>, c: Path, ss: seq<Statement>, s: Statement, n: nat)
    requires s in ss && ExpandAll(w, scope, c, ss, n).Some?
    ensures ExpandOne(w, scope, c, s, n).Some?
  {
    var k := |ss| - 1;
    assert ss == ss[..k] + [ss[k]];
    if s != ss[k] { EachIsExpanded(w, scope, c, ss[..k], s, n); }
  }

  lemma FollowedIsExpanded(w: World, scope: set<string>, c: Path, d: Path, n: nat)
    requires Follows(w, scope, c, d) && Expansion(w, scope, c, n).Some?
    ensures n > 0 && Expansion(w, scope, d, n - 1).Some?
  {
    hide ExpandAll, Enters;
    var ss := w.parse(c).value;
    var s :| s in ss && Enters(w, scope, c, s) == Some(d);
    EnteredIsExpanded(w, scope, c, ss, s, d, n - 1);
  }

  lemma EnteredIsExpanded(w: World, scope: set<string>, c: Path, ss: seq<Statement>, s: Statement, d: Path, n: nat)
    requires s in ss && Enters(w, scope, c, s) == Some(d) && ExpandAll(w, scope, c, ss, n).Some?
    ensures Expansion(w, scope, d, n).Some?
  {
    EachIsExpanded(w, scope, c, ss, s, n);
    EntersIsExpanded(w, scope, c, s, d, n);
  }

  ghost predicate Trail(w: World, scope: set<string>, trail: seq<Path>) {
    |trail| > 0 && forall i | 0 <= i < |trail| - 1 :: Follows(w, scope, trail[i], trail[i + 1])
  }

  lemma {:induction false} TrailIsExpanded(w: World, scope: set<string>, trail: seq<Path>, i: nat, n: nat)
    requires Trail(w, scope, trail) && i < |trail| && Expansion(w, scope, trail[0], n).Some?
    ensures i < n && Expansion(w, scope, trail[i], n - i).Some?
  {
    if i > 0 {
      var j := i - 1;
      TrailIsExpanded(w, scope, trail, j, n);
      assert Follows(w, scope, trail[j], trail[j + 1]);
      FollowedIsExpanded(w, scope, trail[i - 1], trail[i], n - (i - 1));
    }
  }

  /** A file on a cycle of followed loads has no expansion. */
  lemma {:induction false} CycleNeverExpands(w: World, scope: set<string>, trail: seq<Path>, n: nat)
    requires Trail(w, scope, trail) && |trail| > 1 && trail[0] == trail[|trail| - 1]
    ensures Expansion(w, scope, trail[0], n).None?
  {
    if Expansion(w, scope, trail[0], n).Some? {
      TrailIsExpanded(w, scope, trail, |trail| - 1, n);
      CycleNeverExpands(w, scope, trail, n - (|trail| - 1));
    }
  }

  /** Nor has any file whose loads lead into a cycle. */
  lemma LeadingIntoACycleNeverExpands(w: World, scope: set<string>, trail: seq<Path>, cycle: seq<Path>, n: nat)
    requires Trail(w, scope, trail) && Trail(w, scope, cycle)
    requires |cycle| > 1 && cycle[0] == cycle[|cycle| - 1] == trail[|trail| - 1]
    ensures Expansion(w, scope, trail[0], n).None?
  {
    if Expansion(w, scope, trail[0], n).Some? {
      TrailIsExpanded(w, scope, trail, |trail| - 1, n);
      CycleNeverExpands(w, scope, cycle, n - (|trail| - 1));
    }
  }
}
