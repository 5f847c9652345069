/** Where the statements of a loaded program come from, and that none is lost. */
module ImportProvenance {
  import opened Wrappers
  import opened Ast
  import opened Candidates
  import opened Renamer
  import opened ImportGraph
  import opened ImportExpansion

  // ---- loads

  /** A load that was followed, with everything that came through it. */
  datatype Hop = Hop(load: Statement, target: Path, together: seq<Expanded>)

  /** The file that a load of file `c` names; a group load names the parent module. */
  function NamedFile(w: World, c: Path, load: Statement): Option<Path> {
    match load
    case Load(path, _, _) =>
      if w.resolve(path).Some? then w.resolve(path)
      else if |path| >= 3 then w.resolve(path[..|path| - 1])
      else None
    case LoadLocal(relPath, absolute) => w.resolveLocal(c, relPath, absolute)
    case _ => None
  }

  /** The name under which the loaded statements are known: the alias, or the last segment. */
  function GivenName(load: Statement): string {
    match load
    case Load(path, Some(alias), _) => alias
    case Load(path, None, _) => if path == [] || path == ["kioto"] then "" else path[|path| - 1]
    case LoadLocal(relPath, _) => if relPath == [] then "" else relPath[|relPath| - 1]
    case _ => ""
  }

  /** A load renames what comes through it, unless it has no name or loads a group. */
  function Through(w: World, hop: Hop, e: Expanded): Expanded {
    if hop.load.Load? && (w.resolve(hop.load.path).None? || GivenName(hop.load) == "") then e
    else RenameLoaded(e, hop.together, w.prefixOf(GivenName(hop.load), hop.target))
  }

  /** `e` is a statement of file `f` as it was parsed, and no load to follow. */
  predicate Own(w: World, f: Path, e: Expanded) {
    e.origin == f && w.parse(f).Some? && e.statement in w.parse(f).value && !IsLoad(e.statement)
  }

  predicate LoadOf(w: World, c: Path, load: Statement, target: Path) {
    w.parse(c).Some? && load in w.parse(c).value && (IsLoad(load) || load.LoadLocal?) && NamedFile(w, c, load) == Some(target)
  }

  // ---- trails

  /** `e` comes into file `c` through at most `n` loads, one inside the other. */
  ghost predicate Brought(w: World, c: Path, e: Expanded, n: nat)
    decreases n, 0
  {
    Own(w, c, e) || (n > 0 && exists hop, x :: IsHop(w, c, hop, n - 1) && x in hop.together && e == Through(w, hop, x))
  }

  ghost predicate IsHop(w: World, c: Path, hop: Hop, n: nat)
    decreases n, 2
  {
    LoadOf(w, c, hop.load, hop.target) && forall y | y in hop.together :: ComesFrom(w, hop.target, y, n)
  }

  /** A module without loads of its own is picked from under the path it was loaded by. */
  ghost predicate ComesFrom(w: World, target: Path, e: Expanded, n: nat)
    decreases n, 1
  {
    Own(w, target, e) || (w.canonical(target).Some? && Brought(w, w.canonical(target).value, e, n))
  }

  /** Renamed on the way out: by the innermost load first. */
  function Carried(w: World, trail: seq<Hop>, e: Expanded): Expanded {
    if trail == [] then e else Through(w, trail[0], Carried(w, trail[1..], e))
  }

  /** The loads lead, file by file, from `c` to the file `origin`. */
  ghost predicate LeadsTo(w: World, c: Path, trail: seq<Hop>, origin: Path, n: nat)
    decreases n
  {
    if trail == [] then c == origin
    else
      |trail| <= n && IsHop(w, c, trail[0], n - 1) &&
      ((|trail| == 1 && trail[0].target == origin) ||
       (w.canonical(trail[0].target).Some? && LeadsTo(w, w.canonical(trail[0].target).value, trail[1..], origin, n - 1)))
  }

  lemma ThroughKeepsOrigin(w: World, hop: Hop, e: Expanded)
    ensures Through(w, hop, e).origin == e.origin
  {
  }

  lemma {:induction false} BroughtAlongATrail(w: World, c: Path, e: Expanded, n: nat) returns (trail: seq<Hop>, s: Statement)
    requires Brought(w, c, e, n)
    ensures LeadsTo(w, c, trail, e.origin, n)
    ensures Own(w, e.origin, Expanded(s, e.origin)) && e == Carried(w, trail, Expanded(s, e.origin))
    decreases n
  {
    hide Through, IsHop;
    if Own(w, c, e) {
      trail, s := [], e.statement;
    } else {
      var hop, x :| IsHop(w, c, hop, n - 1) && x in hop.together && e == Through(w, hop, x);
      HopBrings(w, c, hop, n - 1, x);
      ThroughKeepsOrigin(w, hop, x);
      if Own(w, hop.target, x) {
        trail, s := [hop], x.statement;
        assert trail[1..] == [];
      } else {
        var inner;
        inner, s := BroughtAlongATrail(w, w.canonical(hop.target).value, x, n - 1);
        trail := [hop] + inner;
        assert trail[1..] == inner;
      }
    }
  }

  lemma HopBrings(w: World, c: Path, hop: Hop, n: nat, x: Expanded)
    requires IsHop(w, c, hop, n) && x in hop.together
    ensures ComesFrom(w, hop.target, x, n)
  {
  }

  // ---- nothing comes from elsewhere

  /** Picking takes statements from what it is given. */
  ghost predicate PicksFromGiven(w: World) {
    forall all, items, path, x :: w.select(all, items, path).Some? && x in w.select(all, items, path).value ==> x in all
  }

  ghost predicate AllBrought(w: World, c: Path, es: seq<Expanded>, n: nat) {
    forall e | e in es :: Brought(w, c, e, n)
  }

  ghost predicate AllComeFrom(w: World, target: Path, es: seq<Expanded>, n: nat) {
    forall e | e in es :: ComesFrom(w, target, e, n)
  }

  /** Every statement that a file expands to was brought into it along loads. */
  lemma {:induction false} ExpansionIsBrought(w: World, scope: set<string>, c: Path, n: nat)
    requires PicksFromGiven(w) && Expansion(w, scope, c, n).Some?
    ensures AllBrought(w, c, Expansion(w, scope, c, n).value, n)
    decreases n, 0, 0
  {
    AllIsBrought(w, scope, c, w.parse(c).value, n - 1);
  }

  lemma {:induction false} AllIsBrought(w: World, scope: set<string>, c: Path, ss: seq<Statement>, n: nat)
    requires PicksFromGiven(w) && ExpandAll(w, scope, c, ss, n).Some?
    requires w.parse(c).Some? && forall s | s in ss :: s in w.parse(c).value
    ensures AllBrought(w, c, ExpandAll(w, scope, c, ss, n).value, n + 1)
    decreases n, 5, |ss|
  {
    hide Brought, ExpandOne, PicksFromGiven;
    if ss != [] {
      var k := |ss| - 1;
      AllIsBrought(w, scope, c, ss[..k], n);
      OneIsBrought(w, scope, c, ss[k], n);
    }
  }

  lemma {:induction false} OneIsBrought(w: World, scope: set<string>, c: Path, s: Statement, n: nat)
    requires PicksFromGiven(w) && ExpandOne(w, scope, c, s, n).Some?
    requires w.parse(c).Some? && s in w.parse(c).value
    ensures AllBrought(w, c, ExpandOne(w, scope, c, s, n).value, n + 1)
    decreases n, 4, 0
  {
    hide PicksFromGiven, Whole, Imported, Picked, AllComeFrom, Through, Brought, Renamed, Wanted;
    var part := ExpandOne(w, scope, c, s, n).value;
    if IsLoad(s) {
      var target := NamedFile(w, c, s).value;
      var together: seq<Expanded>;
      if w.resolve(s.path).Some? {
        together := Imported(w, scope, target, Wanted(w, scope, s, target).value, n).value;
        ImportedComes(w, scope, target, Wanted(w, scope, s, target).value, n);
      } else {
        var items := GroupItems(Whole(w, scope, target, n).value, s.path[|s.path| - 1]);
        together := Picked(w, scope, target, items, n).value;
        PickedComes(w, scope, target, items, n);
      }
      LoadGoesThrough(w, scope, c, s, target, together, n);
      PartIsBrought(w, c, Hop(s, target, together), part, n);
    } else if s.LoadLocal? {
      var target := NamedFile(w, c, s).value;
      var together := Whole(w, scope, target, n).value;
      WholeComes(w, scope, target, n);
      LocalGoesThrough(w, scope, c, s, target, together, n);
      var front := part[..|part| - 1];
      PartIsBrought(w, c, Hop(s, target, together), front, n);
      assert part == front + [Expanded(s, c)];
      OwnIsBrought(w, c, Expanded(s, c), n + 1);
    } else {
      OwnIsBrought(w, c, Expanded(s, c), n + 1);
    }
  }

  lemma OwnIsBrought(w: World, c: Path, e: Expanded, n: nat)
    requires Own(w, c, e)
    ensures Brought(w, c, e, n)
  {
  }

  /** `part` is what came through the hop, in order. */
  predicate IsThrough(w: World, hop: Hop, part: seq<Expanded>) {
    |part| == |hop.together| && forall i | 0 <= i < |part| :: part[i] == Through(w, hop, hop.together[i])
  }

  lemma PartIsBrought(w: World, c: Path, hop: Hop, part: seq<Expanded>, n: nat)
    requires LoadOf(w, c, hop.load, hop.target) && AllComeFrom(w, hop.target, hop.together, n) && IsThrough(w, hop, part)
    ensures AllBrought(w, c, part, n + 1)
  {
    hide Through, ComesFrom, LoadOf;
    assert IsHop(w, c, hop, n);
    forall e | e in part ensures Brought(w, c, e, n + 1) {
      var i :| 0 <= i < |part| && part[i] == e;
      var x := hop.together[i];
      assert x in hop.together && e == Through(w, hop, x);
    }
  }

  lemma LoadGoesThrough(w: World, scope: set<string>, c: Path, s: Statement, target: Path, together: seq<Expanded>, n: nat)
    requires IsLoad(s) && NamedFile(w, c, s) == Some(target) && ExpandOne(w, scope, c, s, n).Some?
    requires w.resolve(s.path).Some? ==>
      Wanted(w, scope, s, target).Some? && Imported(w, scope, target, Wanted(w, scope, s, target).value, n) == Some(together)
    requires w.resolve(s.path).None? ==>
      Whole(w, scope, target, n).Some? &&
      Picked(w, scope, target, GroupItems(Whole(w, scope, target, n).value, s.path[|s.path| - 1]), n) == Some(together)
    ensures IsThrough(w, Hop(s, target, together), ExpandOne(w, scope, c, s, n).value)
  {
    hide Whole, Imported, Picked, Wanted, GroupItems, RenameLoaded;
  }

  lemma LocalGoesThrough(w: World, scope: set<string>, c: Path, s: Statement, target: Path, together: seq<Expanded>, n: nat)
    requires s.LoadLocal? && NamedFile(w, c, s) == Some(target) && ExpandOne(w, scope, c, s, n).Some?
    requires Whole(w, scope, target, n) == Some(together)
    ensures var part := ExpandOne(w, scope, c, s, n).value;
            |part| == |together| + 1 && part[|together|] == Expanded(s, c) &&
            IsThrough(w, Hop(s, target, together), part[..|together|])
  {
    hide Whole, RenameLoaded;
  }

  lemma {:induction false} ImportedComes(w: World, scope: set<string>, target: Path, wanted: Option<set<string>>, n: nat)
    requires PicksFromGiven(w) && Imported(w, scope, target, wanted, n).Some?
    ensures AllComeFrom(w, target, Imported(w, scope, target, wanted, n).value, n)
    decreases n, 2, 1
  {
    if wanted.Some? { PickedComes(w, scope, target, wanted.value, n); } else { WholeComes(w, scope, target, n); }
  }

  lemma {:induction false} WholeComes(w: World, scope: set<string>, target: Path, n: nat)
    requires PicksFromGiven(w) && Whole(w, scope, target, n).Some?
    ensures AllComeFrom(w, target, Whole(w, scope, target, n).value, n)
    decreases n, 1, 0
  {
    ExpansionIsBrought(w, scope, w.canonical(target).value, n);
  }

  lemma {:induction false} PickedComes(w: World, scope: set<string>, target: Path, items: set<string>, n: nat)
    requires PicksFromGiven(w) && Picked(w, scope, target, items, n).Some?
    ensures AllComeFrom(w, target, Picked(w, scope, target, items, n).value, n)
    decreases n, 2, 0
  {
    if HasLoads(w.parse(target).value) { WholeComes(w, scope, target, n); }
  }

  // ---- nothing that is taken whole is lost

  /** The statements of a file that expansion keeps as they are: all but the loads it follows. */
  function OwnStatements(ss: seq<Statement>): seq<Statement> {
    if ss == [] then []
    else OwnStatements(ss[..|ss| - 1]) + (if IsLoad(ss[|ss| - 1]) then [] else [ss[|ss| - 1]])
  }

  /** `at` gives the places in `r` of the elements of `own`, in order. */
  predicate InOrder(own: seq<Expanded>, r: seq<Expanded>, at: seq<nat>) {
    |at| == |own| && (forall i | 0 <= i < |at| :: at[i] < |r| && r[at[i]] == own[i]) &&
    forall i, j | 0 <= i < j < |at| :: at[i] < at[j]
  }

  lemma InOrderAppend(own: seq<Expanded>, r: seq<Expanded>, at: seq<nat>, part: seq<Expanded>)
    requires InOrder(own, r, at)
    ensures InOrder(own, r + part, at)
    ensures part != [] ==> InOrder(own + [part[|part| - 1]], r + part, at + [|r| + |part| - 1])
  {
  }

  /** A file's own statements are in its expansion, in the order of the file. */
  lemma {:induction false} OwnInOrder(w: World, scope: set<string>, c: Path, ss: seq<Statement>, n: nat) returns (at: seq<nat>)
    requires ExpandAll(w, scope, c, ss, n).Some?
    ensures InOrder(Plain(OwnStatements(ss), c), ExpandAll(w, scope, c, ss, n).value, at)
  {
    hide ExpandOne, InOrder;
    if ss == [] {
      at := [];
      EmptyInOrder(ExpandAll(w, scope, c, ss, n).value);
      assert Plain(OwnStatements(ss), c) == [];
    } else {
      var k := |ss| - 1;
      at := OwnInOrder(w, scope, c, ss[..k], n);
      var front, part := ExpandAll(w, scope, c, ss[..k], n).value, ExpandOne(w, scope, c, ss[k], n).value;
      var own := Plain(OwnStatements(ss[..k]), c);
      InOrderAppend(own, front, at, part);
      OwnStatementEndsItsPart(w, scope, c, ss[k], n);
      if IsLoad(ss[k]) {
        assert Plain(OwnStatements(ss), c) == own;
      } else {
        at := at + [|front| + |part| - 1];
        assert Plain(OwnStatements(ss), c) == own + [Expanded(ss[k], c)];
      }
    }
  }

  lemma EmptyInOrder(r: seq<Expanded>)
    ensures InOrder([], r, [])
  {
  }

  lemma OwnStatementEndsItsPart(w: World, scope: set<string>, c: Path, s: Statement, n: nat)
    requires ExpandOne(w, scope, c, s, n).Some?
    ensures !IsLoad(s) ==> var part := ExpandOne(w, scope, c, s, n).value; part != [] && part[|part| - 1] == Expanded(s, c)
  {
    hide Whole, Renamed;
  }

  /** The expansion of each statement stands in the expansion of the file as one part. */
  lemma {:induction false} PartInPlace(w: World, scope: set<string>, c: Path, ss: seq<Statement>, s: Statement, n: nat)
      returns (front: seq<Expanded>, back: seq<Expanded>)
    requires s in ss && ExpandAll(w, scope, c, ss, n).Some?
    ensures ExpandOne(w, scope, c, s, n).Some?
    ensures ExpandAll(w, scope, c, ss, n).value == front + ExpandOne(w, scope, c, s, n).value + back
  {
    hide ExpandOne;
    var k := |ss| - 1;
    assert ss == ss[..k] + [ss[k]];
    if s == ss[k] {
      front, back := ExpandAll(w, scope, c, ss[..k], n).value, [];
    } else {
      front, back := PartInPlace(w, scope, c, ss[..k], s, n);
      back := back + ExpandOne(w, scope, c, ss[k], n).value;
    }
  }

  /** A load that takes the whole of file `d` into file `c`. */
  ghost predicate EntersWhole(w: World, scope: set<string>, c: Path, load: Statement, d: Path) {
    NamedFile(w, c, load).Some? && LoadOf(w, c, load, NamedFile(w, c, load).value) &&
    w.canonical(NamedFile(w, c, load).value) == Some(d) &&
    (IsLoad(load) ==>
      load.items.None? && w.resolve(load.path).Some? && w.parse(w.resolve(load.path).value).Some? &&
      TakenWhole(w.parse(w.resolve(load.path).value).value, scope))
  }

  ghost predicate WholeLoads(w: World, scope: set<string>, files: seq<Path>, loads: seq<Statement>) {
    |files| == |loads| + 1 && forall k | 0 <= k < |loads| :: EntersWhole(w, scope, files[k], loads[k], files[k + 1])
  }

  function AllThrough(w: World, hop: Hop, es: seq<Expanded>): (r: seq<Expanded>)
    ensures |r| == |es|
  {
    seq(|es|, i requires 0 <= i < |es| => Through(w, hop, es[i]))
  }

  /** The kept `load!` of a hop, if it is one. */
  function Kept(load: Statement, c: Path): seq<Expanded> {
    if load.LoadLocal? then [Expanded(load, c)] else []
  }

  /** What arrives in the first of the files when `own` leaves the last: renamed by every load
      on the way, and after it the `load!` statements, which are kept. */
  function Arriving(w: World, files: seq<Path>, trail: seq<Hop>, own: seq<Expanded>): seq<Expanded>
    requires |files| == |trail| + 1
  {
    if trail == [] then own
    else
      AllThrough(w, trail[0], Arriving(w, files[1..], trail[1..], own)) + Kept(trail[0].load, files[0])
  }

  lemma {:induction false} CarriedArrives(w: World, files: seq<Path>, trail: seq<Hop>, own: seq<Expanded>, i: nat)
    requires |files| == |trail| + 1 && i < |own|
    ensures i < |Arriving(w, files, trail, own)| && Arriving(w, files, trail, own)[i] == Carried(w, trail, own[i])
  {
    hide Through;
    if trail != [] { CarriedArrives(w, files[1..], trail[1..], own, i); }
  }

  lemma InOrderInside(own: seq<Expanded>, r: seq<Expanded>, at: seq<nat>, front: seq<Expanded>, back: seq<Expanded>)
      returns (there: seq<nat>)
    requires InOrder(own, r, at)
    ensures InOrder(own, front + r + back, there)
  {
    there := seq(|at|, i requires 0 <= i < |at| => |front| + at[i]);
  }

  lemma InOrderThrough(w: World, hop: Hop, own: seq<Expanded>, r: seq<Expanded>, at: seq<nat>)
    requires InOrder(own, r, at)
    ensures InOrder(AllThrough(w, hop, own), AllThrough(w, hop, r), at)
  {
    hide Through;
  }

  lemma RenamedIsThrough(w: World, load: Statement, target: Path, inner: seq<Expanded>)
    requires load.LoadLocal? || (IsLoad(load) && w.resolve(load.path).Some?)
    ensures AllThrough(w, Hop(load, target, inner), inner) ==
            if load.Load? && GivenName(load) == "" then inner else Renamed(w, GivenName(load), target, inner)
  {
    hide RenameLoaded, GivenName;
  }

  lemma LocalPart(w: World, scope: set<string>, c: Path, load: Statement, d: Path, n: nat)
    requires load.LoadLocal? && EntersWhole(w, scope, c, load, d) && ExpandOne(w, scope, c, load, n).Some?
    ensures Expansion(w, scope, d, n).Some?
    ensures ExpandOne(w, scope, c, load, n).value ==
            Renamed(w, GivenName(load), NamedFile(w, c, load).value, Expansion(w, scope, d, n).value) + [Expanded(load, c)]
  {
    hide Expansion, Renamed;
    assert ExpandLocal(w, scope, c, load, n).Some?;
    assert Whole(w, scope, NamedFile(w, c, load).value, n) == Expansion(w, scope, d, n);
  }

  lemma LoadPart(w: World, scope: set<string>, c: Path, load: Statement, d: Path, n: nat)
    requires IsLoad(load) && EntersWhole(w, scope, c, load, d) && ExpandOne(w, scope, c, load, n).Some?
    ensures Expansion(w, scope, d, n).Some?
    ensures ExpandOne(w, scope, c, load, n).value ==
            if GivenName(load) == "" then Expansion(w, scope, d, n).value
            else Renamed(w, GivenName(load), NamedFile(w, c, load).value, Expansion(w, scope, d, n).value)
  {
    hide Expansion, Renamed, TakenWhole;
    var target := w.resolve(load.path).value;
    assert ExpandLoad(w, scope, load, target, n).Some?;
    assert Wanted(w, scope, load, target) == Some(None);
    assert Whole(w, scope, target, n) == Expansion(w, scope, d, n);
    assert GivenName(load) == LoadName(load.path, load.alias);
  }

  /** What a load that takes its target whole leaves in the loading file. */
  lemma WholePart(w: World, scope: set<string>, c: Path, load: Statement, d: Path, n: nat)
    requires EntersWhole(w, scope, c, load, d) && ExpandOne(w, scope, c, load, n).Some?
    ensures Expansion(w, scope, d, n).Some?
    ensures var inner := Expansion(w, scope, d, n).value;
            ExpandOne(w, scope, c, load, n).value ==
            AllThrough(w, Hop(load, NamedFile(w, c, load).value, inner), inner) + Kept(load, c)
  {
    hide Expansion, Renamed, AllThrough, TakenWhole, ExpandOne, GivenName;
    if load.LoadLocal? { LocalPart(w, scope, c, load, d, n); } else { LoadPart(w, scope, c, load, d, n); }
    RenamedIsThrough(w, load, NamedFile(w, c, load).value, Expansion(w, scope, d, n).value);
  }

  lemma ArrivesFurther(w: World, files: seq<Path>, trail: seq<Hop>, own: seq<Expanded>, inner: seq<Expanded>, there: seq<nat>,
                       front: seq<Expanded>, back: seq<Expanded>) returns (at: seq<nat>)
    requires |files| == |trail| + 1 && trail != []
    requires InOrder(Arriving(w, files[1..], trail[1..], own), inner, there)
    ensures InOrder(Arriving(w, files, trail, own),
                    front + (AllThrough(w, trail[0], inner) + Kept(trail[0].load, files[0])) + back, at)
  {
    hide InOrder, AllThrough;
    var arrived, part := Arriving(w, files[1..], trail[1..], own), AllThrough(w, trail[0], inner);
    var kept := Kept(trail[0].load, files[0]);
    InOrderThrough(w, trail[0], arrived, inner, there);
    InOrderAppend(AllThrough(w, trail[0], arrived), part, there, kept);
    var here := if kept == [] then there else there + [|part|];
    assert part + [] == part;
    at := InOrderInside(Arriving(w, files, trail, own), part + kept, here, front, back);
  }

  /** What leaves the last file comes along every hop, so its exports are among the symbols
      for which that hop renames. */
  predicate ComesAlong(w: World, trail: seq<Hop>, own: seq<Expanded>) {
    forall k, e | 0 <= k < |trail| && e in own :: Carried(w, trail[k + 1..], e) in trail[k].together
  }

  lemma ComesAlongFurther(w: World, files: seq<Path>, trail: seq<Hop>, own: seq<Expanded>, there: seq<nat>)
    requires |files| == |trail| && trail != [] && ComesAlong(w, trail[1..], own)
    requires InOrder(Arriving(w, files, trail[1..], own), trail[0].together, there)
    ensures ComesAlong(w, trail, own)
  {
    hide Arriving, Carried;
    var rest := trail[1..];
    forall k, e | 0 <= k < |trail| && e in own ensures Carried(w, trail[k + 1..], e) in trail[k].together {
      if k == 0 {
        var i :| 0 <= i < |own| && own[i] == e;
        CarriedArrives(w, files, rest, own, i);
      } else {
        assert trail[k + 1..] == rest[k - 1 + 1..] && trail[k] == rest[k - 1];
      }
    }
  }

  ghost predicate FollowsLoads(w: World, files: seq<Path>, loads: seq<Statement>, trail: seq<Hop>) {
    |trail| == |loads| == |files| - 1 &&
    forall k | 0 <= k < |trail| :: trail[k].load == loads[k] && NamedFile(w, files[k], loads[k]) == Some(trail[k].target)
  }

  /** What comes through the hops comes from their targets. */
  ghost predicate HopsHold(w: World, trail: seq<Hop>, n: nat) {
    |trail| < n && forall k | 0 <= k < |trail| :: AllComeFrom(w, trail[k].target, trail[k].together, n - 1 - k)
  }

  lemma HopsHoldFurther(w: World, scope: set<string>, trail: seq<Hop>, n: nat)
    requires PicksFromGiven(w) && trail != [] && n > 0 && HopsHold(w, trail[1..], n - 1)
    requires Whole(w, scope, trail[0].target, n - 1) == Some(trail[0].together)
    ensures HopsHold(w, trail, n)
  {
    hide AllComeFrom, PicksFromGiven, Whole;
    WholeComes(w, scope, trail[0].target, n - 1);
    forall k | 0 <= k < |trail| ensures AllComeFrom(w, trail[k].target, trail[k].together, n - 1 - k) {
      if k > 0 { assert trail[k] == trail[1..][k - 1]; }
    }
  }

  /** A file that is taken whole, load by load, into another loses none of its statements: they
      arrive in order, before the kept `load!` of each load on the way. */
  lemma {:induction false} WholeFileArrives(w: World, scope: set<string>, files: seq<Path>, loads: seq<Statement>, n: nat)
      returns (trail: seq<Hop>, at: seq<nat>)
    requires WholeLoads(w, scope, files, loads) && Expansion(w, scope, files[0], n).Some?
    ensures FollowsLoads(w, files, loads, trail)
    ensures w.parse(files[|loads|]).Some?
    ensures var own := Plain(OwnStatements(w.parse(files[|loads|]).value), files[|loads|]);
            InOrder(Arriving(w, files, trail, own), Expansion(w, scope, files[0], n).value, at) && ComesAlong(w, trail, own)
    ensures PicksFromGiven(w) ==> HopsHold(w, trail, n)
    decreases |loads|
  {
    hide InOrder, Expansion, ExpandOne, EntersWhole, OwnStatements, AllThrough, ComesAlong, HopsHold, PicksFromGiven;
    var c := files[0];
    var ss := Parsed(w, scope, c, n);
    if loads == [] {
      trail := [];
      at := OwnInOrder(w, scope, c, ss, n - 1);
      NothingOnTheWay(w, Plain(OwnStatements(ss), c), n);
    } else {
      assert EntersWhole(w, scope, files[0], loads[0], files[1]);
      EnteringIsAStatement(w, scope, c, loads[0], files[1]);
      var front, back := PartInPlace(w, scope, c, ss, loads[0], n - 1);
      WholePart(w, scope, c, loads[0], files[1], n - 1);
      WholeLoadsRest(w, scope, files, loads);
      var rest, there := WholeFileArrives(w, scope, files[1..], loads[1..], n - 1);
      var last := files[|loads|];
      var own, inner := Plain(OwnStatements(w.parse(last).value), last), Expansion(w, scope, files[1], n - 1).value;
      trail := [Hop(loads[0], NamedFile(w, c, loads[0]).value, inner)] + rest;
      assert trail[1..] == rest;
      ComesAlongFurther(w, files[1..], trail, own, there);
      if PicksFromGiven(w) { HopsHoldFurther(w, scope, trail, n); }
      at := ArrivesFurther(w, files, trail, own, inner, there, front, back);
    }
  }

  lemma NothingOnTheWay(w: World, own: seq<Expanded>, n: nat)
    ensures ComesAlong(w, [], own) && (n > 0 ==> HopsHold(w, [], n))
  {
  }

  lemma EnteringIsAStatement(w: World, scope: set<string>, c: Path, load: Statement, d: Path)
    requires EntersWhole(w, scope, c, load, d)
    ensures w.parse(c).Some? && load in w.parse(c).value && NamedFile(w, c, load).Some?
    ensures forall n: nat :: Whole(w, scope, NamedFile(w, c, load).value, n) == Expansion(w, scope, d, n)
  {
    hide Expansion;
  }

  lemma WholeLoadsRest(w: World, scope: set<string>, files: seq<Path>, loads: seq<Statement>)
    requires WholeLoads(w, scope, files, loads) && loads != []
    ensures WholeLoads(w, scope, files[1..], loads[1..])
  {
    hide EntersWhole;
    forall k | 0 <= k < |loads[1..]| ensures EntersWhole(w, scope, files[1..][k], loads[1..][k], files[1..][k + 1]) {
      assert EntersWhole(w, scope, files[k + 1], loads[k + 1], files[k + 1 + 1]);
    }
  }

  ghost function Parsed(w: World, scope: set<string>, c: Path, n: nat): (ss: seq<Statement>)
    requires Expansion(w, scope, c, n).Some?
    ensures n > 0 && w.parse(c) == Some(ss) && Expansion(w, scope, c, n) == ExpandAll(w, scope, c, ss, n - 1)
  {
    w.parse(c).value
  }

  // ---- named items

  /** The load takes the items it names, or, naming none, the exports that are needed. */
  ghost predicate AsksFor(w: World, scope: set<string>, load: Statement, items: set<string>) {
    IsLoad(load) && w.resolve(load.path).Some? &&
    if load.items.Some? then items == set n | n in load.items.value
    else
      var parsed := w.parse(w.resolve(load.path).value);
      parsed.Some? && !TakenWhole(parsed.value, scope) && items == Selected(parsed.value, scope)
  }

  /** The items are picked from the file as parsed if it loads nothing, else from all it loads. */
  ghost predicate IsPicked(w: World, scope: set<string>, target: Path, items: set<string>, picked: seq<Expanded>, n: nat) {
    w.parse(target).Some? &&
    if HasLoads(w.parse(target).value)
    then Whole(w, scope, target, n).Some? && w.select(Whole(w, scope, target, n).value, items, target) == Some(picked)
    else w.select(Plain(w.parse(target).value, target), items, target) == Some(picked)
  }

  /** The items of a load arrive exactly as they are picked, under the name the load gives. */
  lemma NamedItemsArrive(w: World, scope: set<string>, c: Path, load: Statement, items: set<string>, n: nat)
      returns (front: seq<Expanded>, picked: seq<Expanded>, back: seq<Expanded>)
    requires Expansion(w, scope, c, n + 1).Some? && load in w.parse(c).value && AsksFor(w, scope, load, items)
    ensures NamedFile(w, c, load).Some? && IsPicked(w, scope, NamedFile(w, c, load).value, items, picked, n)
    ensures Expansion(w, scope, c, n + 1).value ==
            front + AllThrough(w, Hop(load, NamedFile(w, c, load).value, picked), picked) + back
  {
    hide Whole, Renamed, AllThrough, TakenWhole, Selected, ExpandAll, GivenName;
    front, back := PartInPlace(w, scope, c, w.parse(c).value, load, n);
    var target := w.resolve(load.path).value;
    assert ExpandLoad(w, scope, load, target, n).Some?;
    picked := Picked(w, scope, target, items, n).value;
    PickedPart(w, scope, c, load, items, n);
  }

  lemma PickedPart(w: World, scope: set<string>, c: Path, load: Statement, items: set<string>, n: nat)
    requires w.parse(c).Some? && ExpandOne(w, scope, c, load, n).Some? && AsksFor(w, scope, load, items)
    ensures var target := w.resolve(load.path).value;
            Picked(w, scope, target, items, n).Some? &&
            IsPicked(w, scope, target, items, Picked(w, scope, target, items, n).value, n) &&
            ExpandOne(w, scope, c, load, n).value ==
            AllThrough(w, Hop(load, target, Picked(w, scope, target, items, n).value), Picked(w, scope, target, items, n).value)
  {
    hide Whole, Renamed, AllThrough, TakenWhole, Selected, HasLoads;
    var target := w.resolve(load.path).value;
    assert ExpandLoad(w, scope, load, target, n).Some?;
    assert Wanted(w, scope, load, target) == Some(Some(items));
    assert GivenName(load) == LoadName(load.path, load.alias);
    RenamedIsThrough(w, load, target, Picked(w, scope, target, items, n).value);
  }

  /** A group load takes what is picked for the parent's exports that start with the group's
      name, and leaves it under the names it has. */
  lemma GroupArrives(w: World, scope: set<string>, c: Path, load: Statement, n: nat)
      returns (front: seq<Expanded>, items: set<string>, picked: seq<Expanded>, back: seq<Expanded>)
    requires Expansion(w, scope, c, n + 1).Some? && load in w.parse(c).value && IsLoad(load) && w.resolve(load.path).None?
    ensures NamedFile(w, c, load).Some? && Whole(w, scope, NamedFile(w, c, load).value, n).Some?
    ensures items != {} && IsPicked(w, scope, NamedFile(w, c, load).value, items, picked, n)
    ensures forall name :: name in items <==>
      ((load.path[|load.path| - 1] + "::") <= name &&
       exists e | e in Whole(w, scope, NamedFile(w, c, load).value, n).value :: ExportName(e.statement) == Some(name))
    ensures Expansion(w, scope, c, n + 1).value == front + picked + back
  {
    hide Whole, Picked, ExpandAll, HasLoads;
    front, back := PartInPlace(w, scope, c, w.parse(c).value, load, n);
    var target := NamedFile(w, c, load).value;
    assert ExpandGroup(w, scope, load, n).Some?;
    items := GroupItems(Whole(w, scope, target, n).value, load.path[|load.path| - 1]);
    picked := Picked(w, scope, target, items, n).value;
    PickedIsPicked(w, scope, target, items, n);
  }

  lemma PickedIsPicked(w: World, scope: set<string>, target: Path, items: set<string>, n: nat)
    requires Picked(w, scope, target, items, n).Some?
    ensures IsPicked(w, scope, target, items, Picked(w, scope, target, items, n).value, n)
  {
    hide Whole, HasLoads;
  }

  // ---- a whole program

  /** The last file's own statements, renamed on the way, are all there. */
  ghost predicate ArrivesWhole(w: World, files: seq<Path>, loads: seq<Statement>, statements: seq<Expanded>)
    requires |files| == |loads| + 1
  {
    w.parse(files[|loads|]).Some? &&
    var own := Plain(OwnStatements(w.parse(files[|loads|]).value), files[|loads|]);
    exists trail :: FollowsLoads(w, files, loads, trail) && ComesAlong(w, trail, own) &&
                    forall e | e in Arriving(w, files, trail, own) :: e in statements
  }

  /** Nothing comes from elsewhere, and no file that is taken whole loses a statement. */
  ghost predicate HasProvenance(w: World, scope: set<string>, c: Path, statements: seq<Expanded>) {
    (PicksFromGiven(w) ==> exists n: nat :: AllBrought(w, c, statements, n)) &&
    forall files, loads | WholeLoads(w, scope, files, loads) && files[0] == c :: ArrivesWhole(w, files, loads, statements)
  }

  lemma WholeFileIsThere(w: World, scope: set<string>, files: seq<Path>, loads: seq<Statement>, n: nat, statements: seq<Expanded>)
    requires |files| == |loads| + 1 && WholeLoads(w, scope, files, loads) && Expansion(w, scope, files[0], n).Some?
    requires forall e | e in Expansion(w, scope, files[0], n).value :: e in statements
    ensures ArrivesWhole(w, files, loads, statements)
  {
    hide Expansion, WholeLoads, Arriving, ComesAlong, OwnStatements;
    var trail, at := WholeFileArrives(w, scope, files, loads, n);
    var own := Plain(OwnStatements(w.parse(files[|loads|]).value), files[|loads|]);
    forall e | e in Arriving(w, files, trail, own) ensures e in statements {
      var i :| 0 <= i < |Arriving(w, files, trail, own)| && Arriving(w, files, trail, own)[i] == e;
      assert Expansion(w, scope, files[0], n).value[at[i]] == e;
    }
  }

  lemma ExpansionHasProvenance(w: World, scope: set<string>, c: Path, n: nat, statements: seq<Expanded>)
    requires Expansion(w, scope, c, n).Some?
    requires forall e :: e in statements <==> e in Expansion(w, scope, c, n).value
    ensures HasProvenance(w, scope, c, statements)
  {
    hide Expansion, PicksFromGiven, Brought, ArrivesWhole, EntersWhole;
    if PicksFromGiven(w) {
      ExpansionIsBrought(w, scope, c, n);
      assert AllBrought(w, c, statements, n);
    }
    forall files, loads | WholeLoads(w, scope, files, loads) && files[0] == c ensures ArrivesWhole(w, files, loads, statements) {
      WholeFileIsThere(w, scope, files, loads, n, statements);
    }
  }
}
