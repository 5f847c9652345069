/**
  The files a program can reach through `load` and `load!`, and what they refer to.

  The file system is abstract: paths are canonicalised, parsed and resolved by
  functions that may fail.  A path and its canonical form are the same file.
*/
module ImportGraph {
  import opened Wrappers
  import opened Ast
  import opened Text
  import opened Dependencies
  import opened Renamer

  type Path = string

  /** `select` picks the wanted statements of a module; `prefixOf` is the prefix that
      loading a module under a name gives to the statements of each file. */
  datatype World = World(
    canonical: Path -> Option<Path>,
    parse: Path -> Option<seq<Statement>>,
    resolve: seq<string> -> Option<Path>,
    resolveLocal: (Path, seq<string>, bool) -> Option<Path>,
    prefixOf: (string, Path) -> (string -> string),
    select: (seq<Expanded>, set<string>, Path) -> Option<seq<Expanded>>)

  ghost predicate Coherent(w: World) {
    forall p, c | w.canonical(p) == Some(c) :: w.parse(p) == w.parse(c) && w.canonical(c) == Some(c)
  }

  // ---- candidates

  /** The text after the last "::", if there is one. */
  function LastPathSuffix(s: string): Option<string> {
    if |s| < 2 then None
    else
      var r := LastPathSuffix(s[1..]);
      if r.Some? then r else if s[0] == ':' && s[1] == ':' then Some(s[2..]) else None
  }

  function NamesIn(dep: string): set<string> {
    {dep} + (match LastSuffix(dep, '.') case Some(t) => {t} case None => {}) +
    (match LastPathSuffix(dep) case Some(t) => {t} case None => {})
  }

  ghost function Spelled(deps: seq<string>): set<string> {
    set d, n | d in deps && n in NamesIn(d) :: n
  }

  ghost function Mentions(s: Statement): set<string> {
    if s.Load? then {} else Spelled(StmtDeps(s))
  }

  ghost function Binds(s: Statement): set<string> {
    if s.Load? then {} else StmtBinds(s)
  }

  ghost function Mentioned(ss: seq<Statement>): set<string> {
    set s, n | s in ss && n in Mentions(s) :: n
  }

  ghost function BoundNames(ss: seq<Statement>): set<string> {
    set s, n | s in ss && n in Binds(s) :: n
  }

  ghost predicate IsTail(names: set<string>, n: string) {
    exists d | d in names :: LastSuffix(d, '.') == Some(n)
  }

  /** A name that is bound locally counts only as the tail of a dotted name. */
  ghost function CandidatesOf(ss: seq<Statement>): set<string> {
    set n | n in Mentioned(ss) && (n in BoundNames(ss) ==> IsTail(Mentioned(ss), n))
  }

  method CollectProgramDependencyCandidates(ss: seq<Statement>) returns (candidates: set<string>)
    ensures candidates == CandidatesOf(ss)
  {
    var all, bound := {}, {};
    for i := 0 to |ss|
      invariant all == Mentioned(ss[..i]) && bound == BoundNames(ss[..i])
    {
      assert ss[..i + 1] == ss[..i] + [ss[i]];
      MentionedGrows(ss[..i], ss[i]);
      if ss[i].Load? { continue; }
      var names := AllNamesIn(StmtDeps(ss[i]));
      all, bound := all + names, bound + StmtBinds(ss[i]);
    }
    assert ss[..|ss|] == ss;
    candidates := WithoutBound(all, bound);
  }

  method AllNamesIn(deps: seq<string>) returns (names: set<string>)
    ensures names == Spelled(deps)
  {
    names := {};
    for j := 0 to |deps|
      invariant names == Spelled(deps[..j])
    {
      assert deps[..j + 1] == deps[..j] + [deps[j]];
      names := names + NamesIn(deps[j]);
    }
    assert deps[..|deps|] == deps;
  }

  method WithoutBound(all: set<string>, bound: set<string>) returns (kept: set<string>)
    ensures kept == set n | n in all && (n in bound ==> IsTail(all, n))
  {
    var tails := set d | d in all && LastSuffix(d, '.').Some? && LastSuffix(d, '.').value in bound
      :: LastSuffix(d, '.').value;
    kept := set n | n in all && (n !in bound || n in tails);
  }

  lemma MentionedGrows(ss: seq<Statement>, s: Statement)
    ensures Mentioned(ss + [s]) == Mentioned(ss) + Mentions(s)
    ensures BoundNames(ss + [s]) == BoundNames(ss) + Binds(s)
  {
  }

  // ---- the graph

  predicate IsLoad(s: Statement) {
    s.Load? && s.path != [] && !("__" <= s.path[0])
  }

  /** The longest front of a load path that resolves, which is all the pre-scan follows. */
  function LongestResolved(w: World, path: seq<string>): Option<Path> {
    if path == [] then None
    else if w.resolve(path).Some? then w.resolve(path)
    else LongestResolved(w, path[..|path| - 1])
  }

  /** The file the pre-scan visits for a statement of file `c`. */
  function ScanTarget(w: World, c: Path, s: Statement): Option<Path> {
    if IsLoad(s) then LongestResolved(w, s.path)
    else if s.LoadLocal? then w.resolveLocal(c, s.relPath, s.absolute)
    else None
  }

  function CanonicalOf(w: World, p: Option<Path>): Option<Path> {
    if p.Some? then w.canonical(p.value) else None
  }

  ghost predicate Edge(w: World, c: Path, d: Path) {
    w.parse(c).Some? && exists s | s in w.parse(c).value :: CanonicalOf(w, ScanTarget(w, c, s)) == Some(d)
  }

  ghost predicate Walk(w: World, walk: seq<Path>) {
    |walk| > 0 && forall i | 0 <= i < |walk| - 1 :: Edge(w, walk[i], walk[i + 1])
  }

  ghost predicate Reaches(w: World, c: Path, d: Path) {
    exists walk :: Walk(w, walk) && walk[0] == c && walk[|walk| - 1] == d
  }

  lemma ReachesItself(w: World, c: Path)
    ensures Reaches(w, c, c)
  {
    assert Walk(w, [c]);
  }

  lemma ReachesFurther(w: World, c: Path, d: Path, e: Path)
    requires Edge(w, c, d) && Reaches(w, d, e)
    ensures Reaches(w, c, e)
  {
    var walk :| Walk(w, walk) && walk[0] == d && walk[|walk| - 1] == e;
    var longer := [c] + walk;
    forall i | 0 <= i < |longer| - 1 ensures Edge(w, longer[i], longer[i + 1]) {
      if i > 0 { assert Edge(w, walk[i - 1], walk[i - 1 + 1]); }
    }
    assert Walk(w, longer);
  }

  ghost predicate ClosedFiles(w: World, files: set<Path>) {
    forall c, d | c in files && Edge(w, c, d) :: d in files
  }

  lemma WalkFrom(w: World, walk: seq<Path>)
    requires Walk(w, walk) && |walk| > 1
    ensures Walk(w, walk[1..])
  {
    forall i | 0 <= i < |walk| - 2 ensures Edge(w, walk[1..][i], walk[1..][i + 1]) {
      assert Edge(w, walk[i + 1], walk[i + 1 + 1]);
    }
  }

  lemma {:induction false} WalkStays(w: World, files: set<Path>, walk: seq<Path>)
    requires ClosedFiles(w, files) && Walk(w, walk) && walk[0] in files
    ensures walk[|walk| - 1] in files
  {
    if |walk| > 1 {
      assert Edge(w, walk[0], walk[1]);
      WalkFrom(w, walk);
      WalkStays(w, files, walk[1..]);
    }
  }

  /** Everything the given files refer to. */
  ghost function ScopeOf(w: World, files: set<Path>): set<string> {
    set c, n | c in files && w.parse(c).Some? && n in CandidatesOf(w.parse(c).value) :: n
  }

  ghost predicate IsReach(w: World, root: Path, files: set<Path>) {
    forall d :: d in files <==> Reaches(w, root, d)
  }
}
