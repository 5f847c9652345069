/**
  The import resolver: a pre-scan that marks every reachable file and gathers what the
  files refer to, then a memoised expansion that detects cycles.

  The entry file carries no `@[derive]`, so that scan and expansion parse the same text.
*/
module ImportResolver {
  import opened Wrappers
  import opened Ast
  import opened Candidates
  import opened Renamer
  import opened ImportGraph
  import opened ImportExpansion
  import opened ImportProvenance

  const MAX_LOCAL_LOAD_DEPTH := 64
  const MAX_LOADED_FILES := 4096

  datatype LoadError =
    | TooDeep
    | TooManyFiles
    | Unresolved
    | Unreadable
    | Cyclic(path: Path)
    | NoMatchingExports
    | NotExported

  datatype Loaded = Ok(statements: seq<Expanded>) | Err(error: LoadError)

  /** The files the scan may mark fit its budget. */
  ghost predicate FitsBudget(w: World, root: Path) {
    exists files: set<Path> :: |files| <= MAX_LOADED_FILES && IsReach(w, root, files)
  }

  /** Every edge out of `files` leads to a marked file. */
  ghost predicate ClosedInto(w: World, files: set<Path>, marked: set<Path>) {
    forall c, d | c in files && Edge(w, c, d) :: d in marked
  }

  lemma ScopeOfUnion(w: World, a: set<Path>, b: set<Path>)
    ensures ScopeOf(w, a + b) == ScopeOf(w, a) + ScopeOf(w, b)
  {
  }

  /** File `c` is marked and the targets of its first `i` statements are dealt with. */
  ghost predicate Progress(w: World, c: Path, ss: seq<Statement>, i: nat, before: set<Path>, marked: set<Path>) {
    before + {c} <= marked && |before| < |marked| <= MAX_LOADED_FILES &&
    (forall d | d in marked - before :: Reaches(w, c, d)) &&
    (|marked| < MAX_LOADED_FILES ==>
      ClosedInto(w, marked - before - {c}, marked) && TargetsMarked(w, c, ss[..if i <= |ss| then i else |ss|], marked))
  }

  ghost predicate TargetsMarked(w: World, c: Path, ss: seq<Statement>, marked: set<Path>) {
    forall s, d | s in ss && CanonicalOf(w, ScanTarget(w, c, s)) == Some(d) :: d in marked
  }

  /** What one call of the scan does to the set of marked files. */
  ghost predicate Scanned(w: World, path: Path, before: set<Path>, after: set<Path>) {
    before <= after && |after| <= MAX_LOADED_FILES &&
    (forall d | d in after - before :: w.canonical(path).Some? && Reaches(w, w.canonical(path).value, d)) &&
    (|after| < MAX_LOADED_FILES ==>
      ClosedInto(w, after - before, after) && (w.canonical(path).Some? ==> w.canonical(path).value in after))
  }

  lemma StartScan(w: World, c: Path, ss: seq<Statement>, before: set<Path>)
    requires c !in before && |before| < MAX_LOADED_FILES
    ensures Progress(w, c, ss, 0, before, before + {c})
  {
    ReachesItself(w, c);
    assert (before + {c}) - before == {c};
  }

  lemma ScanStep(w: World, c: Path, ss: seq<Statement>, i: nat, before: set<Path>, mid: set<Path>, after: set<Path>,
                 target: Option<Path>)
    requires w.parse(c) == Some(ss) && i < |ss| && ScanTarget(w, c, ss[i]) == target
    requires Progress(w, c, ss, i, before, mid)
    requires if target.Some? then Scanned(w, target.value, mid, after) else after == mid
    ensures Progress(w, c, ss, i + 1, before, after)
  {
    SubsetSize(mid, after);
    assert ss[..i + 1] == ss[..i] + [ss[i]];
    forall d | d in after - mid ensures Reaches(w, c, d) {
      var t := w.canonical(target.value).value;
      assert ss[i] in ss && Edge(w, c, t);
      ReachesFurther(w, c, t, d);
    }
  }

  lemma EndScan(w: World, c: Path, ss: seq<Statement>, before: set<Path>, after: set<Path>)
    requires w.parse(c) == Some(ss) && Progress(w, c, ss, |ss|, before, after)
    ensures |after| < MAX_LOADED_FILES ==> ClosedInto(w, after - before, after)
  {
    assert ss[..|ss|] == ss;
  }

  /** `scope` grew by what the files marked between `a` and `b` refer to. */
  ghost predicate ScopeGrew(w: World, a: set<Path>, scope: set<string>, b: set<Path>, scope': set<string>) {
    a <= b && scope' == scope + ScopeOf(w, b - a)
  }

  lemma ScopeGrewTwice(w: World, a: set<Path>, sa: set<string>, b: set<Path>, sb: set<string>,
                       c: set<Path>, sc: set<string>)
    requires ScopeGrew(w, a, sa, b, sb) && ScopeGrew(w, b, sb, c, sc)
    ensures ScopeGrew(w, a, sa, c, sc)
  {
    assert c - a == (b - a) + (c - b);
    ScopeOfUnion(w, b - a, c - b);
  }

  lemma ScopeFromNothing(w: World, b: set<Path>, sb: set<string>)
    requires ScopeGrew(w, {}, {}, b, sb)
    ensures sb == ScopeOf(w, b)
  {
    assert b - {} == b;
  }

  lemma ScopeGrewNot(w: World, a: set<Path>, sa: set<string>)
    ensures ScopeGrew(w, a, sa, a, sa)
  {
    assert a - a == {} && ScopeOf(w, {}) == {};
  }

  lemma ScopeGrewByOne(w: World, a: set<Path>, sa: set<string>, c: Path)
    requires c !in a
    ensures w.parse(c).None? ==> ScopeGrew(w, a, sa, a + {c}, sa)
    ensures w.parse(c).Some? ==> ScopeGrew(w, a, sa, a + {c}, sa + CandidatesOf(w.parse(c).value))
  {
    assert (a + {c}) - a == {c};
    if w.parse(c).Some? {
      assert ScopeOf(w, {c}) == CandidatesOf(w.parse(c).value);
    } else {
      assert ScopeOf(w, {c}) == {};
    }
  }

  /** The scan is exact if and only if the reachable files fit the budget. */
  lemma ScanIsExactIff(w: World, path: Path, after: set<Path>)
    requires w.canonical(path).Some? && Scanned(w, path, {}, after)
    ensures IsReach(w, w.canonical(path).value, after) <==> FitsBudget(w, w.canonical(path).value)
  {
    var root := w.canonical(path).value;
    assert after - {} == after;
    if FitsBudget(w, root) {
      var files: set<Path> :| |files| <= MAX_LOADED_FILES && IsReach(w, root, files);
      assert after <= files;
      if |after| == MAX_LOADED_FILES {
        SubsetOfSameSize(after, files);
      } else {
        forall d | Reaches(w, root, d) ensures d in after {
          var walk :| Walk(w, walk) && walk[0] == root && walk[|walk| - 1] == d;
          WalkStays(w, after, walk);
        }
      }
    }
  }

  lemma SubsetOfSameSize<T>(a: set<T>, b: set<T>)
    requires a <= b && |b| <= |a|
    ensures a == b
  {
    assert b == a + (b - a);
  }

  lemma ReachIsClosed(w: World, root: Path, files: set<Path>)
    requires IsReach(w, root, files)
    ensures ClosedFiles(w, files)
  {
    forall c, d | c in files && Edge(w, c, d) ensures d in files {
      var walk :| Walk(w, walk) && walk[0] == root && walk[|walk| - 1] == c;
      assert Walk(w, walk + [d]);
    }
  }

  ghost predicate ScanIsExact(w: World, path: Path) {
    Coherent(w) && w.canonical(path).Some? && FitsBudget(w, w.canonical(path).value)
  }

  // ---- what the expansion keeps

  predicate IsLimit(e: LoadError) {
    e.TooDeep? || e.TooManyFiles?
  }

  ghost predicate NeverWhole(w: World, scope: set<string>, path: Path) {
    forall n: nat :: Whole(w, scope, path, n).None?
  }

  ghost predicate NeverPicked(w: World, scope: set<string>, path: Path, items: set<string>) {
    forall n: nat :: Picked(w, scope, path, items, n).None?
  }

  ghost predicate NeverOne(w: World, scope: set<string>, c: Path, s: Statement) {
    forall n: nat :: ExpandOne(w, scope, c, s, n).None?
  }

  ghost predicate NeverAll(w: World, scope: set<string>, c: Path, ss: seq<Statement>) {
    forall n: nat :: ExpandAll(w, scope, c, ss, n).None?
  }

  ghost predicate MemoIsExpansion(w: World, scope: set<string>, memo: map<Path, seq<Expanded>>) {
    forall k | k in memo :: Expansion(w, scope, k, |memo|) == Some(memo[k])
  }

  ghost predicate Tracks(active: set<Path>, stack: seq<Path>) {
    (forall c :: c in active <==> c in stack) && (active == {} ==> stack == [])
  }

  lemma TracksPush(active: set<Path>, stack: seq<Path>, c: Path)
    requires Tracks(active, stack) && c !in active
    ensures Tracks(active + {c}, stack + [c])
  {
  }

  lemma TracksPop(active: set<Path>, stack: seq<Path>, c: Path)
    requires Tracks(active, stack + [c]) && c !in stack
    ensures Tracks(active - {c}, stack)
  {
    if stack != [] { assert stack[0] in stack && stack[0] in stack + [c]; }
  }

  /** The state of an expansion whose scan was exact. */
  ghost predicate Facts(w: World, seen: set<Path>, scope: set<string>, stack: seq<Path>, memo: map<Path, seq<Expanded>>) {
    Coherent(w) && ClosedFiles(w, seen) && scope == ScopeOf(w, seen) && (forall c | c in stack :: c in seen) &&
    (stack != [] ==> Trail(w, scope, stack)) && MemoIsExpansion(w, scope, memo)
  }

  lemma StartFacts(w: World, path: Path, seen: set<Path>, scope: set<string>)
    requires ScanIsExact(w, path) && Scanned(w, path, {}, seen) && scope == ScopeOf(w, seen)
    ensures Facts(w, seen, scope, [], map[]) && w.canonical(path).value in seen
  {
    ReachesItself(w, w.canonical(path).value);
    ScanIsExactIff(w, path, seen);
    ReachIsClosed(w, w.canonical(path).value, seen);
  }

  lemma EnterFacts(w: World, seen: set<Path>, scope: set<string>, stack: seq<Path>, memo: map<Path, seq<Expanded>>, c: Path)
    requires Facts(w, seen, scope, stack, memo) && c in seen
    requires stack != [] ==> Follows(w, scope, stack[|stack| - 1], c)
    ensures Facts(w, seen, scope, stack + [c], memo)
  {
    if stack != [] { TrailCloses(w, scope, stack, 0, c); assert stack[0..] == stack; }
  }

  lemma LeaveFacts(w: World, seen: set<Path>, scope: set<string>, stack: seq<Path>, memo: map<Path, seq<Expanded>>,
                   c: Path, ss: seq<Statement>, expanded: seq<Expanded>)
    requires Facts(w, seen, scope, stack + [c], memo) && c !in memo
    requires w.parse(c) == Some(ss) && ExpandAll(w, scope, c, ss, |memo|) == Some(expanded)
    ensures Facts(w, seen, scope, stack, memo[c := expanded])
    ensures Expansion(w, scope, c, |memo[c := expanded]|) == Some(expanded)
  {
    MemoGrows(w, scope, memo, c, ss, expanded);
    if stack != [] {
      var longer := stack + [c];
      forall i | 0 <= i < |stack| - 1 ensures Follows(w, scope, stack[i], stack[i + 1]) {
        assert Follows(w, scope, longer[i], longer[i + 1]);
      }
    }
  }

  lemma FollowedIsSeen(w: World, seen: set<Path>, scope: set<string>, stack: seq<Path>, memo: map<Path, seq<Expanded>>, c: Path)
    requires Facts(w, seen, scope, stack, memo) && stack != [] && Follows(w, scope, stack[|stack| - 1], c)
    ensures c in seen
  {
    FollowsIsEdge(w, scope, stack[|stack| - 1], c);
  }

  lemma NeverFile(w: World, scope: set<string>, c: Path, ss: seq<Statement>)
    requires w.parse(c) == Some(ss) && NeverAll(w, scope, c, ss)
    ensures NeverExpands(w, scope, c)
  {
    forall n: nat ensures Expansion(w, scope, c, n).None? {
      if n > 0 { assert ExpandAll(w, scope, c, ss, n - 1).None?; }
    }
  }

  ghost predicate NeverExpands(w: World, scope: set<string>, c: Path) {
    forall n: nat :: Expansion(w, scope, c, n).None?
  }

  /** The scope already holds what an active file refers to. */
  lemma CandidatesInScope(w: World, seen: set<Path>, scope: set<string>, stack: seq<Path>,
                          memo: map<Path, seq<Expanded>>)
    requires Facts(w, seen, scope, stack, memo) && stack != [] && w.parse(stack[|stack| - 1]).Some?
    ensures CandidatesOf(w.parse(stack[|stack| - 1]).value) <= scope
  {
    assert stack[|stack| - 1] in stack;
  }

  lemma NeverStatement(w: World, scope: set<string>, c: Path, ss: seq<Statement>, s: Statement)
    requires s in ss && NeverOne(w, scope, c, s)
    ensures NeverAll(w, scope, c, ss)
  {
    forall n: nat ensures ExpandAll(w, scope, c, ss, n).None? {
      if ExpandAll(w, scope, c, ss, n).Some? { EachIsExpanded(w, scope, c, ss, s, n); }
    }
  }

  lemma Appended(w: World, scope: set<string>, c: Path, ss: seq<Statement>, i: nat,
                 front: seq<Expanded>, last: seq<Expanded>, n: nat, m: nat)
    requires i < |ss| && n <= m
    requires ExpandAll(w, scope, c, ss[..i], n) == Some(front) && ExpandOne(w, scope, c, ss[i], m) == Some(last)
    ensures ExpandAll(w, scope, c, ss[..i + 1], m) == Some(front + last)
  {
    MoreDepthAll(w, scope, c, ss[..i], n, m);
    assert ss[..i + 1][..i] == ss[..i];
  }

  lemma FollowsLoad(w: World, scope: set<string>, c: Path, s: Statement, target: Path)
    requires w.parse(c).Some? && s in w.parse(c).value && IsLoad(s) && w.resolve(s.path) == Some(target)
    ensures EntersLoad(w, scope, s, target).Some? ==> Follows(w, scope, c, EntersLoad(w, scope, s, target).value)
  {
    assert Enters(w, scope, c, s) == EntersLoad(w, scope, s, target);
  }

  ghost predicate NeverImported(w: World, scope: set<string>, target: Path, wanted: Option<set<string>>) {
    if wanted.Some? then NeverPicked(w, scope, target, wanted.value) else NeverWhole(w, scope, target)
  }

  lemma LoadNever(w: World, scope: set<string>, c: Path, s: Statement, target: Path, wanted: Option<set<string>>)
    requires IsLoad(s) && w.resolve(s.path) == Some(target) && Wanted(w, scope, s, target) == Some(wanted)
    requires NeverImported(w, scope, target, wanted)
    ensures NeverOne(w, scope, c, s)
  {
    forall k: nat ensures ExpandOne(w, scope, c, s, k).None? {
      assert if wanted.Some? then Picked(w, scope, target, wanted.value, k).None? else Whole(w, scope, target, k).None?;
      assert ExpandLoad(w, scope, s, target, k).None?;
    }
  }

  lemma NoneSelected(w: World, scope: set<string>, path: Path, items: set<string>, all: seq<Expanded>, n: nat)
    requires w.parse(path).Some? && HasLoads(w.parse(path).value) && Whole(w, scope, path, n) == Some(all)
    requires w.select(all, items, path).None?
    ensures NeverPicked(w, scope, path, items)
  {
    forall k: nat ensures Picked(w, scope, path, items, k).None? {
      if Whole(w, scope, path, k).Some? { WholeIsUnique(w, scope, path, n, k); }
    }
  }

  lemma LocalNever(w: World, scope: set<string>, c: Path, s: Statement, target: Path)
    requires s.LoadLocal? && w.resolveLocal(c, s.relPath, s.absolute) == Some(target) && NeverWhole(w, scope, target)
    ensures NeverOne(w, scope, c, s)
  {
    forall n: nat ensures ExpandOne(w, scope, c, s, n).None? { assert Whole(w, scope, target, n).None?; }
  }

  ghost predicate IsGroupOf(w: World, s: Statement, target: Path) {
    IsLoad(s) && w.resolve(s.path).None? && |s.path| >= 3 && w.resolve(s.path[..|s.path| - 1]) == Some(target)
  }

  lemma FollowsGroup(w: World, scope: set<string>, c: Path, s: Statement, target: Path)
    requires w.parse(c).Some? && s in w.parse(c).value && IsGroupOf(w, s, target)
    ensures w.canonical(target).Some? ==> Follows(w, scope, c, w.canonical(target).value)
  {
    assert Enters(w, scope, c, s) == w.canonical(target);
  }

  lemma LoadExpands(w: World, scope: set<string>, c: Path, s: Statement, target: Path, wanted: Option<set<string>>,
                    imported: seq<Expanded>, n: nat)
    requires IsLoad(s) && w.resolve(s.path) == Some(target) && Wanted(w, scope, s, target) == Some(wanted)
    requires Imported(w, scope, target, wanted, n) == Some(imported)
    ensures ExpandOne(w, scope, c, s, n) ==
      var name := LoadName(s.path, s.alias); Some(if name == "" then imported else Renamed(w, name, target, imported))
  {
    assert ExpandOne(w, scope, c, s, n) == ExpandLoad(w, scope, s, target, n);
  }

  lemma NothingWanted(w: World, scope: set<string>, c: Path, s: Statement, target: Path)
    requires IsLoad(s) && w.resolve(s.path) == Some(target) && Wanted(w, scope, s, target).None?
    ensures NeverOne(w, scope, c, s)
  {
  }

  lemma NoParent(w: World, scope: set<string>, c: Path, s: Statement)
    requires IsLoad(s) && w.resolve(s.path).None? && |s.path| >= 3 && w.resolve(s.path[..|s.path| - 1]).None?
    ensures NeverOne(w, scope, c, s)
  {
  }

  /** Depths at which a file expands agree on the expansion. */
  lemma WholeIsUnique(w: World, scope: set<string>, path: Path, n: nat, m: nat)
    requires Whole(w, scope, path, n).Some? && Whole(w, scope, path, m).Some?
    ensures Whole(w, scope, path, n) == Whole(w, scope, path, m)
  {
    if n <= m { MoreDepthWhole(w, scope, path, n, m); } else { MoreDepthWhole(w, scope, path, m, n); }
  }

  lemma GroupNeverWhole(w: World, scope: set<string>, c: Path, s: Statement, target: Path)
    requires IsGroupOf(w, s, target) && NeverWhole(w, scope, target)
    ensures NeverOne(w, scope, c, s)
  {
    forall k: nat ensures ExpandOne(w, scope, c, s, k).None? { assert Whole(w, scope, target, k).None?; }
  }

  lemma NoGroup(w: World, scope: set<string>, c: Path, s: Statement, target: Path, all: seq<Expanded>, n: nat)
    requires IsGroupOf(w, s, target) && Whole(w, scope, target, n) == Some(all)
    requires GroupItems(all, s.path[|s.path| - 1]) == {}
    ensures NeverOne(w, scope, c, s)
  {
    forall k: nat ensures ExpandOne(w, scope, c, s, k).None? {
      if Whole(w, scope, target, k).Some? { WholeIsUnique(w, scope, target, n, k); }
    }
  }

  lemma GroupNever(w: World, scope: set<string>, c: Path, s: Statement, target: Path, all: seq<Expanded>, n: nat,
                   items: set<string>)
    requires IsGroupOf(w, s, target) && Whole(w, scope, target, n) == Some(all)
    requires items == GroupItems(all, s.path[|s.path| - 1]) && NeverPicked(w, scope, target, items)
    ensures NeverOne(w, scope, c, s)
  {
    forall k: nat ensures ExpandOne(w, scope, c, s, k).None? {
      if Whole(w, scope, target, k).Some? {
        WholeIsUnique(w, scope, target, n, k);
        assert Picked(w, scope, target, items, k).None?;
      }
    }
  }

  lemma GroupExpands(w: World, scope: set<string>, c: Path, s: Statement, target: Path, all: seq<Expanded>, n: nat,
                     picked: seq<Expanded>, m: nat)
    requires IsGroupOf(w, s, target) && n <= m && Whole(w, scope, target, n) == Some(all)
    requires GroupItems(all, s.path[|s.path| - 1]) != {}
    requires Picked(w, scope, target, GroupItems(all, s.path[|s.path| - 1]), m) == Some(picked)
    ensures ExpandOne(w, scope, c, s, m) == Some(picked)
  {
    MoreDepthWhole(w, scope, target, n, m);
    assert ExpandGroup(w, scope, s, m) == Some(picked);
  }

  lemma MemoGrows(w: World, scope: set<string>, memo: map<Path, seq<Expanded>>, c: Path, ss: seq<Statement>,
                  expanded: seq<Expanded>)
    requires MemoIsExpansion(w, scope, memo) && c !in memo
    requires w.parse(c) == Some(ss) && ExpandAll(w, scope, c, ss, |memo|) == Some(expanded)
    ensures MemoIsExpansion(w, scope, memo[c := expanded])
  {
    var after := memo[c := expanded];
    assert |after| == |memo| + 1 by { assert after.Keys == memo.Keys + {c}; }
    forall k | k in after ensures Expansion(w, scope, k, |after|) == Some(after[k]) {
      if k != c { MoreDepth(w, scope, k, |memo|, |after|); }
    }
  }

  /** A file that is entered again while it is active lies on a cycle. */
  lemma ActiveNeverExpands(w: World, scope: set<string>, stack: seq<Path>, c: Path)
    requires Trail(w, scope, stack) && c in stack && Follows(w, scope, stack[|stack| - 1], c)
    ensures NeverExpands(w, scope, c)
  {
    var i :| 0 <= i < |stack| && stack[i] == c;
    var trail := stack[i..] + [c];
    assert Trail(w, scope, trail) by { TrailCloses(w, scope, stack, i, c); }
    forall n: nat ensures Expansion(w, scope, c, n).None? { CycleNeverExpands(w, scope, trail, n); }
  }

  lemma TrailCloses(w: World, scope: set<string>, stack: seq<Path>, i: nat, c: Path)
    requires Trail(w, scope, stack) && i < |stack| && Follows(w, scope, stack[|stack| - 1], c)
    ensures Trail(w, scope, stack[i..] + [c])
  {
    var trail := stack[i..] + [c];
    forall j | 0 <= j < |trail| - 1 ensures Follows(w, scope, trail[j], trail[j + 1]) {
      if j < |trail| - 2 { assert Follows(w, scope, stack[i + j], stack[i + j + 1]); }
    }
  }

  /** Everything memoised before is memoised still, with the same expansion. */
  ghost predicate Extends(before: map<Path, seq<Expanded>>, after: map<Path, seq<Expanded>>) {
    forall c | c in before :: c in after && after[c] == before[c]
  }

  lemma ExtendsOn(a: map<Path, seq<Expanded>>, b: map<Path, seq<Expanded>>, c: map<Path, seq<Expanded>>)
    requires Extends(a, b) && Extends(b, c)
    ensures Extends(a, c)
  {
  }

  lemma ExtendsByOne(a: map<Path, seq<Expanded>>, b: map<Path, seq<Expanded>>, c: Path, e: seq<Expanded>)
    requires Extends(a, b)
    ensures c !in b ==> Extends(a, b[c := e])
  {
  }

  class ImportResolver {
    const w: World
    var seen: set<Path>
    var scope: set<string>
    var activeStack: set<Path>
    var expandedCache: map<Path, seq<Expanded>>
    var files: set<Path>
    /** The active files in the order they were entered. */
    ghost var stack: seq<Path>
    /** The scan marked every reachable file. */
    ghost var settled: bool

    constructor (w: World)
      ensures this.w == w && Valid() && IsNew()
    {
      this.w := w;
      seen, scope, activeStack, expandedCache, files := {}, {}, {}, map[], {};
      stack, settled := [], false;
    }

    ghost predicate IsNew()
      reads this
    {
      seen == {} && scope == {} && activeStack == {} && expandedCache == map[] && files == {} && !settled
    }

    ghost predicate Valid()
      reads this
    {
      Tracks(activeStack, stack) && |seen| <= MAX_LOADED_FILES &&
      activeStack !! expandedCache.Keys &&
      (settled ==> Facts(w, seen, scope, stack, expandedCache))
    }

    /** What every step of the expansion keeps, even when it fails. */
    twostate predicate Steady()
      reads this
    {
      settled == old(settled) && (settled ==> scope == old(scope) && seen == old(seen))
    }

    /** What a successful step keeps. */
    twostate predicate Continues()
      reads this
    {
      Valid() && activeStack == old(activeStack) && stack == old(stack) && |old(expandedCache)| <= |expandedCache| &&
      Extends(old(expandedCache), expandedCache)
    }

    /** The file being expanded follows a load to `c`. */
    ghost predicate FollowedTo(c: Option<Path>)
      reads this
    {
      settled && stack != [] && c.Some? ==> Follows(w, scope, stack[|stack| - 1], c.value)
    }

    /** Marks what is reachable from `path` through unmarked files, as far as the budget
        allows, and adds what the newly marked files refer to. */
    method ScanDependencyCandidates(path: Path)
      requires |seen| <= MAX_LOADED_FILES
      modifies this`seen, this`scope
      ensures Scanned(w, path, old(seen), seen)
      ensures ScopeGrew(w, old(seen), old(scope), seen, scope)
      decreases MAX_LOADED_FILES - |seen|, 0
    {
      ScopeGrewNot(w, seen, scope);
      var canonical := w.canonical(path);
      if canonical.None? { return; }
      var c := canonical.value;
      if |seen| >= MAX_LOADED_FILES { return; }
      if c in seen { return; }
      ghost var before := seen;
      ScopeGrewByOne(w, seen, scope, c);
      seen := seen + {c};
      StartScan(w, c, [], before);
      var parsed := w.parse(c);
      if parsed.None? { return; }
      var candidates := CollectProgramDependencyCandidates(parsed.value);
      scope := scope + candidates;
      ghost var mid, midScope := seen, scope;
      ScanStatements(c, parsed.value, before);
      EndScan(w, c, parsed.value, before, seen);
      ScopeGrewTwice(w, before, old(scope), mid, midScope, seen, scope);
    }

    method ScanStatements(c: Path, ss: seq<Statement>, ghost before: set<Path>)
      requires w.parse(c) == Some(ss) && c !in before && seen == before + {c} && |before| < MAX_LOADED_FILES
      modifies this`seen, this`scope
      ensures Progress(w, c, ss, |ss|, before, seen)
      ensures ScopeGrew(w, old(seen), old(scope), seen, scope)
      decreases MAX_LOADED_FILES - |seen|, |ss| + 1
    {
      StartScan(w, c, ss, before);
      ScopeGrewNot(w, seen, scope);
      for i := 0 to |ss|
        invariant Progress(w, c, ss, i, before, seen)
        invariant ScopeGrew(w, old(seen), old(scope), seen, scope)
      {
        SubsetSize(old(seen), seen);
        ghost var mid, midScope := seen, scope;
        ScanStatement(c, ss[i]);
        ScanStep(w, c, ss, i, before, mid, seen, ScanTarget(w, c, ss[i]));
        ScopeGrewTwice(w, old(seen), old(scope), mid, midScope, seen, scope);
      }
    }

    method ScanStatement(c: Path, s: Statement)
      requires |seen| <= MAX_LOADED_FILES
      modifies this`seen, this`scope
      ensures var t := ScanTarget(w, c, s);
        if t.Some? then Scanned(w, t.value, old(seen), seen) else seen == old(seen)
      ensures ScopeGrew(w, old(seen), old(scope), seen, scope)
      decreases MAX_LOADED_FILES - |seen|, 1
    {
      ScopeGrewNot(w, seen, scope);
      var target := FindTarget(c, s);
      if target.Some? { ScanDependencyCandidates(target.value); }
    }

    /** The expansion of a file, from the memo if it has been expanded before.  The
        outermost call scans the whole graph first. */
    method LoadFile(path: Path) returns (r: Loaded)
      requires Valid() && (activeStack == {} ==> IsNew()) && FollowedTo(w.canonical(path))
      modifies this
      ensures old(activeStack) != {} ==> Steady()
      ensures old(activeStack) == {} ==> settled == ScanIsExact(w, path)
      ensures old(activeStack) == {} && settled ==> Scanned(w, path, {}, seen) && scope == ScopeOf(w, seen)
      ensures r.Ok? ==> Continues()
      ensures r.Ok? ==> w.canonical(path).Some? && w.canonical(path).value in expandedCache
      ensures r.Ok? && settled ==> Whole(w, scope, path, |expandedCache|) == Some(r.statements)
      ensures r.Err? && settled && !IsLimit(r.error) ==> NeverWhole(w, scope, path)
      decreases MAX_LOCAL_LOAD_DEPTH - |activeStack|, 3
    {
      if |activeStack| >= MAX_LOCAL_LOAD_DEPTH { return Err(TooDeep); }
      if |files| >= MAX_LOADED_FILES { return Err(TooManyFiles); }
      if activeStack == {} { ScanRoot(path); }
      var canonical := w.canonical(path);
      if canonical.None? { return Err(Unresolved); }
      var c := canonical.value;
      if settled && stack != [] { FollowedIsSeen(w, seen, scope, stack, expandedCache, c); }
      r := LoadCanonical(c);
    }

    method LoadCanonical(c: Path) returns (r: Loaded)
      requires Valid() && |activeStack| < MAX_LOCAL_LOAD_DEPTH && FollowedTo(Some(c))
      requires settled ==> c in seen
      modifies this
      ensures Steady()
      ensures r.Ok? ==> Continues() && c in expandedCache
      ensures r.Ok? && settled ==> Expansion(w, scope, c, |expandedCache|) == Some(r.statements)
      ensures r.Err? && settled && !IsLimit(r.error) ==> NeverExpands(w, scope, c)
      decreases MAX_LOCAL_LOAD_DEPTH - |activeStack|, 2
    {
      if c in expandedCache { return Ok(expandedCache[c]); }
      if c in activeStack {
        if settled { ActiveNeverExpands(w, scope, stack, c); }
        return Err(Cyclic(c));
      }
      r := ExpandFile(c);
    }

    method ScanRoot(path: Path)
      requires Valid() && IsNew()
      modifies this`seen, this`scope, this`settled
      ensures Valid() && settled == ScanIsExact(w, path) && (settled ==> w.canonical(path).value in seen)
      ensures Scanned(w, path, {}, seen) && scope == ScopeOf(w, seen)
    {
      hide ScopeGrew, ScopeOf, Facts, ScanIsExact;
      ScanDependencyCandidates(path);
      ScopeFromNothing(w, seen, scope);
      settled := ScanIsExact(w, path);
      if settled { StartFacts(w, path, seen, scope); }
    }

    method ExpandFile(c: Path) returns (r: Loaded)
      requires Valid() && c !in activeStack && c !in expandedCache && |activeStack| < MAX_LOCAL_LOAD_DEPTH
      requires settled ==> c in seen
      requires FollowedTo(Some(c))
      modifies this
      ensures Steady()
      ensures r.Ok? ==> Continues() && c in expandedCache
      ensures r.Ok? && settled ==> Expansion(w, scope, c, |expandedCache|) == Some(r.statements)
      ensures r.Err? && settled && !IsLimit(r.error) ==> NeverExpands(w, scope, c)
      decreases MAX_LOCAL_LOAD_DEPTH - |activeStack|, 1
    {
      hide Facts, NeverAll, ExpandAll, Extends;
      ghost var outer, before := stack, expandedCache;
      if settled { EnterFacts(w, seen, scope, stack, expandedCache, c); }
      TracksPush(activeStack, stack, c);
      activeStack, stack := activeStack + {c}, stack + [c];
      var parsed := w.parse(c);
      if parsed.None? { return Err(Unreadable); }
      r := ExpandStatements(c, parsed.value);
      if r.Err? {
        if settled && !IsLimit(r.error) { NeverFile(w, scope, c, parsed.value); }
        return;
      }
      ExtendsByOne(before, expandedCache, c, r.statements);
      Remember(c, r.statements, outer, parsed.value);
    }

    /** Takes the file off the active stack and memoises its expansion. */
    method Remember(c: Path, expanded: seq<Expanded>, ghost outer: seq<Path>, ghost ss: seq<Statement>)
      requires Valid() && stack == outer + [c] && c in activeStack && c !in outer
      requires settled ==> w.parse(c) == Some(ss) && ExpandAll(w, scope, c, ss, |expandedCache|) == Some(expanded)
      modifies this`activeStack, this`stack, this`files, this`expandedCache
      ensures Valid() && activeStack == old(activeStack) - {c} && stack == outer
      ensures expandedCache == old(expandedCache)[c := expanded] && |old(expandedCache)| <= |expandedCache|
      ensures settled ==> Expansion(w, scope, c, |expandedCache|) == Some(expanded)
    {
      assert c !in expandedCache;
      assert |expandedCache[c := expanded]| == |expandedCache| + 1 by {
        assert expandedCache[c := expanded].Keys == expandedCache.Keys + {c};
      }
      if settled { LeaveFacts(w, seen, scope, outer, expandedCache, c, ss, expanded); }
      TracksPop(activeStack, outer, c);
      activeStack, stack := activeStack - {c}, outer;
      files := files + {c};
      expandedCache := expandedCache[c := expanded];
    }

    method ExpandStatements(c: Path, ss: seq<Statement>) returns (r: Loaded)
      requires Valid() && stack != [] && stack[|stack| - 1] == c && w.parse(c) == Some(ss)
      modifies this
      ensures Steady()
      ensures r.Ok? ==> Continues()
      ensures r.Ok? && settled ==> ExpandAll(w, scope, c, ss, |expandedCache|) == Some(r.statements)
      ensures r.Err? && settled && !IsLimit(r.error) ==> NeverAll(w, scope, c, ss)
      decreases MAX_LOCAL_LOAD_DEPTH - |activeStack|, 9
    {
      var candidates := CollectProgramDependencyCandidates(ss);
      if settled { CandidatesInScope(w, seen, scope, stack, expandedCache); }
      var expanded := [];
      for i := 0 to |ss|
        invariant Steady() && Continues()
        invariant settled ==> ExpandAll(w, scope, c, ss[..i], |expandedCache|) == Some(expanded)
      {
        ghost var n := |expandedCache|;
        var one := ExpandStatement(c, ss[i], candidates);
        if one.Err? {
          if settled && !IsLimit(one.error) { NeverStatement(w, scope, c, ss, ss[i]); }
          return one;
        }
        if settled { Appended(w, scope, c, ss, i, expanded, one.statements, n, |expandedCache|); }
        expanded := expanded + one.statements;
      }
      assert ss[..|ss|] == ss;
      return Ok(expanded);
    }

    method ExpandStatement(c: Path, s: Statement, candidates: set<string>) returns (r: Loaded)
      requires Valid() && stack != [] && stack[|stack| - 1] == c && w.parse(c).Some? && s in w.parse(c).value
      requires settled ==> candidates <= scope
      modifies this
      ensures Steady()
      ensures r.Ok? ==> Continues()
      ensures r.Ok? && settled ==> ExpandOne(w, scope, c, s, |expandedCache|) == Some(r.statements)
      ensures r.Err? && settled && !IsLimit(r.error) ==> NeverOne(w, scope, c, s)
      decreases MAX_LOCAL_LOAD_DEPTH - |activeStack|, 8
    {
      if IsLoad(s) {
        var target := w.resolve(s.path);
        if target.Some? {
          r := ExpandLoad(c, s, target.value, candidates);
        } else if |s.path| >= 3 {
          r := ExpandLoadPrefixGroup(c, s);
        } else {
          return Err(Unresolved);
        }
      } else if s.LoadLocal? {
        r := ExpandLoadLocal(c, s);
      } else {
        return Ok([Expanded(s, c)]);
      }
    }

    method ExpandLoad(c: Path, s: Statement, target: Path, candidates: set<string>) returns (r: Loaded)
      requires Valid() && stack != [] && stack[|stack| - 1] == c && w.parse(c).Some? && s in w.parse(c).value
      requires IsLoad(s) && w.resolve(s.path) == Some(target)
      requires settled ==> candidates <= scope
      modifies this
      ensures Steady()
      ensures r.Ok? ==> Continues()
      ensures r.Ok? && settled ==> ExpandOne(w, scope, c, s, |expandedCache|) == Some(r.statements)
      ensures r.Err? && settled && !IsLimit(r.error) ==> NeverOne(w, scope, c, s)
      decreases MAX_LOCAL_LOAD_DEPTH - |activeStack|, 7
    {
      assert settled ==> scope + candidates == scope;
      scope := scope + candidates;
      var wanted := Choose(s, target);
      if wanted.None? {
        if settled { NothingWanted(w, scope, c, s, target); }
        return Err(Unreadable);
      }
      r := ExpandWanted(c, s, target, wanted.value);
    }

    method ExpandWanted(c: Path, s: Statement, target: Path, wanted: Option<set<string>>) returns (r: Loaded)
      requires Valid() && stack != [] && stack[|stack| - 1] == c && w.parse(c).Some? && s in w.parse(c).value
      requires IsLoad(s) && w.resolve(s.path) == Some(target)
      requires settled ==> Wanted(w, scope, s, target) == Some(wanted)
      modifies this
      ensures Steady()
      ensures r.Ok? ==> Continues()
      ensures r.Ok? && settled ==> ExpandOne(w, scope, c, s, |expandedCache|) == Some(r.statements)
      ensures r.Err? && settled && !IsLimit(r.error) ==> NeverOne(w, scope, c, s)
      decreases MAX_LOCAL_LOAD_DEPTH - |activeStack|, 6
    {
      hide Facts, NeverOne, NeverImported, ExpandOne, Imported, Renamed;
      if settled { FollowsLoad(w, scope, c, s, target); }
      r := ImportWanted(target, wanted);
      if r.Err? {
        if settled && !IsLimit(r.error) { LoadNever(w, scope, c, s, target, wanted); }
        return;
      }
      if settled { LoadExpands(w, scope, c, s, target, wanted, r.statements, |expandedCache|); }
      var name := LoadName(s.path, s.alias);
      if name != "" {
        var prefixed := UnderName(name, target, r.statements);
        r := Ok(prefixed);
      }
    }

    method ImportWanted(target: Path, wanted: Option<set<string>>) returns (r: Loaded)
      requires Valid() && activeStack != {}
      requires wanted.None? || (w.parse(target).Some? && HasLoads(w.parse(target).value)) ==>
        FollowedTo(w.canonical(target))
      modifies this
      ensures Steady()
      ensures r.Ok? ==> Continues()
      ensures r.Ok? && settled ==> Imported(w, scope, target, wanted, |expandedCache|) == Some(r.statements)
      ensures r.Err? && settled && !IsLimit(r.error) ==> NeverImported(w, scope, target, wanted)
      decreases MAX_LOCAL_LOAD_DEPTH - |activeStack|, 5
    {
      if wanted.Some? {
        r := LoadSelectedImports(target, wanted.value);
      } else {
        r := LoadFile(target);
      }
    }

    method ExpandLoadPrefixGroup(c: Path, s: Statement) returns (r: Loaded)
      requires Valid() && stack != [] && stack[|stack| - 1] == c && w.parse(c).Some? && s in w.parse(c).value
      requires IsLoad(s) && w.resolve(s.path).None? && |s.path| >= 3
      modifies this
      ensures Steady()
      ensures r.Ok? ==> Continues()
      ensures r.Ok? && settled ==> ExpandOne(w, scope, c, s, |expandedCache|) == Some(r.statements)
      ensures r.Err? && settled && !IsLimit(r.error) ==> NeverOne(w, scope, c, s)
      decreases MAX_LOCAL_LOAD_DEPTH - |activeStack|, 6
    {
      hide Facts, NeverOne, NeverWhole, ExpandOne, Whole, Extends;
      ghost var before := expandedCache;
      var parent := w.resolve(s.path[..|s.path| - 1]);
      if parent.None? {
        if settled { NoParent(w, scope, c, s); }
        return Err(Unresolved);
      }
      var target := parent.value;
      FollowsGroup(w, scope, c, s, target);
      var all := LoadFile(target);
      if all.Err? {
        if settled && !IsLimit(all.error) { GroupNeverWhole(w, scope, c, s, target); }
        return all;
      }
      ghost var between, n := expandedCache, |expandedCache|;
      r := ExpandGroupItems(c, s, target, all.statements, n);
      if r.Ok? { ExtendsOn(before, between, expandedCache); }
    }

    method ExpandGroupItems(c: Path, s: Statement, target: Path, all: seq<Expanded>, ghost n: nat) returns (r: Loaded)
      requires Valid() && stack != [] && IsGroupOf(w, s, target) && n <= |expandedCache|
      requires FollowedTo(w.canonical(target))
      requires settled ==> Whole(w, scope, target, n) == Some(all)
      modifies this
      ensures Steady()
      ensures r.Ok? ==> Continues()
      ensures r.Ok? && settled ==> ExpandOne(w, scope, c, s, |expandedCache|) == Some(r.statements)
      ensures r.Err? && settled && !IsLimit(r.error) ==> NeverOne(w, scope, c, s)
      decreases MAX_LOCAL_LOAD_DEPTH - |activeStack|, 5
    {
      var items := MatchingItems(all, s.path[|s.path| - 1]);
      if items == {} {
        if settled { NoGroup(w, scope, c, s, target, all, n); }
        return Err(NoMatchingExports);
      }
      r := LoadSelectedImports(target, items);
      if settled && r.Ok? { GroupExpands(w, scope, c, s, target, all, n, r.statements, |expandedCache|); }
      if settled && r.Err? && !IsLimit(r.error) { GroupNever(w, scope, c, s, target, all, n, items); }
    }

    method ExpandLoadLocal(c: Path, s: Statement) returns (r: Loaded)
      requires Valid() && stack != [] && stack[|stack| - 1] == c && w.parse(c).Some? && s in w.parse(c).value
      requires s.LoadLocal?
      modifies this
      ensures Steady()
      ensures r.Ok? ==> Continues()
      ensures r.Ok? && settled ==> ExpandOne(w, scope, c, s, |expandedCache|) == Some(r.statements)
      ensures r.Err? && settled && !IsLimit(r.error) ==> NeverOne(w, scope, c, s)
      decreases MAX_LOCAL_LOAD_DEPTH - |activeStack|, 6
    {
      var found := w.resolveLocal(c, s.relPath, s.absolute);
      if found.None? { return Err(Unresolved); }
      var target := found.value;
      assert settled && w.canonical(target).Some? ==> Follows(w, scope, c, w.canonical(target).value) by {
        assert Enters(w, scope, c, s) == w.canonical(target);
      }
      r := LoadFile(target);
      if r.Err? {
        if settled && !IsLimit(r.error) { LocalNever(w, scope, c, s, target); }
        return;
      }
      var name := if s.relPath == [] then "" else s.relPath[|s.relPath| - 1];
      var prefixed := UnderName(name, target, r.statements);
      r := Ok(prefixed + [Expanded(s, c)]);
    }

    method UnderName(name: string, target: Path, imported: seq<Expanded>) returns (prefixed: seq<Expanded>)
      ensures prefixed == Renamed(w, name, target, imported)
    {
      prefixed := PrefixLoaded(imported, w.prefixOf(name, target));
    }

    /** The items to take from the target of a load, or `None` for all of them. */
    method Choose(s: Statement, target: Path) returns (wanted: Option<Option<set<string>>>)
      requires s.Load?
      ensures wanted == Wanted(w, scope, s, target)
    {
      if s.items.Some? { return Some(Some(set n | n in s.items.value)); }
      var parsed := w.parse(target);
      if parsed.None? { return None; }
      var items := InferReachableImportItems(parsed.value, s.path, scope);
      return Some(items);
    }

    method MatchingItems(all: seq<Expanded>, group: string) returns (items: set<string>)
      ensures items == GroupItems(all, group)
    {
      items := {};
      for i := 0 to |all|
        invariant items == GroupItems(all[..i], group)
      {
        assert all[..i + 1] == all[..i] + [all[i]];
        var name := ExportName(all[i].statement);
        if name.Some? && (group + "::") <= name.value { items := items + {name.value}; }
      }
      assert all[..|all|] == all;
    }

    method LoadSelectedImports(path: Path, items: set<string>) returns (r: Loaded)
      requires Valid() && activeStack != {}
      requires w.parse(path).Some? && HasLoads(w.parse(path).value) ==> FollowedTo(w.canonical(path))
      modifies this
      ensures Steady()
      ensures r.Ok? ==> Continues()
      ensures r.Ok? && settled ==> Picked(w, scope, path, items, |expandedCache|) == Some(r.statements)
      ensures r.Err? && settled && !IsLimit(r.error) ==> NeverPicked(w, scope, path, items)
      decreases MAX_LOCAL_LOAD_DEPTH - |activeStack|, 4
    {
      var parsed := w.parse(path);
      if parsed.None? { return Err(Unreadable); }
      if HasLoads(parsed.value) {
        r := LoadFile(path);
        if r.Err? { return; }
        ghost var n := |expandedCache|;
        var selected := w.select(r.statements, items, path);
        if selected.None? {
          if settled { NoneSelected(w, scope, path, items, r.statements, n); }
          return Err(NotExported);
        }
        return Ok(selected.value);
      }
      files := files + {path};
      var selected := w.select(Plain(parsed.value, path), items, path);
      return if selected.None? then Err(NotExported) else Ok(selected.value);
    }

    /** The file to scan for a statement, trying ever shorter fronts of a load path. */
    method FindTarget(c: Path, s: Statement) returns (target: Option<Path>)
      ensures target == ScanTarget(w, c, s)
    {
      if IsLoad(s) {
        var take := |s.path|;
        assert s.path[..take] == s.path;
        while take > 0
          invariant 0 <= take <= |s.path| && LongestResolved(w, s.path[..take]) == LongestResolved(w, s.path)
        {
          assert s.path[..take][..take - 1] == s.path[..take - 1];
          target := w.resolve(s.path[..take]);
          if target.Some? { return; }
          take := take - 1;
        }
        return None;
      }
      return if s.LoadLocal? then w.resolveLocal(c, s.relPath, s.absolute) else None;
    }
  }

  // ---- the whole program

  /** `statements` without the copies of earlier ones. */
  function FirstCopies(statements: seq<Expanded>): seq<Expanded> {
    if statements == [] then []
    else
      var n := |statements| - 1;
      FirstCopies(statements[..n]) + (if statements[n] in statements[..n] then [] else [statements[n]])
  }

  /** Each statement is left once, at its first place: `at` gives those places in order. */
  lemma {:induction false} FirstCopiesAreFirst(statements: seq<Expanded>) returns (at: seq<nat>)
    ensures |at| == |FirstCopies(statements)|
    ensures forall i | 0 <= i < |at| ::
      at[i] < |statements| && FirstCopies(statements)[i] == statements[at[i]] && statements[at[i]] !in statements[..at[i]]
    ensures forall i, j | 0 <= i < j < |at| :: at[i] < at[j]
    ensures forall e :: e in statements <==> e in FirstCopies(statements)
  {
    at := [];
    if statements != [] {
      var n := |statements| - 1;
      var front := statements[..n];
      at := FirstCopiesAreFirst(front);
      forall i | 0 <= i < |at| ensures statements[..at[i]] == front[..at[i]] {}
      assert statements == front + [statements[n]];
      if statements[n] !in front { at := at + [n]; }
    }
  }

  method DedupeIdenticalExpanded(statements: seq<Expanded>) returns (r: seq<Expanded>)
    ensures r == FirstCopies(statements)
  {
    var seen: set<Expanded> := {};
    r := [];
    for i := 0 to |statements|
      invariant r == FirstCopies(statements[..i])
      invariant forall e :: e in seen <==> e in statements[..i]
    {
      assert statements[..i + 1][..i] == statements[..i];
      if statements[i] !in seen { r := r + [statements[i]]; }
      seen := seen + {statements[i]};
    }
    assert statements[..|statements|] == statements;
  }

  lemma FirstCopiesHaveProvenance(w: World, scope: set<string>, path: Path, n: nat, all: seq<Expanded>)
    requires Whole(w, scope, path, n) == Some(all)
    ensures HasProvenance(w, scope, w.canonical(path).value, FirstCopies(all))
  {
    hide Expansion, HasProvenance;
    var at := FirstCopiesAreFirst(all);
    ExpansionHasProvenance(w, scope, w.canonical(path).value, n, FirstCopies(all));
  }

  /** Loading a whole program.  Within the budget of the scan, the result is the plain
      expansion of the entry file against everything the program refers to, each statement
      once: nothing comes from elsewhere than along loads, and no file that is taken whole
      loses a statement.  Any error other than an exhausted limit means that there is no such
      expansion. */
  method LoadProgram(w: World, path: Path) returns (r: Loaded, files: set<Path>)
    ensures ScanIsExact(w, path) ==>
      IsReach(w, w.canonical(path).value, files) &&
      (r.Ok? ==> exists n: nat :: Whole(w, ScopeOf(w, files), path, n).Some? &&
                                  r.statements == FirstCopies(Whole(w, ScopeOf(w, files), path, n).value)) &&
      (r.Ok? ==> HasProvenance(w, ScopeOf(w, files), w.canonical(path).value, r.statements)) &&
      (r.Err? && !IsLimit(r.error) ==> NeverWhole(w, ScopeOf(w, files), path))
  {
    hide Whole, ScopeOf, Facts, Scanned, FirstCopies, HasProvenance;
    var resolver := new ImportResolver(w);
    r := resolver.LoadFile(path);
    files := resolver.seen;
    if ScanIsExact(w, path) { ScanIsExactIff(w, path, files); }
    if r.Ok? {
      var statements := DedupeIdenticalExpanded(r.statements);
      if ScanIsExact(w, path) { FirstCopiesHaveProvenance(w, resolver.scope, path, |resolver.expandedCache|, r.statements); }
      r := Ok(statements);
    }
  }

  lemma SubsetSize<T>(a: set<T>, b: set<T>)
    requires a <= b
    ensures |a| <= |b|
  {
    assert b == a + (b - a);
  }
}
